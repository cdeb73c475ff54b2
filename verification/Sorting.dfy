/** Stable sorting by an order relation, as Python's `sorted` performs it, and the facts about
    it that the ranking, fingerprint and URL models share. */
module Sorting {

  ghost predicate TotalPreorder<T(!new)>(leq: (T, T) -> bool) {
    && (forall a, b :: leq(a, b) || leq(b, a))
    && (forall a, b, c :: leq(a, b) && leq(b, c) ==> leq(a, c))
  }

  ghost predicate Antisymmetric<T(!new)>(leq: (T, T) -> bool) {
    forall a, b :: leq(a, b) && leq(b, a) ==> a == b
  }

  /** No two distinct members of `s` tie. */
  ghost predicate StrictOn<T>(s: seq<T>, leq: (T, T) -> bool) {
    forall a, b :: a in s && b in s && leq(a, b) && leq(b, a) ==> a == b
  }

  ghost predicate SortedBy<T>(s: seq<T>, leq: (T, T) -> bool) {
    forall i, j :: 0 <= i < j < |s| ==> leq(s[i], s[j])
  }

  ghost predicate Permutation<T>(s: seq<T>, t: seq<T>) {
    multiset(s) == multiset(t)
  }

  function Insert<T>(x: T, s: seq<T>, leq: (T, T) -> bool): seq<T> {
    if s == [] then [x]
    else if leq(x, s[0]) then [x] + s
    else [s[0]] + Insert(x, s[1..], leq)
  }

  function Sort<T>(s: seq<T>, leq: (T, T) -> bool): seq<T> {
    if s == [] then [] else Insert(s[0], Sort(s[1..], leq), leq)
  }

  function Take<T>(s: seq<T>, k: nat): seq<T> {
    if |s| <= k then s else s[..k]
  }

  lemma {:induction false} InsertCorrect<T(!new)>(x: T, s: seq<T>, leq: (T, T) -> bool)
    requires TotalPreorder(leq) && SortedBy(s, leq)
    ensures multiset(Insert(x, s, leq)) == multiset(s) + multiset{x}
    ensures SortedBy(Insert(x, s, leq), leq)
  {
    if s != [] && !leq(x, s[0]) {
      InsertCorrect(x, s[1..], leq);
      assert s == [s[0]] + s[1..];
      var r := Insert(x, s[1..], leq);
      forall y | y in r ensures leq(s[0], y) {
        assert y in multiset(r);
        assert y in s[1..] || y == x;
      }
      PrependSorted(s[0], r, leq);
    } else if s != [] {
      PrependSorted(x, s, leq);
    }
  }

  lemma PrependSorted<T(!new)>(x: T, s: seq<T>, leq: (T, T) -> bool)
    requires SortedBy(s, leq) && forall y :: y in s ==> leq(x, y)
    ensures SortedBy([x] + s, leq)
  {}

  /** `Sort` orders its input and neither loses nor invents elements. */
  lemma {:induction false} SortCorrect<T(!new)>(s: seq<T>, leq: (T, T) -> bool)
    requires TotalPreorder(leq)
    ensures SortedBy(Sort(s, leq), leq) && Permutation(Sort(s, leq), s)
    ensures |Sort(s, leq)| == |s|
  {
    if s != [] {
      SortCorrect(s[1..], leq);
      InsertCorrect(s[0], Sort(s[1..], leq), leq);
      assert s == [s[0]] + s[1..];
    }
    PermutationLength(Sort(s, leq), s);
  }

  lemma PermutationLength<T(!new)>(s: seq<T>, t: seq<T>)
    requires Permutation(s, t)
    ensures |s| == |t|
  {
    assert |multiset(s)| == |multiset(t)|;
  }

  lemma PermutationMembers<T(!new)>(s: seq<T>, t: seq<T>)
    requires Permutation(s, t)
    ensures forall x :: x in s <==> x in t
  {
    forall x ensures x in s <==> x in t {
      assert x in s <==> x in multiset(s);
      assert x in t <==> x in multiset(t);
    }
  }

  lemma HeadsAgree<T(!new)>(s: seq<T>, t: seq<T>, leq: (T, T) -> bool)
    requires SortedBy(s, leq) && SortedBy(t, leq) && Permutation(s, t) && StrictOn(s, leq)
    requires forall a :: a in s ==> leq(a, a)
    requires s != []
    ensures t != [] && s[0] == t[0]
  {
    PermutationLength(s, t);
    PermutationMembers(s, t);
    assert t[0] in s && s[0] in t;
    assert leq(s[0], t[0]) && leq(t[0], s[0]);
  }

  lemma RemoveHead<T(!new)>(s: seq<T>)
    requires s != []
    ensures multiset(s[1..]) == multiset(s) - multiset{s[0]}
  {
    assert s == [s[0]] + s[1..];
  }

  lemma TailsPermute<T(!new)>(s: seq<T>, t: seq<T>)
    requires Permutation(s, t) && s != [] && t != [] && s[0] == t[0]
    ensures Permutation(s[1..], t[1..])
  {
    RemoveHead(s);
    RemoveHead(t);
  }

  lemma RemoveAt<T(!new)>(s: seq<T>, j: nat)
    requires j < |s|
    ensures multiset(s[..j] + s[j + 1..]) == multiset(s) - multiset{s[j]}
  {
    assert s == s[..j] + ([s[j]] + s[j + 1..]);
    assert multiset(s) == multiset(s[..j]) + multiset([s[j]]) + multiset(s[j + 1..]);
  }

  /** The concatenation of what `f` makes of each element. */
  function FlatMap<T, U>(f: T -> seq<U>, s: seq<T>): seq<U> {
    if s == [] then [] else f(s[0]) + FlatMap(f, s[1..])
  }

  lemma {:induction false} FlatMapConcat<T(!new), U(!new)>(f: T -> seq<U>, a: seq<T>, b: seq<T>)
    ensures FlatMap(f, a + b) == FlatMap(f, a) + FlatMap(f, b)
  {
    if a == [] {
      assert a + b == b;
    } else {
      FlatMapConcat(f, a[1..], b);
      assert (a + b)[1..] == a[1..] + b;
    }
  }

  lemma FlatMapWithout<T(!new), U(!new)>(f: T -> seq<U>, s: seq<T>, j: nat)
    requires j < |s|
    ensures multiset(FlatMap(f, s)) == multiset(f(s[j])) + multiset(FlatMap(f, s[..j] + s[j + 1..]))
  {
    assert s == s[..j] + ([s[j]] + s[j + 1..]);
    FlatMapMiddle(f, s[..j], s[j], s[j + 1..]);
  }

  lemma FlatMapMiddle<T(!new), U(!new)>(f: T -> seq<U>, a: seq<T>, x: T, b: seq<T>)
    ensures multiset(FlatMap(f, a + ([x] + b))) == multiset(f(x)) + multiset(FlatMap(f, a + b))
  {
    FlatMapConcat(f, a, [x] + b);
    FlatMapConcat(f, a, b);
    assert ([x] + b)[1..] == b;
    assert FlatMap(f, [x] + b) == f(x) + FlatMap(f, b);
  }

  /** The head of one arrangement has its place in the other. */
  lemma HeadElsewhere<T(!new)>(a: seq<T>, b: seq<T>) returns (j: nat)
    requires Permutation(a, b) && a != []
    ensures j < |b| && b[j] == a[0] && Permutation(a[1..], b[..j] + b[j + 1..])
  {
    PermutationMembers(a, b);
    assert a[0] in b;
    j :| 0 <= j < |b| && b[j] == a[0];
    RemoveHead(a);
    RemoveAt(b, j);
  }

  lemma {:induction false} FlatMapPermutes<T(!new), U(!new)>(f: T -> seq<U>, a: seq<T>, b: seq<T>)
    requires Permutation(a, b)
    ensures Permutation(FlatMap(f, a), FlatMap(f, b))
    decreases |a|
  {
    PermutationLength(a, b);
    if a != [] {
      var j := HeadElsewhere(a, b);
      FlatMapWithout(f, b, j);
      FlatMapPermutes(f, a[1..], b[..j] + b[j + 1..]);
    }
  }

  /** Two ordered arrangements of the same elements agree when ties only join equal elements. */
  lemma {:induction false} SortedUnique<T(!new)>(s: seq<T>, t: seq<T>, leq: (T, T) -> bool)
    requires SortedBy(s, leq) && SortedBy(t, leq) && Permutation(s, t)
    requires StrictOn(s, leq)
    requires forall a :: a in s ==> leq(a, a)
    ensures s == t
  {
    PermutationLength(s, t);
    if s != [] {
      HeadsAgree(s, t, leq);
      TailsPermute(s, t);
      SortedUnique(s[1..], t[1..], leq);
      assert s == [s[0]] + s[1..] && t == [t[0]] + t[1..];
    }
  }

  /** The sorted list depends on the elements only, not on the order they came in. */
  lemma SortPermutationInvariant<T(!new)>(s: seq<T>, t: seq<T>, leq: (T, T) -> bool)
    requires TotalPreorder(leq) && StrictOn(s, leq) && Permutation(s, t)
    ensures Sort(s, leq) == Sort(t, leq)
  {
    SortCorrect(s, leq);
    SortCorrect(t, leq);
    PermutationMembers(s, Sort(s, leq));
    SortedUnique(Sort(s, leq), Sort(t, leq), leq);
  }

  /** Cutting a sorted list leaves the smaller part in front. */
  lemma CutSorted<T(!new)>(s: seq<T>, n: nat, leq: (T, T) -> bool)
    requires SortedBy(s, leq) && n <= |s|
    ensures SortedBy(s[..n], leq) && multiset(s[..n] + s[n..]) == multiset(s)
    ensures forall x, y :: x in s[..n] && y in s[n..] ==> leq(x, y)
  {
    assert s[..n] + s[n..] == s;
    forall x, y | x in s[..n] && y in s[n..] ensures leq(x, y) {
      var i :| 0 <= i < n && s[i] == x;
      var j :| 0 <= j < |s| - n && s[n..][j] == y;
      assert leq(s[i], s[n + j]);
    }
  }

  lemma {:induction false} SortOfSorted<T(!new)>(s: seq<T>, leq: (T, T) -> bool)
    requires SortedBy(s, leq)
    ensures Sort(s, leq) == s
  {
    if s != [] {
      SortOfSorted(s[1..], leq);
      assert s == [s[0]] + s[1..];
    }
  }

  // ----- stability ---------------------------------------------------------------------------

  predicate Tied<T>(a: T, b: T, leq: (T, T) -> bool) { leq(a, b) && leq(b, a) }

  /** The members of `s` that tie with `k`, in order. */
  function TiedWith<T>(s: seq<T>, k: T, leq: (T, T) -> bool): seq<T> {
    if s == [] then []
    else (if Tied(s[0], k, leq) then [s[0]] else []) + TiedWith(s[1..], k, leq)
  }

  lemma TiedWithCons<T(!new)>(x: T, s: seq<T>, k: T, leq: (T, T) -> bool)
    ensures TiedWith([x] + s, k, leq) == (if Tied(x, k, leq) then [x] else []) + TiedWith(s, k, leq)
  {
    assert ([x] + s)[1..] == s;
  }

  /** Swapping two neighbours that do not both tie with `k` does not show in `TiedWith`. */
  lemma SwapUntied<T(!new)>(x: T, y: T, rest: seq<T>, k: T, leq: (T, T) -> bool)
    requires !(Tied(x, k, leq) && Tied(y, k, leq))
    ensures TiedWith([x] + ([y] + rest), k, leq) == TiedWith([y] + ([x] + rest), k, leq)
  {
    TiedWithCons(x, [y] + rest, k, leq);
    TiedWithCons(y, rest, k, leq);
    TiedWithCons(y, [x] + rest, k, leq);
    TiedWithCons(x, rest, k, leq);
  }

  lemma {:induction false} InsertStable<T(!new)>(x: T, s: seq<T>, k: T, leq: (T, T) -> bool)
    requires forall a, b :: Tied(a, k, leq) && Tied(b, k, leq) ==> leq(a, b)
    ensures TiedWith(Insert(x, s, leq), k, leq) == TiedWith([x] + s, k, leq)
  {
    if s == [] {
      assert [x] + s == [x];
    } else if !leq(x, s[0]) {
      InsertStable(x, s[1..], k, leq);
      TiedWithCons(s[0], Insert(x, s[1..], leq), k, leq);
      TiedWithCons(s[0], [x] + s[1..], k, leq);
      SwapUntied(x, s[0], s[1..], k, leq);
      assert s == [s[0]] + s[1..];
    }
  }

  /** Elements that tie keep their input order. */
  lemma {:induction false} SortStable<T(!new)>(s: seq<T>, k: T, leq: (T, T) -> bool)
    requires TotalPreorder(leq)
    ensures TiedWith(Sort(s, leq), k, leq) == TiedWith(s, k, leq)
  {
    if s != [] {
      SortStable(s[1..], k, leq);
      forall a, b | Tied(a, k, leq) && Tied(b, k, leq) ensures leq(a, b) {
        assert leq(a, k) && leq(k, b);
      }
      InsertStable(s[0], Sort(s[1..], leq), k, leq);
      TiedWithCons(s[0], Sort(s[1..], leq), k, leq);
    }
  }

  // ----- order on strings --------------------------------------------------------------------

  /** Code-point lexicographic order, Python's `<=` on `str`. */
  predicate StringLeq(a: string, b: string) {
    a == [] || (b != [] && (a[0] < b[0] || (a[0] == b[0] && StringLeq(a[1..], b[1..]))))
  }

  lemma {:induction false} StringLeqTotal(a: string, b: string)
    ensures StringLeq(a, b) || StringLeq(b, a)
    ensures StringLeq(a, b) && StringLeq(b, a) ==> a == b
  {
    if a != [] && b != [] && a[0] == b[0] {
      StringLeqTotal(a[1..], b[1..]);
      assert a == [a[0]] + a[1..] && b == [b[0]] + b[1..];
    }
  }

  lemma {:induction false} StringLeqTransitive(a: string, b: string, c: string)
    requires StringLeq(a, b) && StringLeq(b, c)
    ensures StringLeq(a, c)
  {
    if a != [] && a[0] == b[0] && b[0] == c[0] {
      StringLeqTransitive(a[1..], b[1..], c[1..]);
    }
  }

  lemma StringOrder()
    ensures TotalPreorder(StringLeq) && Antisymmetric(StringLeq)
  {
    forall a, b ensures StringLeq(a, b) || StringLeq(b, a) { StringLeqTotal(a, b); }
    forall a, b, c | StringLeq(a, b) && StringLeq(b, c) ensures StringLeq(a, c) {
      StringLeqTransitive(a, b, c);
    }
    forall a, b | StringLeq(a, b) && StringLeq(b, a) ensures a == b { StringLeqTotal(a, b); }
  }
}
