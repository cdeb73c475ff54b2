/** Content fingerprints: a bitwise majority hash over token digests and a bottom-k sketch over
    shingle hashes. The digest functions are parameters; nothing is assumed about collisions. */
module Fingerprints {
  import opened Basics
  import opened Sorting

  // ----- bits --------------------------------------------------------------------------------

  function Pow2(n: nat): nat { if n == 0 then 1 else 2 * Pow2(n - 1) }

  /** `v & (1 << i)` is non-zero. */
  predicate Bit(v: nat, i: nat)
    decreases i
  {
    if i == 0 then v % 2 == 1 else Bit(v / 2, i - 1)
  }

  /** `v | (1 << i)`. */
  function SetBit(v: nat, i: nat): nat { if Bit(v, i) then v else v + Pow2(i) }

  lemma {:induction false} HighBitsAreClear(v: nat, n: nat, i: nat)
    requires v < Pow2(n) && n <= i
    ensures !Bit(v, i)
    decreases i
  {
    if i > 0 {
      if n > 0 {
        HighBitsAreClear(v / 2, n - 1, i - 1);
      } else {
        HighBitsAreClear(0, 0, i - 1);
      }
    }
  }

  lemma {:induction false} AddHighBit(v: nat, n: nat, i: nat)
    requires v < Pow2(n)
    ensures Bit(v + Pow2(n), i) <==> (i == n || Bit(v, i))
    decreases n, i
  {
    if n == 0 {
      if i > 0 { HighBitsAreClear(0, 0, i - 1); HighBitsAreClear(0, 0, i); }
    } else {
      assert (v + Pow2(n)) / 2 == v / 2 + Pow2(n - 1);
      if i > 0 { AddHighBit(v / 2, n - 1, i - 1); }
    }
  }

  /** A number is its bits. */
  lemma {:induction false} BitsDetermine(v: nat, w: nat, n: nat)
    requires v < Pow2(n) && w < Pow2(n) && forall i :: 0 <= i < n ==> (Bit(v, i) <==> Bit(w, i))
    ensures v == w
    decreases n
  {
    if n > 0 {
      assert Bit(v, 0) <==> Bit(w, 0);
      forall i | 0 <= i < n - 1 ensures Bit(v / 2, i) <==> Bit(w / 2, i) {
        assert Bit(v, i + 1) <==> Bit(w, i + 1);
      }
      BitsDetermine(v / 2, w / 2, n - 1);
    }
  }

  // ----- simhash -----------------------------------------------------------------------------

  /** How many of the digests have bit `i`. */
  function Having(digests: seq<nat>, i: nat): (n: nat)
    ensures n <= |digests|
  {
    if digests == [] then 0
    else Having(digests[..|digests| - 1], i) + if Bit(digests[|digests| - 1], i) then 1 else 0
  }

  /** At least as many digests have bit `i` as lack it. */
  predicate Majority(digests: seq<nat>, i: nat) { 2 * Having(digests, i) >= |digests| }

  /** `value` has exactly the majority bits below `bits`. */
  ghost predicate IsSimhash(digests: seq<nat>, bits: nat, value: nat) {
    value < Pow2(bits) && forall i :: 0 <= i < bits ==> (Bit(value, i) <==> Majority(digests, i))
  }

  function Digests(tokens: seq<string>, digest: string -> nat): (r: seq<nat>)
    ensures |r| == |tokens| && forall i :: 0 <= i < |r| ==> r[i] == digest(tokens[i])
  {
    seq(|tokens|, i requires 0 <= i < |tokens| => digest(tokens[i]))
  }

  ghost predicate Weighs(vector: seq<int>, digests: seq<nat>) {
    forall i :: 0 <= i < |vector| ==> vector[i] == 2 * Having(digests, i) - |digests|
  }

  method AddDigest(vector: array<int>, digest: nat, ghost before: seq<nat>)
    requires Weighs(vector[..], before)
    modifies vector
    ensures Weighs(vector[..], before + [digest])
  {
    ghost var after := before + [digest];
    assert after[..|before|] == before;
    for index := 0 to vector.Length
      invariant forall i :: 0 <= i < index ==> vector[i] == 2 * Having(after, i) - |after|
      invariant forall i :: index <= i < vector.Length ==> vector[i] == 2 * Having(before, i) - |before|
    {
      vector[index] := vector[index] + if Bit(digest, index) then 1 else -1;
    }
  }

  /** Deciding one more bit. */
  lemma ExtendSimhash(digests: seq<nat>, index: nat, value: nat)
    requires IsSimhash(digests, index, value)
    ensures IsSimhash(digests, index + 1, if Majority(digests, index) then SetBit(value, index) else value)
  {
    HighBitsAreClear(value, index, index);
    assert Pow2(index + 1) == 2 * Pow2(index);
    forall i: nat | i <= index
      ensures Bit(value + Pow2(index), i) <==> (i == index || Bit(value, i))
    {
      AddHighBit(value, index, i);
    }
  }

  method ContentSimhash(tokens: seq<string>, bits: nat, digest: string -> nat) returns (value: nat, hex: string)
    ensures IsSimhash(Digests(tokens, digest), bits, value)
    ensures hex == Hex16(value)
  {
    var vector := new int[bits](_ => 0);
    ghost var seen: seq<nat> := [];
    for t := 0 to |tokens|
      invariant seen == Digests(tokens, digest)[..t]
      invariant Weighs(vector[..], seen)
    {
      AddDigest(vector, digest(tokens[t]), seen);
      seen := seen + [digest(tokens[t])];
    }
    ghost var all := Digests(tokens, digest);
    assert seen == all;
    value := 0;
    for index := 0 to bits
      invariant Weighs(vector[..], all)
      invariant IsSimhash(all, index, value)
    {
      assert vector[..][index] == vector[index];
      ExtendSimhash(all, index, value);
      if vector[index] >= 0 {
        value := SetBit(value, index);
      }
    }
    hex := Hex16(value);
  }

  lemma {:induction false} HavingConcat(a: seq<nat>, b: seq<nat>, i: nat)
    ensures Having(a + b, i) == Having(a, i) + Having(b, i)
  {
    if b == [] {
      assert a + b == a;
    } else {
      HavingConcat(a, b[..|b| - 1], i);
      assert (a + b)[..|a + b| - 1] == a + b[..|b| - 1];
    }
  }

  lemma RemoveOne(b: seq<nat>, j: nat, i: nat)
    requires j < |b|
    ensures Having(b, i) == Having(b[..j] + b[j + 1..], i) + Having([b[j]], i)
  {
    var x := [b[j]];
    assert b == b[..j] + (x + b[j + 1..]);
    HavingConcat(b[..j], x + b[j + 1..], i);
    HavingConcat(x, b[j + 1..], i);
    HavingConcat(b[..j], b[j + 1..], i);
  }

  lemma {:induction false} HavingPermutes(a: seq<nat>, b: seq<nat>, i: nat)
    requires Permutation(a, b)
    ensures Having(a, i) == Having(b, i)
    decreases |a|
  {
    PermutationLength(a, b);
    if a != [] {
      var j := HeadElsewhere(a, b);
      RemoveOne(a, 0, i);
      RemoveOne(b, j, i);
      assert a[..0] + a[1..] == a[1..];
      HavingPermutes(a[1..], b[..j] + b[j + 1..], i);
    }
  }

  lemma {:induction false} DigestByDigest(tokens: seq<string>, digest: string -> nat)
    ensures FlatMap(token => [digest(token)], tokens) == Digests(tokens, digest)
  {
    if tokens != [] {
      DigestByDigest(tokens[1..], digest);
      assert Digests(tokens, digest) == [digest(tokens[0])] + Digests(tokens[1..], digest);
    }
  }

  lemma DigestsPermute(a: seq<string>, b: seq<string>, digest: string -> nat)
    requires Permutation(a, b)
    ensures Permutation(Digests(a, digest), Digests(b, digest))
  {
    DigestByDigest(a, digest);
    DigestByDigest(b, digest);
    FlatMapPermutes(token => [digest(token)], a, b);
  }

  /** The simhash of a text does not depend on the order of its tokens: permuted tokens leave one
      number whose bits follow the majority. */
  lemma SimhashPermutes(a: seq<string>, b: seq<string>, digest: string -> nat, bits: nat, v: nat, w: nat)
    requires Permutation(a, b) && IsSimhash(Digests(a, digest), bits, v) && IsSimhash(Digests(b, digest), bits, w)
    ensures v == w
  {
    DigestsPermute(a, b, digest);
    MajorityPermutes(Digests(a, digest), Digests(b, digest), bits, v, w);
  }

  lemma MajorityPermutes(a: seq<nat>, b: seq<nat>, bits: nat, v: nat, w: nat)
    requires Permutation(a, b) && IsSimhash(a, bits, v) && IsSimhash(b, bits, w)
    ensures v == w
  {
    PermutationLength(a, b);
    forall i | 0 <= i < bits ensures Bit(v, i) <==> Bit(w, i) { HavingPermutes(a, b, i); }
    BitsDetermine(v, w, bits);
  }

  // ----- hexadecimal -------------------------------------------------------------------------

  function HexDigit(d: nat): char
    requires d < 16
  {
    if d < 10 then ('0' as int + d) as char else ('a' as int + (d - 10)) as char
  }

  function HexDigitValue(c: char): nat {
    if '0' <= c <= '9' then c as int - '0' as int
    else if 'a' <= c <= 'f' then c as int - 'a' as int + 10
    else 0
  }

  function Hex(v: nat): string {
    if v < 16 then [HexDigit(v)] else Hex(v / 16) + [HexDigit(v % 16)]
  }

  function Pad(s: string, width: nat): string
    decreases width - |s|
  {
    if |s| >= width then s else Pad("0" + s, width)
  }

  /** `f"{v:016x}"`. */
  function Hex16(v: nat): string { Pad(Hex(v), 16) }

  function HexValue(s: string): nat {
    if s == "" then 0 else HexValue(s[..|s| - 1]) * 16 + HexDigitValue(s[|s| - 1])
  }

  lemma {:induction false} HexRoundTrip(v: nat)
    ensures HexValue(Hex(v)) == v
  {
    if v >= 16 {
      HexRoundTrip(v / 16);
      assert Hex(v)[..|Hex(v)| - 1] == Hex(v / 16);
    } else {
      assert Hex(v)[..0] == "";
    }
  }

  lemma {:induction false} LeadingZero(s: string)
    ensures HexValue("0" + s) == HexValue(s)
  {
    if s != "" {
      assert ("0" + s)[..|s|] == "0" + s[..|s| - 1];
      LeadingZero(s[..|s| - 1]);
    } else {
      assert "0" + s == "0" && "0"[..0] == "";
    }
  }

  lemma {:induction false} PadKeepsValue(s: string, width: nat)
    ensures HexValue(Pad(s, width)) == HexValue(s) && |Pad(s, width)| == Max(|s|, width)
    decreases width - |s|
  {
    if |s| < width {
      LeadingZero(s);
      PadKeepsValue("0" + s, width);
    }
  }

  lemma {:induction false} HexLength(v: nat, n: nat)
    requires v < Pow2(4 * n) && n >= 1
    ensures |Hex(v)| <= n
    decreases n
  {
    assert Pow2(4 * n) == 2 * Pow2(4 * n - 1) && Pow2(4 * n - 1) == 2 * Pow2(4 * n - 2);
    assert Pow2(4 * n - 2) == 2 * Pow2(4 * n - 3) && Pow2(4 * n - 3) == 2 * Pow2(4 * n - 4);
    if v >= 16 {
      HexLength(v / 16, n - 1);
    }
  }

  /** The printed fingerprint decodes to the value, and has sixteen digits at 64 bits. */
  lemma PrintedSimhash(v: nat)
    ensures HexValue(Hex16(v)) == v
    ensures v < Pow2(64) ==> |Hex16(v)| == 16
  {
    HexRoundTrip(v);
    PadKeepsValue(Hex(v), 16);
    if v < Pow2(64) { HexLength(v, 16); }
  }

  // ----- minhash -----------------------------------------------------------------------------

  function Slice(tokens: seq<string>, from: nat, to: nat): seq<string>
    requires from <= to
  {
    if from >= |tokens| then [] else tokens[from..Min(to, |tokens|)]
  }

  function JoinWith(parts: seq<string>, separator: string): string {
    if parts == [] then ""
    else if |parts| == 1 then parts[0]
    else parts[0] + separator + JoinWith(parts[1..], separator)
  }

  /** One gram per window of `shingles` tokens; short texts make a single gram. */
  function Grams(tokens: seq<string>, shingles: nat): (r: seq<string>)
    ensures |r| == Max(1, |tokens| - shingles + 1)
  {
    seq(Max(1, |tokens| - shingles + 1), i requires 0 <= i < Max(1, |tokens| - shingles + 1) =>
      JoinWith(Slice(tokens, i, i + shingles), " "))
  }

  function Hashes(grams: seq<string>, hash: string -> string): seq<string> {
    seq(|grams|, i requires 0 <= i < |grams| => hash(grams[i]))
  }

  /** The `count` smallest hashes, in order. */
  function BottomK(hashes: seq<string>, count: nat): seq<string> { Take(Sort(hashes, StringLeq), count) }

  function ContentMinhash(tokens: seq<string>, shingles: nat, count: nat, hash: string -> string): string {
    JoinWith(BottomK(Hashes(Grams(tokens, shingles), hash), count), ":")
  }

  /** Which tokens a gram joins: a window of `shingles` tokens, or all of a shorter text. */
  lemma GramTokens(tokens: seq<string>, shingles: nat, i: nat)
    requires i < |Grams(tokens, shingles)|
    ensures |tokens| >= shingles ==>
              i + shingles <= |tokens| && Grams(tokens, shingles)[i] == JoinWith(tokens[i..i + shingles], " ")
    ensures |tokens| < shingles ==> i == 0 && Grams(tokens, shingles) == [JoinWith(tokens, " ")]
  {
    if |tokens| >= shingles {
      assert Slice(tokens, i, i + shingles) == tokens[i..i + shingles];
    } else {
      assert Slice(tokens, 0, shingles) == tokens;
      assert Grams(tokens, shingles)[0] == JoinWith(Slice(tokens, 0, 0 + shingles), " ");
    }
  }

  function OneHash(hash: string -> string): string -> seq<string> { (gram: string) => [hash(gram)] }

  lemma {:induction false} HashesAreFlatMap(grams: seq<string>, hash: string -> string)
    ensures Hashes(grams, hash) == FlatMap(OneHash(hash), grams)
  {
    if grams != [] {
      HashesAreFlatMap(grams[1..], hash);
      assert Hashes(grams, hash) == [hash(grams[0])] + Hashes(grams[1..], hash);
    }
  }

  /** Two texts with the same grams, in whatever order, have the same minhash. */
  lemma MinhashIgnoresGramOrder(
    a: seq<string>, b: seq<string>, shingles: nat, count: nat, hash: string -> string)
    requires Permutation(Grams(a, shingles), Grams(b, shingles))
    ensures ContentMinhash(a, shingles, count, hash) == ContentMinhash(b, shingles, count, hash)
  {
    HashesAreFlatMap(Grams(a, shingles), hash);
    HashesAreFlatMap(Grams(b, shingles), hash);
    FlatMapPermutes(OneHash(hash), Grams(a, shingles), Grams(b, shingles));
    BottomKPermutes(Hashes(Grams(a, shingles), hash), Hashes(Grams(b, shingles), hash), count);
  }

  lemma TakeCons<T(!new)>(x: T, s: seq<T>, k: nat)
    requires k > 0
    ensures Take([x] + s, k) == [x] + Take(s, k - 1)
  {}

  lemma TakeTake<T(!new)>(s: seq<T>, j: nat, k: nat)
    requires j <= k
    ensures Take(Take(s, k), j) == Take(s, j)
  {}

  lemma {:induction false} InsertTake<T(!new)>(x: T, s: seq<T>, k: nat, leq: (T, T) -> bool)
    ensures Take(Insert(x, s, leq), k) == Take(Insert(x, Take(s, k), leq), k)
    decreases |s|
  {
    if s != [] && k > 0 {
      assert s == [s[0]] + s[1..];
      TakeCons(s[0], s[1..], k);
      if leq(x, s[0]) {
        TakeCons(x, s, k);
        TakeCons(x, Take(s, k), k);
        TakeTake(s, k - 1, k);
      } else {
        InsertTake(x, s[1..], k - 1, leq);
        TakeCons(s[0], Insert(x, s[1..], leq), k);
        TakeCons(s[0], Insert(x, Take(s[1..], k - 1), leq), k);
      }
    }
  }

  /** Sorting `a + b` only needs the first `k` of sorted `b`, as far as the first `k` go. */
  lemma {:induction false} SortTake<T(!new)>(a: seq<T>, b: seq<T>, k: nat, leq: (T, T) -> bool)
    requires TotalPreorder(leq)
    ensures Take(Sort(a + b, leq), k) == Take(Sort(a + Take(Sort(b, leq), k), leq), k)
  {
    var b' := Take(Sort(b, leq), k);
    if a == [] {
      SortCorrect(b, leq);
      SortOfSorted(b', leq);
      assert a + b == b && a + b' == b';
    } else {
      SortTake(a[1..], b, k, leq);
      assert (a + b)[1..] == a[1..] + b && (a + b')[1..] == a[1..] + b';
      InsertTake(a[0], Sort(a[1..] + b, leq), k, leq);
      InsertTake(a[0], Sort(a[1..] + b', leq), k, leq);
    }
  }

  lemma StringsAreStrict(s: seq<string>)
    ensures StrictOn(s, StringLeq) && TotalPreorder(StringLeq)
  {
    StringOrder();
  }

  lemma BottomKPermutes(a: seq<string>, b: seq<string>, k: nat)
    requires Permutation(a, b)
    ensures BottomK(a, k) == BottomK(b, k)
  {
    StringsAreStrict(a);
    SortPermutationInvariant(a, b, StringLeq);
  }

  /** Sketches merge: the bottom k of two lists together is the bottom k of their bottom k. */
  lemma SketchesMerge(a: seq<string>, b: seq<string>, k: nat)
    ensures BottomK(a + b, k) == BottomK(BottomK(a, k) + BottomK(b, k), k)
  {
    var a', b' := BottomK(a, k), BottomK(b, k);
    StringsAreStrict(a);
    SortTake(a, b, k, StringLeq);
    assert multiset(a + b') == multiset(b' + a) && multiset(b' + a') == multiset(a' + b');
    BottomKPermutes(a + b', b' + a, k);
    SortTake(b', a, k, StringLeq);
    BottomKPermutes(b' + a', a' + b', k);
  }

  /** A sketch holds the smallest hashes: nothing left out is below anything kept, and what is kept
      and left out together is what there was. */
  lemma SketchIsSmallest(hashes: seq<string>, k: nat) returns (rest: seq<string>)
    ensures Permutation(BottomK(hashes, k) + rest, hashes) && |BottomK(hashes, k)| == Min(k, |hashes|)
    ensures forall x, y :: x in BottomK(hashes, k) && y in rest ==> StringLeq(x, y)
    ensures SortedBy(BottomK(hashes, k), StringLeq)
  {
    StringsAreStrict(hashes);
    SortCorrect(hashes, StringLeq);
    var sorted := Sort(hashes, StringLeq);
    var n := Min(k, |sorted|);
    rest := sorted[n..];
    assert BottomK(hashes, k) == sorted[..n];
    CutSorted(sorted, n, StringLeq);
  }
}
