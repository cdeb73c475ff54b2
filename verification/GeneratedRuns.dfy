/** The shape shared by the fixture generators: for each kind in a fixed order, as many items as asked. */
module GeneratedRuns {
  import opened Basics

  function Repeat<K>(k: K, n: nat): seq<K> { seq(n, _ => k) }

  /** The kinds in the order in which the nested loops emit them. */
  function Runs<K>(asked: K -> nat, order: seq<K>): seq<K> {
    if order == [] then []
    else
      var last := order[|order| - 1];
      Runs(asked, order[..|order| - 1]) + Repeat(last, asked(last))
  }

  lemma {:induction false} RepeatMultiplicity<K(!new)>(k: K, n: nat)
    ensures multiset(Repeat(k, n)) == multiset{}[k := n]
  {
    if n > 0 {
      RepeatMultiplicity(k, n - 1);
      assert Repeat(k, n) == Repeat(k, n - 1) + [k];
    }
  }

  lemma {:induction false} RunsMultiplicity<K(!new)>(asked: K -> nat, order: seq<K>, k: K)
    requires Distinct(order)
    ensures multiset(Runs(asked, order))[k] == if k in order then asked(k) else 0
  {
    if order != [] {
      var front, last := order[..|order| - 1], order[|order| - 1];
      RunsMultiplicity(asked, front, k);
      RepeatMultiplicity(last, asked(last));
      assert order == front + [last];
    }
  }

  lemma {:induction false} RunsConcat<K(!new)>(asked: K -> nat, a: seq<K>, b: seq<K>)
    ensures Runs(asked, a + b) == Runs(asked, a) + Runs(asked, b)
  {
    if b == [] {
      assert a + b == a;
    } else {
      RunsConcat(asked, a, b[..|b| - 1]);
      assert (a + b)[..|a + b| - 1] == a + b[..|b| - 1];
    }
  }

  lemma RunsOne<K(!new)>(asked: K -> nat, k: K)
    ensures Runs(asked, [k]) == Repeat(k, asked(k))
  {
    assert Runs(asked, [k][..0]) == [];
  }
}
