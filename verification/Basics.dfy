/** Shared helpers: optional values, insertion-ordered dictionaries and decimal numerals. */
module Basics {

  datatype Option<+T> = None | Some(value: T)

  function Max(a: int, b: int): int { if a >= b then a else b }
  function Min(a: int, b: int): int { if a <= b then a else b }

  lemma Reassociate<T>(a: seq<T>, b: seq<T>, c: seq<T>)
    ensures (a + b) + c == a + (b + c)
  {}

  ghost predicate Distinct<T(!new)>(s: seq<T>) { forall i, j :: 0 <= i < j < |s| ==> s[i] != s[j] }

  lemma {:induction false} DistinctFit<T(!new)>(s: seq<T>, all: set<T>)
    requires Distinct(s) && forall i :: 0 <= i < |s| ==> s[i] in all
    ensures |s| <= |all|
  {
    if s != [] {
      var last := s[|s| - 1];
      assert last in all;
      DistinctFit(s[..|s| - 1], all - {last});
    }
  }

  /** A Python `dict`: entries keep the order in which their keys first came in. */
  datatype Dict<K(==,!new), V> = Dict(order: seq<K>, entries: map<K, V>) {

    ghost predicate Valid() {
      && (forall i, j :: 0 <= i < j < |order| ==> order[i] != order[j])
      && (forall k :: k in order <==> k in entries)
    }

    function Get(k: K): Option<V> {
      if k in entries then Some(entries[k]) else None
    }

    /** `d[k] = v`: a new key goes last, an old key keeps its place. */
    function Put(k: K, v: V): Dict<K, V> {
      Dict(if k in entries then order else order + [k], entries[k := v])
    }

    /** `list(d.values())`. */
    function Values(): (r: seq<V>)
      requires Valid()
      ensures |r| == |order| && forall i :: 0 <= i < |r| ==> r[i] == entries[order[i]]
    {
      seq(|order|, i requires 0 <= i < |order| => entries[order[i]])
    }

    /** `d.update(other)`. */
    function Update(other: Dict<K, V>): Dict<K, V>
      requires other.Valid()
      decreases |other.order|
    {
      PutAll(other, other.order)
    }

    function PutAll(other: Dict<K, V>, keys: seq<K>): Dict<K, V>
      requires forall k :: k in keys ==> k in other.entries
    {
      if keys == [] then this
      else
        var last := keys[|keys| - 1];
        PutAll(other, keys[..|keys| - 1]).Put(last, other.entries[last])
    }

    lemma PutValid(k: K, v: V)
      requires Valid()
      ensures Put(k, v).Valid()
    {
      if k !in entries {
        assert k !in order;
      }
    }

    lemma {:induction false} PutAllCorrect(other: Dict<K, V>, keys: seq<K>)
      requires Valid() && forall k :: k in keys ==> k in other.entries
      ensures PutAll(other, keys).Valid()
      ensures PutAll(other, keys).entries.Keys == entries.Keys + (set k | k in keys)
      ensures forall k :: k in keys ==> PutAll(other, keys).entries[k] == other.entries[k]
      ensures forall k :: k in entries && k !in keys ==> PutAll(other, keys).entries[k] == entries[k]
    {
      if keys != [] {
        var front, last := keys[..|keys| - 1], keys[|keys| - 1];
        PutAllCorrect(other, front);
        PutAll(other, front).PutValid(last, other.entries[last]);
        assert forall k :: k in keys <==> k in front || k == last;
      }
    }

    lemma UpdateCorrect(other: Dict<K, V>)
      requires Valid() && other.Valid()
      ensures Update(other).Valid()
      ensures forall k :: k in Update(other).entries <==> k in entries || k in other.entries
      ensures forall k :: k in other.entries ==> Update(other).entries[k] == other.entries[k]
      ensures forall k :: k in entries && k !in other.entries ==> Update(other).entries[k] == entries[k]
    {
      PutAllCorrect(other, other.order);
    }
  }

  function EmptyDict<K(==,!new), V>(): Dict<K, V> { Dict([], map[]) }

  /** Decimal text of a natural number, Python's `str(n)`. */
  function Dec(n: nat): (s: string)
    ensures s != "" && forall i :: 0 <= i < |s| ==> '0' <= s[i] <= '9'
  {
    if n < 10 then [('0' as int + n) as char] else Dec(n / 10) + [('0' as int + n % 10) as char]
  }

  /** Value of a string of decimal digits, Python's `int(s)`. */
  function DecValue(s: string): nat
    requires forall i :: 0 <= i < |s| ==> '0' <= s[i] <= '9'
  {
    if s == "" then 0 else DecValue(s[..|s| - 1]) * 10 + (s[|s| - 1] as int - '0' as int)
  }

  lemma {:induction false} DecRoundTrip(n: nat)
    ensures DecValue(Dec(n)) == n
  {
    if n >= 10 {
      DecRoundTrip(n / 10);
      assert Dec(n)[..|Dec(n)| - 1] == Dec(n / 10);
    } else {
      assert Dec(n)[..0] == "";
    }
  }

  lemma DecInjective(m: nat, n: nat)
    requires Dec(m) == Dec(n)
    ensures m == n
  {
    DecRoundTrip(m);
    DecRoundTrip(n);
  }
}
