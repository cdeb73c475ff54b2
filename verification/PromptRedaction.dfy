/** The prompt-redaction boundary: a depth-capped walk over a possibly cyclic object graph with one
    shared `seen` set, and the render step that relies on it. */
module PromptRedaction {
  import opened Basics

  type Id = nat

  /** A heap object as the walk sees it. Slots whose access raises are absent. */
  datatype Node =
    | Credential
    | Primitive
    | Mapping(entries: seq<(Id, Id)>)
    | Items(items: seq<Id>)
    | Instance(attributes: Option<seq<Id>>, slots: seq<Option<Id>>)

  type Heap = map<Id, Node>

  const MAX_CONTEXT_DEPTH := 12

  // ----- the edges of the walk ---------------------------------------------------------------

  function EntryChildren(entries: seq<(Id, Id)>): seq<Id> {
    if entries == [] then [] else [entries[0].0, entries[0].1] + EntryChildren(entries[1..])
  }

  function SlotChildren(slots: seq<Option<Id>>): seq<Id> {
    if slots == [] then []
    else (if slots[0].Some? then [slots[0].value] else []) + SlotChildren(slots[1..])
  }

  /** What the walk descends into, in its order: keys before values, attributes before slots. */
  function Children(node: Node): seq<Id> {
    match node
    case Mapping(entries) => EntryChildren(entries)
    case Items(items) => items
    case Instance(attributes, slots) =>
      (if attributes.Some? then attributes.value else []) + SlotChildren(slots)
    case _ => []
  }

  ghost predicate Closed(heap: Heap) {
    forall n, c :: n in heap && c in Children(heap[n]) ==> c in heap
  }

  // ----- the walk as a function --------------------------------------------------------------

  /** Whether the walk trips at `v`, and the objects expanded so far in order of expansion. */
  function Scan(heap: Heap, v: Id, depth: nat, seen: seq<Id>): (bool, seq<Id>)
    requires Closed(heap) && v in heap
    decreases MAX_CONTEXT_DEPTH - depth, 0, 0
  {
    if depth >= MAX_CONTEXT_DEPTH then (true, seen)
    else if heap[v].Credential? then (true, seen)
    else if v in seen then (false, seen)
    else if heap[v].Primitive? then (false, seen)
    else ScanAll(heap, Children(heap[v]), depth + 1, seen + [v])
  }

  function ScanAll(heap: Heap, vs: seq<Id>, depth: nat, seen: seq<Id>): (bool, seq<Id>)
    requires Closed(heap) && forall v :: v in vs ==> v in heap
    decreases MAX_CONTEXT_DEPTH - depth, 1, |vs|
  {
    if vs == [] then (false, seen)
    else
      var (hit, seen') := Scan(heap, vs[0], depth, seen);
      if hit then (true, seen') else ScanAll(heap, vs[1..], depth, seen')
  }

  // ----- the walk as the program runs it -----------------------------------------------------

  class ContextWalk {
    const heap: Heap
    var seen: set<Id>
    ghost var expanded: seq<Id>

    ghost predicate Valid() reads this {
      Closed(heap) && seen == (set n | n in expanded)
    }

    constructor (heap: Heap)
      requires Closed(heap)
      ensures Valid() && this.heap == heap && expanded == []
    {
      this.heap, seen, expanded := heap, {}, [];
    }

    method Contains(v: Id, depth: nat) returns (hit: bool)
      requires Valid() && v in heap
      modifies this
      ensures Valid() && (hit, expanded) == Scan(heap, v, depth, old(expanded))
      decreases MAX_CONTEXT_DEPTH - depth, 0, 0
    {
      if depth >= MAX_CONTEXT_DEPTH { return true; }
      var node := heap[v];
      if node.Credential? { return true; }
      if v in seen { return false; }
      if node.Primitive? { return false; }
      seen, expanded := seen + {v}, expanded + [v];
      match node
      case Mapping(entries) => hit := EntriesContain(entries, depth + 1);
      case Items(items) => hit := AnyContains(items, depth + 1);
      case Instance(attributes, slots) =>
        ghost var start := expanded;
        ScanAllSplits(heap, if attributes.Some? then attributes.value else [], SlotChildren(slots), depth + 1, start);
        if attributes.Some? {
          hit := AnyContains(attributes.value, depth + 1);
          if hit { return true; }
        }
        hit := SlotsContain(slots, depth + 1);
    }

    method AnyContains(items: seq<Id>, depth: nat) returns (hit: bool)
      requires Valid() && forall v :: v in items ==> v in heap
      modifies this
      ensures Valid() && (hit, expanded) == ScanAll(heap, items, depth, old(expanded))
      decreases MAX_CONTEXT_DEPTH - depth, 1, |items|
    {
      for i := 0 to |items|
        invariant Valid()
        invariant ScanAll(heap, items[i..], depth, expanded) == ScanAll(heap, items, depth, old(expanded))
      {
        hit := Contains(items[i], depth);
        if hit { return true; }
      }
      return false;
    }

    method EntriesContain(entries: seq<(Id, Id)>, depth: nat) returns (hit: bool)
      requires Valid() && forall v :: v in EntryChildren(entries) ==> v in heap
      modifies this
      ensures Valid() && (hit, expanded) == ScanAll(heap, EntryChildren(entries), depth, old(expanded))
      decreases MAX_CONTEXT_DEPTH - depth, 1, |entries|
    {
      for i := 0 to |entries|
        invariant Valid()
        invariant forall v :: v in EntryChildren(entries[i..]) ==> v in heap
        invariant ScanAll(heap, EntryChildren(entries[i..]), depth, expanded)
               == ScanAll(heap, EntryChildren(entries), depth, old(expanded))
      {
        EntriesUnfold(entries[i..]);
        hit := Contains(entries[i].0, depth);
        if hit { return true; }
        hit := Contains(entries[i].1, depth);
        if hit { return true; }
        assert entries[i..][1..] == entries[i + 1..];
      }
      return false;
    }

    method SlotsContain(slots: seq<Option<Id>>, depth: nat) returns (hit: bool)
      requires Valid() && forall v :: v in SlotChildren(slots) ==> v in heap
      modifies this
      ensures Valid() && (hit, expanded) == ScanAll(heap, SlotChildren(slots), depth, old(expanded))
      decreases MAX_CONTEXT_DEPTH - depth, 1, |slots|
    {
      for i := 0 to |slots|
        invariant Valid()
        invariant forall v :: v in SlotChildren(slots[i..]) ==> v in heap
        invariant ScanAll(heap, SlotChildren(slots[i..]), depth, expanded)
               == ScanAll(heap, SlotChildren(slots), depth, old(expanded))
      {
        assert slots[i..][1..] == slots[i + 1..];
        SlotsUnfold(slots[i..]);
        if slots[i].None? { continue; }
        hit := Contains(slots[i].value, depth);
        if hit { return true; }
      }
      return false;
    }
  }

  lemma EntriesUnfold(entries: seq<(Id, Id)>)
    requires entries != []
    ensures var cs := EntryChildren(entries);
            |cs| >= 2 && cs[0] == entries[0].0 && cs[1..][0] == entries[0].1
            && cs[1..][1..] == EntryChildren(entries[1..])
            && entries[0].0 in cs && entries[0].1 in cs
            && forall v :: v in EntryChildren(entries[1..]) ==> v in cs
  {
    var cs := EntryChildren(entries);
    assert cs[1] == entries[0].1;
    assert cs[2..] == EntryChildren(entries[1..]);
  }

  lemma SlotsUnfold(slots: seq<Option<Id>>)
    requires slots != []
    ensures var cs := SlotChildren(slots);
            (if slots[0].Some? then cs == [slots[0].value] + SlotChildren(slots[1..])
             else cs == SlotChildren(slots[1..]))
            && forall v :: v in SlotChildren(slots[1..]) ==> v in cs
  {}

  lemma {:induction false} ScanAllSplits(heap: Heap, a: seq<Id>, b: seq<Id>, depth: nat, seen: seq<Id>)
    requires Closed(heap) && forall v :: v in a + b ==> v in heap
    ensures forall v :: v in a ==> v in heap
    ensures forall v :: v in b ==> v in heap
    ensures ScanAll(heap, a + b, depth, seen)
         == (var (hit, seen') := ScanAll(heap, a, depth, seen);
             if hit then (true, seen') else ScanAll(heap, b, depth, seen'))
    decreases a
  {
    if a == [] {
      assert a + b == b;
    } else {
      assert a[0] in a + b;
      assert (a + b)[1..] == a[1..] + b;
      var (hit, seen') := Scan(heap, a[0], depth, seen);
      ScanAllSplits(heap, a[1..], b, depth, seen');
    }
  }

  // ----- what the answer means ---------------------------------------------------------------

  ghost predicate IsWalk(heap: Heap, path: seq<Id>) {
    && path != [] && path[0] in heap
    && forall i :: 0 <= i < |path| - 1 ==> path[i] in heap && path[i + 1] in Children(heap[path[i]])
  }

  /** A credential can be reached from `v` by walked edges, at any depth. */
  ghost predicate ReachesCredential(heap: Heap, v: Id)
    requires Closed(heap)
  {
    exists path :: IsWalk(heap, path) && path[0] == v && EndsInCredential(heap, path)
  }

  ghost predicate EndsInCredential(heap: Heap, path: seq<Id>) {
    path != [] && path[|path| - 1] in heap && heap[path[|path| - 1]].Credential?
  }

  /** `v` needs no more looking at once `seen` has been expanded. */
  ghost predicate Settled(heap: Heap, v: Id, seen: seq<Id>) {
    v in heap && !heap[v].Credential? && (v in seen || heap[v].Primitive?)
  }

  /** Everything expanded since `before` has only settled children. */
  ghost predicate Complete(heap: Heap, before: seq<Id>, after: seq<Id>) {
    && before <= after
    && forall n :: n in after && n !in before ==>
         n in heap && forall c :: c in Children(heap[n]) ==> Settled(heap, c, after)
  }

  /** A scan that does not trip leaves `v` settled and every object it expanded complete, although
      it prunes objects whose own expansion is still in progress. */
  lemma {:induction false} ScanCompletes(heap: Heap, v: Id, depth: nat, seen: seq<Id>)
    requires Closed(heap) && v in heap && !Scan(heap, v, depth, seen).0
    ensures Complete(heap, seen, Scan(heap, v, depth, seen).1)
    ensures Settled(heap, v, Scan(heap, v, depth, seen).1)
    decreases MAX_CONTEXT_DEPTH - depth, 0, 0
  {
    if v !in seen && !heap[v].Primitive? {
      var cs := Children(heap[v]);
      ScanAllCompletes(heap, cs, depth + 1, seen + [v]);
      var after := ScanAll(heap, cs, depth + 1, seen + [v]).1;
      assert (seen + [v])[|seen|] == v;
      assert v in after;
      assert seen <= after;
    }
  }

  lemma {:induction false} ScanAllCompletes(heap: Heap, vs: seq<Id>, depth: nat, seen: seq<Id>)
    requires Closed(heap) && (forall v :: v in vs ==> v in heap) && !ScanAll(heap, vs, depth, seen).0
    ensures Complete(heap, seen, ScanAll(heap, vs, depth, seen).1)
    ensures forall v :: v in vs ==> Settled(heap, v, ScanAll(heap, vs, depth, seen).1)
    decreases MAX_CONTEXT_DEPTH - depth, 1, |vs|
  {
    if vs != [] {
      var mid := Scan(heap, vs[0], depth, seen).1;
      ScanCompletes(heap, vs[0], depth, seen);
      ScanAllCompletes(heap, vs[1..], depth, mid);
      var after := ScanAll(heap, vs[1..], depth, mid).1;
      assert forall n :: n in mid ==> n in after;
      assert forall v :: v in vs ==> v == vs[0] || v in vs[1..];
    }
  }

  lemma {:induction false} SettledAlong(heap: Heap, path: seq<Id>, seen: seq<Id>, i: nat)
    requires Closed(heap) && IsWalk(heap, path) && i < |path|
    requires Complete(heap, [], seen) && Settled(heap, path[0], seen)
    ensures Settled(heap, path[i], seen)
  {
    if i > 0 {
      SettledAlong(heap, path, seen, i - 1);
      assert path[i] in Children(heap[path[i - 1]]);
    }
  }

  /** A top-level `False` means no credential is reachable at any depth, on any graph. */
  lemma FalseIsSafe(heap: Heap, v: Id)
    requires Closed(heap) && v in heap && !Scan(heap, v, 0, []).0
    ensures !ReachesCredential(heap, v)
  {
    ScanCompletes(heap, v, 0, []);
    var seen := Scan(heap, v, 0, []).1;
    forall path | IsWalk(heap, path) && path[0] == v ensures !EndsInCredential(heap, path) {
      SettledAlong(heap, path, seen, |path| - 1);
    }
  }

  /** The objects a walk leaves behind were expanded on the way: they are new and do not repeat. */
  ghost predicate Fresh(path: seq<Id>, seen: seq<Id>) {
    path != [] && Distinct(path[..|path| - 1]) && forall i :: 0 <= i < |path| - 1 ==> path[i] !in seen
  }

  /** Why a scan tripped: a walk from `v` to a credential, or one that uses up the depth cap. */
  ghost predicate Explains(heap: Heap, v: Id, depth: nat, seen: seq<Id>, path: seq<Id>) {
    IsWalk(heap, path) && path[0] == v && Fresh(path, seen)
    && (EndsInCredential(heap, path) || depth + |path| - 1 >= MAX_CONTEXT_DEPTH)
  }

  lemma ExplainsFromParent(heap: Heap, v: Id, depth: nat, seen: seq<Id>, child: Id, rest: seq<Id>)
    requires v in heap && v !in seen && child in Children(heap[v])
    requires Explains(heap, child, depth + 1, seen + [v], rest)
    ensures Explains(heap, v, depth, seen, [v] + rest)
  {
    var path := [v] + rest;
    assert path[1] == child;
    assert forall i :: 1 <= i < |path| ==> path[i] == rest[i - 1];
    assert path[..|path| - 1] == [v] + rest[..|rest| - 1];
  }

  lemma {:induction false} TripIsExplained(heap: Heap, v: Id, depth: nat, seen: seq<Id>) returns (path: seq<Id>)
    requires Closed(heap) && v in heap && Scan(heap, v, depth, seen).0
    ensures Explains(heap, v, depth, seen, path)
    ensures depth <= MAX_CONTEXT_DEPTH ==> depth + |path| - 1 <= MAX_CONTEXT_DEPTH
    decreases MAX_CONTEXT_DEPTH - depth, 0, 0
  {
    path := [v];
    if depth < MAX_CONTEXT_DEPTH && !heap[v].Credential? {
      var child, rest := TripAmong(heap, Children(heap[v]), depth + 1, seen + [v]);
      ExplainsFromParent(heap, v, depth, seen, child, rest);
      path := [v] + rest;
    }
  }

  lemma {:induction false} TripAmong(heap: Heap, vs: seq<Id>, depth: nat, seen: seq<Id>)
    returns (child: Id, path: seq<Id>)
    requires Closed(heap) && (forall v :: v in vs ==> v in heap) && ScanAll(heap, vs, depth, seen).0
    ensures child in vs && Explains(heap, child, depth, seen, path)
    ensures depth <= MAX_CONTEXT_DEPTH ==> depth + |path| - 1 <= MAX_CONTEXT_DEPTH
    decreases MAX_CONTEXT_DEPTH - depth, 1, |vs|
  {
    var (hit, seen') := Scan(heap, vs[0], depth, seen);
    if hit {
      child := vs[0];
      path := TripIsExplained(heap, vs[0], depth, seen);
    } else {
      ScanCompletes(heap, vs[0], depth, seen);
      child, path := TripAmong(heap, vs[1..], depth, seen');
      assert forall n :: n in seen ==> n in seen';
    }
  }

  /** Some walk of exactly twelve edges starts at `v` and expands twelve different objects. */
  ghost predicate DeepFrom(heap: Heap, v: Id) {
    exists path :: DeepWalk(heap, path) && path[0] == v
  }

  ghost predicate DeepWalk(heap: Heap, path: seq<Id>) {
    IsWalk(heap, path) && |path| == MAX_CONTEXT_DEPTH + 1 && Distinct(path[..MAX_CONTEXT_DEPTH])
  }

  /** A top-level `True` means a credential is reachable, or a walk of twelve edges through twelve
      different objects starts here; where there is no such walk, the answer is exact. */
  lemma TrueIsExplained(heap: Heap, v: Id)
    requires Closed(heap) && v in heap
    ensures Scan(heap, v, 0, []).0 ==> ReachesCredential(heap, v) || DeepFrom(heap, v)
    ensures !DeepFrom(heap, v) ==> (Scan(heap, v, 0, []).0 <==> ReachesCredential(heap, v))
  {
    if Scan(heap, v, 0, []).0 {
      var path := TripIsExplained(heap, v, 0, []);
      assert IsWalk(heap, path) && path[0] == v;
      if !EndsInCredential(heap, path) { assert DeepWalk(heap, path); }
    } else {
      FalseIsSafe(heap, v);
    }
  }

  /** The objects the walk can expand. */
  function Expandable(heap: Heap): set<Id> {
    set n | n in heap && !heap[n].Credential? && !heap[n].Primitive?
  }

  /** Any graph with fewer than twelve lists, mappings and instances is answered exactly, however its
      edges run: the cap only ever shows on graphs with at least twelve objects to expand. */
  lemma SmallGraphsAreExact(heap: Heap, v: Id)
    requires Closed(heap) && v in heap && |Expandable(heap)| < MAX_CONTEXT_DEPTH
    ensures Scan(heap, v, 0, []).0 <==> ReachesCredential(heap, v)
  {
    TrueIsExplained(heap, v);
    if path :| DeepWalk(heap, path) && path[0] == v {
      forall i | 0 <= i < MAX_CONTEXT_DEPTH ensures path[i] in Expandable(heap) {
        assert path[i + 1] in Children(heap[path[i]]);
      }
      DistinctFit(path[..MAX_CONTEXT_DEPTH], Expandable(heap));
    }
  }

  /** A list that contains itself is a walk without end, and is passed. */
  lemma SelfContainingListIsSafe(heap: Heap)
    requires heap == map[0 := Items([0])]
    ensures Closed(heap) && !Scan(heap, 0, 0, []).0 && !ReachesCredential(heap, 0)
  {
    assert Closed(heap);
    assert Expandable(heap) == {0};
    SmallGraphsAreExact(heap, 0);
    forall path | IsWalk(heap, path) && path[0] == 0 ensures !EndsInCredential(heap, path) {}
  }

  /** No object is expanded twice in one top-level call, and primitives and credentials never are. */
  lemma {:induction false} ExpandedOnce(heap: Heap, v: Id, depth: nat, seen: seq<Id>)
    requires Closed(heap) && v in heap && Distinct(seen)
    ensures Distinct(Scan(heap, v, depth, seen).1) && seen <= Scan(heap, v, depth, seen).1
    ensures forall n :: n in Scan(heap, v, depth, seen).1 && n !in seen ==>
      n in heap && !heap[n].Credential? && !heap[n].Primitive?
    decreases MAX_CONTEXT_DEPTH - depth, 0, 0
  {
    if depth < MAX_CONTEXT_DEPTH && !heap[v].Credential? && v !in seen && !heap[v].Primitive? {
      ExpandedOnceAll(heap, Children(heap[v]), depth + 1, seen + [v]);
    }
  }

  lemma {:induction false} ExpandedOnceAll(heap: Heap, vs: seq<Id>, depth: nat, seen: seq<Id>)
    requires Closed(heap) && (forall v :: v in vs ==> v in heap) && Distinct(seen)
    ensures Distinct(ScanAll(heap, vs, depth, seen).1) && seen <= ScanAll(heap, vs, depth, seen).1
    ensures forall n :: n in ScanAll(heap, vs, depth, seen).1 && n !in seen ==>
      n in heap && !heap[n].Credential? && !heap[n].Primitive?
    decreases MAX_CONTEXT_DEPTH - depth, 1, |vs|
  {
    if vs != [] {
      ExpandedOnce(heap, vs[0], depth, seen);
      var (hit, mid) := Scan(heap, vs[0], depth, seen);
      if !hit { ExpandedOnceAll(heap, vs[1..], depth, mid); }
    }
  }

  // ----- the cap is not exact ----------------------------------------------------------------

  /** Twelve one-element lists, each holding the next, around a primitive. */
  function Chain(): Heap {
    map i: nat | 0 <= i <= 12 :: ChainNode(i)
  }

  function ChainNode(i: nat): Node { if i < 12 then Items([i + 1]) else Primitive }

  lemma {:induction false} ChainTrips(i: nat, seen: seq<Id>)
    requires i <= 12 && forall n :: n in seen ==> n < i
    ensures Closed(Chain()) && Scan(Chain(), i, i, seen).0
    decreases 12 - i
  {
    if i < 12 {
      ChainTrips(i + 1, seen + [i]);
      assert Children(Chain()[i]) == [i + 1];
    }
  }

  lemma {:induction false} ChainMembers(path: seq<Id>, k: nat)
    requires IsWalk(Chain(), path) && k < |path|
    ensures path[k] in Chain()
  {
    if k > 0 {
      ChainMembers(path, k - 1);
      assert path[k] in Children(Chain()[path[k - 1]]);
    }
  }

  /** A credential-free context can be refused: twelve nested lists already use up the cap. */
  lemma DeepContextIsRefused()
    ensures Closed(Chain()) && Scan(Chain(), 0, 0, []).0 && !ReachesCredential(Chain(), 0)
  {
    ChainTrips(0, []);
    forall path | IsWalk(Chain(), path) ensures !EndsInCredential(Chain(), path) {
      ChainMembers(path, |path| - 1);
    }
  }

  // ----- when it is: no object is held twice ---------------------------------------------------

  /** No list, mapping or instance is held in two places; cycles are allowed. */
  ghost predicate Unshared(heap: Heap) {
    forall n, m, i: nat, j: nat ::
      n in heap && m in heap && HoldsAt(heap[n], i, heap[m], j) && Children(heap[n])[i] in Expandable(heap) ==>
        n == m && i == j
  }

  /** The two places hold the same object. */
  ghost predicate HoldsAt(n: Node, i: nat, m: Node, j: nat) {
    i < |Children(n)| && j < |Children(m)| && Children(n)[i] == Children(m)[j]
  }

  /** `n` is held by an object expanded between `before` and `after`. */
  ghost predicate HeldByNew(heap: Heap, n: Id, before: seq<Id>, after: seq<Id>) {
    exists m :: m in after && m !in before && m in heap && n in Children(heap[m])
  }

  /** Whatever was expanded since `before` is one of `vs` or held by another such object. */
  ghost predicate GrownFrom(heap: Heap, vs: seq<Id>, before: seq<Id>, after: seq<Id>) {
    forall n :: n in after && n !in before ==> n in vs || HeldByNew(heap, n, before, after)
  }

  lemma GrownThroughParent(heap: Heap, v: Id, before: seq<Id>, after: seq<Id>)
    requires v in heap && v !in before && v in after && GrownFrom(heap, Children(heap[v]), before + [v], after)
    ensures GrownFrom(heap, [v], before, after)
  {
    forall n | n in after && n !in before ensures n in [v] || HeldByNew(heap, n, before, after) {
      if n != v && n !in Children(heap[v]) {
        assert n !in before + [v];
        var m :| m in after && m !in before + [v] && m in heap && n in Children(heap[m]);
        assert m !in before;
      }
    }
  }

  lemma GrownInTurn(heap: Heap, v: Id, rest: seq<Id>, before: seq<Id>, mid: seq<Id>, after: seq<Id>)
    requires before <= mid <= after && GrownFrom(heap, [v], before, mid) && GrownFrom(heap, rest, mid, after)
    ensures GrownFrom(heap, [v] + rest, before, after)
  {
    forall n | n in after && n !in before ensures n in [v] + rest || HeldByNew(heap, n, before, after) {
      assert forall x :: x in before ==> x in mid;
      assert forall x :: x in mid ==> x in after;
      if n in mid && n != v {
        var m :| m in mid && m !in before && m in heap && n in Children(heap[m]);
        assert m in after;
      } else if n !in mid && n !in rest {
        var m :| m in after && m !in mid && m in heap && n in Children(heap[m]);
        assert m !in before;
      }
    }
  }

  lemma {:induction false} ScanGrows(heap: Heap, v: Id, depth: nat, seen: seq<Id>)
    requires Closed(heap) && v in heap && !Scan(heap, v, depth, seen).0
    ensures GrownFrom(heap, [v], seen, Scan(heap, v, depth, seen).1)
    decreases MAX_CONTEXT_DEPTH - depth, 0, 0
  {
    if v !in seen && !heap[v].Primitive? {
      ScanCompletes(heap, v, depth, seen);
      ScanAllGrows(heap, Children(heap[v]), depth + 1, seen + [v]);
      GrownThroughParent(heap, v, seen, Scan(heap, v, depth, seen).1);
    }
  }

  lemma {:induction false} ScanAllGrows(heap: Heap, vs: seq<Id>, depth: nat, seen: seq<Id>)
    requires Closed(heap) && (forall v :: v in vs ==> v in heap) && !ScanAll(heap, vs, depth, seen).0
    ensures GrownFrom(heap, vs, seen, ScanAll(heap, vs, depth, seen).1)
    decreases MAX_CONTEXT_DEPTH - depth, 1, |vs|
  {
    if vs != [] {
      var mid := Scan(heap, vs[0], depth, seen).1;
      ScanGrows(heap, vs[0], depth, seen);
      ScanCompletes(heap, vs[0], depth, seen);
      ScanAllGrows(heap, vs[1..], depth, mid);
      ScanAllCompletes(heap, vs[1..], depth, mid);
      GrownInTurn(heap, vs[0], vs[1..], seen, mid, ScanAll(heap, vs, depth, seen).1);
      assert [vs[0]] + vs[1..] == vs;
    }
  }

  lemma WalkedAreExpandable(heap: Heap, path: seq<Id>, i: nat)
    requires DeepWalk(heap, path) && i < MAX_CONTEXT_DEPTH
    ensures path[i] in Expandable(heap) && path[i + 1] in Children(heap[path[i]])
  {}

  lemma HeldOnce(heap: Heap, n: Id, m: Id, c: Id)
    requires Unshared(heap) && n in heap && m in heap && c in Expandable(heap)
    requires c in Children(heap[n]) && c in Children(heap[m])
    ensures n == m
  {
    var i :| 0 <= i < |Children(heap[n])| && Children(heap[n])[i] == c;
    var j :| 0 <= j < |Children(heap[m])| && Children(heap[m])[j] == c;
    assert HoldsAt(heap[n], i, heap[m], j);
  }

  lemma HeldAtOnePlace(heap: Heap, n: Id, k: nat, p: nat)
    requires Unshared(heap) && n in heap && p < k < |Children(heap[n])| && Children(heap[n])[k] in Expandable(heap)
    ensures Children(heap[n])[p] != Children(heap[n])[k]
  {
    assert !HoldsAt(heap[n], k, heap[n], p);
  }

  /** None of the objects from index `i` on has been expanded. */
  ghost predicate Ahead(path: seq<Id>, i: nat, seen: seq<Id>) {
    forall m :: i <= m < MAX_CONTEXT_DEPTH && m < |path| ==> path[m] !in seen
  }

  lemma WalkHolder(heap: Heap, path: seq<Id>, j: nat, n: Id)
    requires Unshared(heap) && DeepWalk(heap, path) && 0 < j < MAX_CONTEXT_DEPTH
    requires n in heap && path[j] in Children(heap[n])
    ensures n == path[j - 1]
  {
    WalkedAreExpandable(heap, path, j);
    WalkedAreExpandable(heap, path, j - 1);
    HeldOnce(heap, n, path[j - 1], path[j]);
  }

  lemma WalkIsDistinct(heap: Heap, path: seq<Id>, i: nat, j: nat)
    requires DeepWalk(heap, path) && i < j < MAX_CONTEXT_DEPTH
    ensures path[i] != path[j]
  {
    assert path[..MAX_CONTEXT_DEPTH][i] == path[i] && path[..MAX_CONTEXT_DEPTH][j] == path[j];
  }

  /** The siblings before the next object of the walk are not on the walk. */
  lemma SiblingsOffWalk(heap: Heap, path: seq<Id>, i: nat, k: nat, j: nat)
    requires Unshared(heap) && DeepWalk(heap, path) && i < j < MAX_CONTEXT_DEPTH
    requires k < |Children(heap[path[i]])| && Children(heap[path[i]])[k] == path[i + 1]
    ensures path[j] !in Children(heap[path[i]])[..k]
  {
    var cs := Children(heap[path[i]]);
    WalkedAreExpandable(heap, path, j);
    if p: nat :| p < k && cs[..k][p] == path[j] {
      assert cs[p] == path[j];
      WalkHolder(heap, path, j, path[i]);
      if i < j - 1 { WalkIsDistinct(heap, path, i, j - 1); }
      HeldAtOnePlace(heap, path[i], k, p);
    }
  }

  /** What comes before the next object of the walk does not lead to any later one. */
  lemma {:induction false} EarlierAvoidWalk(
    heap: Heap, path: seq<Id>, i: nat, front: seq<Id>, before: seq<Id>, after: seq<Id>, j: nat)
    requires Unshared(heap) && DeepWalk(heap, path) && i < j < MAX_CONTEXT_DEPTH
    requires forall m :: i < m < MAX_CONTEXT_DEPTH ==> path[m] !in before && path[m] !in front
    requires path[i] in before && GrownFrom(heap, front, before, after)
    ensures path[j] !in after
    decreases j
  {
    if path[j] in after {
      var m :| m in after && m !in before && m in heap && path[j] in Children(heap[m]);
      WalkHolder(heap, path, j, m);
      if j > i + 1 { EarlierAvoidWalk(heap, path, i, front, before, after, j - 1); }
    }
  }

  lemma NextOfWalk(heap: Heap, path: seq<Id>, i: nat) returns (k: nat)
    requires Closed(heap) && DeepWalk(heap, path) && i < MAX_CONTEXT_DEPTH
    ensures k < |Children(heap[path[i]])| && Children(heap[path[i]])[k] == path[i + 1]
  {
    WalkedAreExpandable(heap, path, i);
    k :| 0 <= k < |Children(heap[path[i]])| && Children(heap[path[i]])[k] == path[i + 1];
  }

  lemma TripInList(heap: Heap, vs: seq<Id>, k: nat, depth: nat, seen: seq<Id>)
    requires Closed(heap) && (forall v :: v in vs ==> v in heap) && k < |vs|
    requires ScanAll(heap, vs[..k], depth, seen).0 || Scan(heap, vs[k], depth, ScanAll(heap, vs[..k], depth, seen).1).0
    ensures ScanAll(heap, vs, depth, seen).0
  {
    assert vs[..k] + vs[k..] == vs;
    ScanAllSplits(heap, vs[..k], vs[k..], depth, seen);
  }

  lemma WalkedIsExpanded(heap: Heap, path: seq<Id>, i: nat, seen: seq<Id>)
    requires DeepWalk(heap, path) && i < MAX_CONTEXT_DEPTH && Ahead(path, i, seen)
    ensures path[i] !in seen && Ahead(path, i + 1, seen + [path[i]])
  {
    forall j | i < j < MAX_CONTEXT_DEPTH ensures path[j] !in seen + [path[i]] { WalkIsDistinct(heap, path, i, j); }
  }

  lemma SiblingsLeaveWalkAhead(heap: Heap, path: seq<Id>, i: nat, k: nat, before: seq<Id>, after: seq<Id>)
    requires Unshared(heap) && DeepWalk(heap, path) && i < MAX_CONTEXT_DEPTH
    requires k < |Children(heap[path[i]])| && Children(heap[path[i]])[k] == path[i + 1]
    requires path[i] in before && Ahead(path, i + 1, before)
    requires GrownFrom(heap, Children(heap[path[i]])[..k], before, after)
    ensures Ahead(path, i + 1, after)
  {
    var front := Children(heap[path[i]])[..k];
    forall j | i < j < MAX_CONTEXT_DEPTH ensures path[j] !in front { SiblingsOffWalk(heap, path, i, k, j); }
    forall j | i < j < MAX_CONTEXT_DEPTH ensures path[j] !in after {
      EarlierAvoidWalk(heap, path, i, front, before, after, j);
    }
  }

  lemma NextInHeap(heap: Heap, path: seq<Id>, i: nat, k: nat)
    requires Closed(heap) && DeepWalk(heap, path) && i < MAX_CONTEXT_DEPTH && k <= |Children(heap[path[i]])|
    ensures path[i + 1] in heap && forall x :: x in Children(heap[path[i]])[..k] ==> x in heap
  {
    WalkedAreExpandable(heap, path, i);
  }

  /** The scan of the children of the object at `i` trips, at the next object if not before. */
  lemma {:induction false} StepOfDeepWalk(heap: Heap, path: seq<Id>, i: nat, k: nat, before: seq<Id>)
    requires Closed(heap) && Unshared(heap) && DeepWalk(heap, path) && i < MAX_CONTEXT_DEPTH
    requires k < |Children(heap[path[i]])| && Children(heap[path[i]])[k] == path[i + 1]
    requires path[i] in before && Ahead(path, i + 1, before)
    ensures ScanAll(heap, Children(heap[path[i]]), i + 1, before).0
    decreases MAX_CONTEXT_DEPTH - i, 0
  {
    NextInHeap(heap, path, i, k);
    var (hit, after) := ScanAll(heap, Children(heap[path[i]])[..k], i + 1, before);
    if !hit {
      ScanAllGrows(heap, Children(heap[path[i]])[..k], i + 1, before);
      SiblingsLeaveWalkAhead(heap, path, i, k, before, after);
      DeepWalkTrips(heap, path, i + 1, after);
    }
    TripInList(heap, Children(heap[path[i]]), k, i + 1, before);
  }

  lemma {:induction false} DeepWalkTrips(heap: Heap, path: seq<Id>, i: nat, seen: seq<Id>)
    requires Closed(heap) && Unshared(heap) && DeepWalk(heap, path) && i <= MAX_CONTEXT_DEPTH && path[i] in heap
    requires Ahead(path, i, seen)
    ensures Scan(heap, path[i], i, seen).0
    decreases MAX_CONTEXT_DEPTH - i, 1
  {
    if i < MAX_CONTEXT_DEPTH {
      WalkedAreExpandable(heap, path, i);
      WalkedIsExpanded(heap, path, i, seen);
      var k := NextOfWalk(heap, path, i);
      StepOfDeepWalk(heap, path, i, k, seen + [path[i]]);
    }
  }

  /** Where no object is held twice the walk trips exactly when a credential is reachable, at any
      depth, or twelve edges lead through twelve different objects. */
  lemma UnsharedIsExact(heap: Heap, v: Id)
    requires Closed(heap) && v in heap && Unshared(heap)
    ensures Scan(heap, v, 0, []).0 <==> ReachesCredential(heap, v) || DeepFrom(heap, v)
  {
    TrueIsExplained(heap, v);
    if ReachesCredential(heap, v) && !Scan(heap, v, 0, []).0 { FalseIsSafe(heap, v); }
    if DeepFrom(heap, v) {
      var path :| DeepWalk(heap, path) && path[0] == v;
      DeepWalkTrips(heap, path, 0, []);
    }
  }

  // ----- where an object is held twice the order decides ------------------------------------------

  /** The chain, whose first list also holds the third one, in the given order. */
  function Shortcut(first: seq<Id>): Heap { Chain()[0 := Items(first)] }

  lemma ShortcutIsClosed(first: seq<Id>)
    requires forall c :: c in first ==> c <= 12
    ensures Closed(Shortcut(first)) && forall i :: 0 < i <= 12 ==> i in Shortcut(first) && Shortcut(first)[i] == ChainNode(i)
  {}

  lemma ScanAllOfOne(heap: Heap, v: Id, depth: nat, seen: seq<Id>)
    requires Closed(heap) && v in heap
    ensures ScanAll(heap, [v], depth, seen) == Scan(heap, v, depth, seen)
  {
    var after := Scan(heap, v, depth, seen).1;
    assert [v][1..] == [];
    assert ScanAll(heap, [], depth, after) == (false, after);
  }

  lemma ScanOfOne(heap: Heap, v: Id, child: Id, depth: nat, seen: seq<Id>)
    requires Closed(heap) && v in heap && heap[v] == Items([child]) && v !in seen && depth < MAX_CONTEXT_DEPTH
    ensures child in heap && Scan(heap, v, depth, seen) == Scan(heap, child, depth + 1, seen + [v])
  {
    assert Children(heap[v]) == [child];
    ScanAllOfOne(heap, child, depth + 1, seen + [v]);
  }

  lemma ScanOfTwo(heap: Heap, v: Id, a: Id, b: Id, depth: nat, seen: seq<Id>)
    requires Closed(heap) && v in heap && heap[v] == Items([a, b]) && v !in seen && depth < MAX_CONTEXT_DEPTH
    ensures a in heap && b in heap
    ensures var (hit, mid) := Scan(heap, a, depth + 1, seen + [v]);
            Scan(heap, v, depth, seen).0 <==> hit || Scan(heap, b, depth + 1, mid).0
  {
    assert Children(heap[v]) == [a] + [b];
    ScanAllSplits(heap, [a], [b], depth + 1, seen + [v]);
    ScanAllOfOne(heap, a, depth + 1, seen + [v]);
    ScanAllOfOne(heap, b, depth + 1, Scan(heap, a, depth + 1, seen + [v]).1);
  }

  lemma {:induction false} ChainFrom(first: seq<Id>, i: nat, depth: nat, seen: seq<Id>)
    requires (forall c :: c in first ==> c <= 12) && 0 < i <= 12 && depth <= i && forall n :: n in seen ==> n < i
    ensures Closed(Shortcut(first)) && i in Shortcut(first)
    ensures Scan(Shortcut(first), i, depth, seen).0 <==> depth == i
    decreases 12 - i
  {
    ShortcutIsClosed(first);
    if i < 12 {
      ChainFrom(first, i + 1, depth + 1, seen + [i]);
      ScanOfOne(Shortcut(first), i, i + 1, depth, seen);
    }
  }

  /** Once object 2 has been passed at depth one it counts as settled at depth two. */
  lemma SettledIsPassed(first: seq<Id>, mid: seq<Id>)
    requires (forall c :: c in first ==> c <= 12) && 2 in mid
    ensures Closed(Shortcut(first)) && 1 in Shortcut(first) && !Scan(Shortcut(first), 1, 1, mid).0
  {
    ShortcutIsClosed(first);
    if 1 !in mid { ScanOfOne(Shortcut(first), 1, 2, 1, mid); }
  }

  lemma ChainIsSettled(first: seq<Id>)
    requires forall c :: c in first ==> c <= 12
    ensures Closed(Shortcut(first)) && 2 in Shortcut(first)
    ensures var (hit, mid) := Scan(Shortcut(first), 2, 1, [0]); !hit && 2 in mid
  {
    ChainFrom(first, 2, 1, [0]);
    ScanCompletes(Shortcut(first), 2, 1, [0]);
    ShortcutIsClosed(first);
  }

  lemma ShortFirst(first: seq<Id>)
    requires first == [2, 1]
    ensures Closed(Shortcut(first)) && !Scan(Shortcut(first), 0, 0, []).0
  {
    ShortcutIsClosed(first);
    ChainIsSettled(first);
    SettledIsPassed(first, Scan(Shortcut(first), 2, 1, [0]).1);
    ScanOfTwo(Shortcut(first), 0, 2, 1, 0, []);
    assert [] + [0] == [0];
  }

  lemma LongFirst(first: seq<Id>)
    requires first == [1, 2]
    ensures Closed(Shortcut(first)) && Scan(Shortcut(first), 0, 0, []).0
  {
    ShortcutIsClosed(first);
    ChainFrom(first, 1, 1, [0]);
    ScanOfTwo(Shortcut(first), 0, 1, 2, 0, []);
    assert [] + [0] == [0];
  }

  lemma ShortcutIsDeep(first: seq<Id>, path: seq<Id>)
    requires 1 in first && (forall c :: c in first ==> c <= 12)
    requires |path| == 13 && forall i :: 0 <= i <= 12 ==> path[i] == i
    ensures DeepFrom(Shortcut(first), 0)
  {
    ShortcutIsClosed(first);
    assert DeepWalk(Shortcut(first), path);
  }

  /** Two lists that differ in the order of their two elements only, both with a walk of twelve edges
      and no credential in sight: one is passed and the other refused. */
  lemma OrderDecides(short: Heap, long: Heap)
    requires short == Shortcut([2, 1]) && long == Shortcut([1, 2])
    ensures Closed(short) && DeepFrom(short, 0) && !Scan(short, 0, 0, []).0
    ensures Closed(long) && DeepFrom(long, 0) && Scan(long, 0, 0, []).0
  {
    ShortFirst([2, 1]);
    LongFirst([1, 2]);
    var path := seq(13, i => i);
    ShortcutIsDeep([2, 1], path);
    ShortcutIsDeep([1, 2], path);
  }

  // ----- rendering ---------------------------------------------------------------------------

  /** A parsed template: literal text and replacement fields. */
  datatype Piece = Literal(text: string) | Field(name: string)

  /** What formatting needs from outside: how a field name resolves against the context (`None` is a
      template-author error) and how a value formats. */
  datatype Formatting = Formatting(resolve: string -> Option<Id>, text: Id -> string)

  datatype Rendering = Rendered(text: string) | CredentialLeak | TemplateError

  predicate IsScopeChar(c: char) { 'A' <= c <= 'Z' || '0' <= c <= '9' || c == '_' }

  function ScopeLength(s: string): (n: nat)
    ensures n <= |s|
  {
    if s == [] || !IsScopeChar(s[0]) then 0 else 1 + ScopeLength(s[1..])
  }

  /** A redaction marker starts at the head of `s`. */
  predicate MarkerAt(s: string) {
    var open := "<credential:redacted:";
    && open <= s
    && var rest := s[|open|..];
       var n := ScopeLength(rest);
       n > 0 && n < |rest| && rest[n] == '>'
  }

  predicate HasMarker(s: string) {
    exists i :: 0 <= i <= |s| && MarkerAt(s[i..])
  }

  /** The formatted text and whether some field came out as a credential; `None` on a template error. */
  function Format(heap: Heap, f: Formatting, template: seq<Piece>): Option<(string, bool)> {
    if template == [] then Some(("", false))
    else
      var last := template[|template| - 1];
      match Format(heap, f, template[..|template| - 1])
      case None => None
      case Some((text, reached)) =>
        match last
        case Literal(t) => Some((text + t, reached))
        case Field(name) =>
          match f.resolve(name)
          case None => None
          case Some(v) =>
            if v in heap && heap[v].Credential? then Some((text, true)) else Some((text + f.text(v), reached))
  }

  class RedactedPromptContext {
    const heap: Heap
    var context: Dict<string, Id>

    ghost predicate Valid() reads this {
      Closed(heap) && context.Valid() && forall v :: v in context.Values() ==> v in heap
    }

    constructor (heap: Heap, base: Option<Dict<string, Id>>, kwargs: Dict<string, Id>)
      requires Closed(heap) && kwargs.Valid() && (base.Some? ==> base.value.Valid())
      requires forall v :: v in kwargs.Values() ==> v in heap
      requires base.Some? ==> forall v :: v in base.value.Values() ==> v in heap
      ensures Valid() && this.heap == heap
      ensures forall k :: k in context.entries <==> k in kwargs.entries || (base.Some? && k in base.value.entries)
      ensures forall k :: k in kwargs.entries ==> context.entries[k] == kwargs.entries[k]
      ensures forall k :: base.Some? && k in base.value.entries && k !in kwargs.entries
                ==> context.entries[k] == base.value.entries[k]
    {
      this.heap := heap;
      this.context := (if base.Some? then base.value else EmptyDict()).Update(kwargs);
      new;
      (if base.Some? then base.value else EmptyDict()).UpdateCorrect(kwargs);
    }

    method Render(f: Formatting, template: seq<Piece>) returns (r: Rendering)
      requires Valid()
      ensures r == RenderOf(heap, context.Values(), f, template)
    {
      var values := context.Values();
      for i := 0 to |values|
        invariant forall j :: 0 <= j < i ==> !Scan(heap, values[j], 0, []).0
      {
        var walk := new ContextWalk(heap);
        var hit := walk.Contains(values[i], 0);
        if hit {
          assert values[i] in values;
          return CredentialLeak;
        }
      }
      var text, reached := "", false;
      for i := 0 to |template|
        invariant Format(heap, f, template[..i]) == Some((text, reached))
      {
        assert template[..i + 1][..i] == template[..i];
        match template[i]
        case Literal(t) => text := text + t;
        case Field(name) =>
          var v := f.resolve(name);
          if v.None? {
            FormatFails(heap, f, template, i);
            return TemplateError;
          }
          if v.value in heap && heap[v.value].Credential? {
            reached := true;
          } else {
            text := text + f.text(v.value);
          }
      }
      assert template[..|template|] == template;
      if reached { return CredentialLeak; }
      if HasMarker(text) { return CredentialLeak; }
      return Rendered(text);
    }
  }

  lemma {:induction false} FormatFails(heap: Heap, f: Formatting, template: seq<Piece>, i: nat)
    requires i < |template| && template[i].Field? && f.resolve(template[i].name).None?
    ensures Format(heap, f, template).None?
  {
    if i < |template| - 1 {
      FormatFails(heap, f, template[..|template| - 1], i);
    }
  }

  function RenderOf(heap: Heap, values: seq<Id>, f: Formatting, template: seq<Piece>): Rendering
    requires Closed(heap) && forall v :: v in values ==> v in heap
  {
    if exists v :: v in values && Scan(heap, v, 0, []).0 then CredentialLeak
    else
      match Format(heap, f, template)
      case None => TemplateError
      case Some((text, reached)) =>
        if reached || HasMarker(text) then CredentialLeak else Rendered(text)
  }

  lemma {:induction false} FormatReaches(heap: Heap, f: Formatting, template: seq<Piece>)
    requires Format(heap, f, template).Some?
    ensures Format(heap, f, template).value.1
       <==> exists i :: 0 <= i < |template| && template[i].Field? && f.resolve(template[i].name).Some?
              && f.resolve(template[i].name).value in heap && heap[f.resolve(template[i].name).value].Credential?
  {
    if template != [] {
      FormatReaches(heap, f, template[..|template| - 1]);
    }
  }

  /** A rendered prompt is safe: nothing in its context leads to a credential at any depth, no field
      came out as one, and the text holds no redaction marker. */
  lemma RenderedIsSafe(heap: Heap, values: seq<Id>, f: Formatting, template: seq<Piece>)
    requires Closed(heap) && forall v :: v in values ==> v in heap
    requires RenderOf(heap, values, f, template).Rendered?
    ensures forall v :: v in values ==> !ReachesCredential(heap, v)
    ensures forall i :: 0 <= i < |template| && template[i].Field? ==>
              f.resolve(template[i].name).Some?
              && (f.resolve(template[i].name).value in heap ==> !heap[f.resolve(template[i].name).value].Credential?)
    ensures !HasMarker(RenderOf(heap, values, f, template).text)
  {
    forall v | v in values ensures !ReachesCredential(heap, v) { FalseIsSafe(heap, v); }
    FormatReaches(heap, f, template);
    forall i | 0 <= i < |template| && template[i].Field? ensures f.resolve(template[i].name).Some? {
      if f.resolve(template[i].name).None? { FormatFails(heap, f, template, i); }
    }
  }

  /** Fields lead only where the walk goes. */
  ghost predicate ResolvesByWalking(heap: Heap, values: seq<Id>, f: Formatting)
    requires Closed(heap)
  {
    forall name :: f.resolve(name).Some? ==>
      exists path :: IsWalk(heap, path) && path[0] in values && path[|path| - 1] == f.resolve(name).value
  }

  /** Where fields lead only where the walk goes, the formatter's own check never fires: a refusal
      comes from the walk or from a marker in the text. */
  lemma FormatterCheckIsBackup(heap: Heap, values: seq<Id>, f: Formatting, template: seq<Piece>)
    requires Closed(heap) && (forall v :: v in values ==> v in heap) && ResolvesByWalking(heap, values, f)
    requires forall v :: v in values ==> !Scan(heap, v, 0, []).0
    ensures Format(heap, f, template).Some? ==> !Format(heap, f, template).value.1
    ensures RenderOf(heap, values, f, template) == CredentialLeak
       <==> Format(heap, f, template).Some? && HasMarker(Format(heap, f, template).value.0)
  {
    if Format(heap, f, template).Some? {
      FormatReaches(heap, f, template);
      forall name | f.resolve(name).Some? && f.resolve(name).value in heap
        ensures !heap[f.resolve(name).value].Credential?
      {
        var path :| IsWalk(heap, path) && path[0] in values && path[|path| - 1] == f.resolve(name).value;
        FalseIsSafe(heap, path[0]);
        assert !EndsInCredential(heap, path);
      }
    }
  }
}
