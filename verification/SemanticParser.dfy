/** The semantic HTML parser: a machine over start, data and end events that keeps an open-element
    stack and a list of semantic candidates in step. */
module SemanticParser {
  import opened Basics
  import opened Urls

  type Attributes = map<string, string>

  datatype Candidate = Candidate(tag: string, attrs: Attributes, text: string, index: nat)

  /** Tokenizer events; the text of a data event has had its character references resolved. */
  datatype Event =
    | Start(tag: string, attrs: seq<(string, Option<string>)>)
    | Data(text: string)
    | End

  datatype State = State(nodeCount: nat, candidates: seq<Candidate>, stack: seq<Candidate>)

  // ----- text --------------------------------------------------------------------------------

  /** The characters `str.strip` removes. */
  predicate IsSpace(c: char) {
    var n := c as int;
    || 0x09 <= n <= 0x0D || 0x1C <= n <= 0x20 || n == 0x85 || n == 0xA0 || n == 0x1680
    || 0x2000 <= n <= 0x200A || n == 0x2028 || n == 0x2029 || n == 0x202F || n == 0x205F || n == 0x3000
  }

  function StripLeft(s: string): string {
    if s != "" && IsSpace(s[0]) then StripLeft(s[1..]) else s
  }

  function StripRight(s: string): string {
    if s != "" && IsSpace(s[|s| - 1]) then StripRight(s[..|s| - 1]) else s
  }

  function Strip(s: string): string { StripRight(StripLeft(s)) }

  /** Text that stripping would not change and that is not empty. */
  predicate Trimmed(s: string) {
    s != "" && !IsSpace(s[0]) && !IsSpace(s[|s| - 1])
  }

  lemma {:induction false} StripRightFront(s: string)
    requires s != "" && !IsSpace(s[0])
    ensures Trimmed(StripRight(s))
  {
    if IsSpace(s[|s| - 1]) {
      StripRightFront(s[..|s| - 1]);
    }
  }

  lemma {:induction false} StripLeftResult(s: string)
    ensures StripLeft(s) == "" || !IsSpace(StripLeft(s)[0])
  {
    if s != "" && IsSpace(s[0]) {
      StripLeftResult(s[1..]);
    }
  }

  lemma StripTrims(s: string)
    ensures Strip(s) == "" || Trimmed(Strip(s))
  {
    StripLeftResult(s);
    if StripLeft(s) != "" {
      StripRightFront(StripLeft(s));
    }
  }

  function Join(chunks: seq<string>): string {
    if chunks == [] then ""
    else if |chunks| == 1 then chunks[0]
    else Join(chunks[..|chunks| - 1]) + " " + chunks[|chunks| - 1]
  }

  ghost predicate AllTrimmed(chunks: seq<string>) { forall i :: 0 <= i < |chunks| ==> Trimmed(chunks[i]) }

  lemma {:induction false} JoinTrimmed(chunks: seq<string>)
    requires AllTrimmed(chunks) && chunks != []
    ensures Trimmed(Join(chunks))
  {
    if |chunks| > 1 {
      JoinTrimmed(chunks[..|chunks| - 1]);
      assert Join(chunks)[0] == Join(chunks[..|chunks| - 1])[0];
    }
  }

  /** Appending a chunk as the parser does is joining it on. */
  lemma AppendChunk(chunks: seq<string>, text: string)
    requires AllTrimmed(chunks) && Trimmed(text)
    ensures Strip(Join(chunks) + " " + text) == Join(chunks + [text])
    ensures AllTrimmed(chunks + [text])
  {
    assert (chunks + [text])[..|chunks|] == chunks;
    if chunks == [] {
      BlankThenText(text, Join(chunks) + " " + text);
    } else {
      JoinTrimmed(chunks);
      TrimmedEnds(Join(chunks), text, Join(chunks) + " " + text);
    }
  }

  lemma BlankThenText(text: string, s: string)
    requires Trimmed(text) && s == " " + text
    ensures Strip(s) == text
  {
    assert s[1..] == text;
    assert StripLeft(s) == text;
  }

  lemma TrimmedEnds(a: string, b: string, s: string)
    requires Trimmed(a) && Trimmed(b) && s == a + " " + b
    ensures Strip(s) == s
  {
    assert s[0] == a[0] && s[|s| - 1] == b[|b| - 1];
  }

  // ----- the machine -------------------------------------------------------------------------

  /** `{key: value or "" for key, value in attrs}`: the last value of a repeated key wins. */
  function AttrMap(attrs: seq<(string, Option<string>)>): Attributes {
    if attrs == [] then map[]
    else
      var (key, value) := attrs[|attrs| - 1];
      AttrMap(attrs[..|attrs| - 1])[key := if value.Some? then value.value else ""]
  }

  predicate Contains(s: string, part: string) {
    exists i :: 0 <= i <= |s| && part <= s[i..]
  }

  function AttrOr(attrs: Attributes, key: string): string { if key in attrs then attrs[key] else "" }

  predicate TagIsSemantic(tag: string, attrs: Attributes) {
    var text := Lower(tag + " " + AttrOr(attrs, "class") + " " + AttrOr(attrs, "role") + " " + AttrOr(attrs, "type"));
    || tag in {"input", "button", "a", "article", "h1", "h2", "span", "select"}
    || exists t :: t in ["search", "filter", "sort", "page", "product", "price", "availability"] && Contains(text, t)
  }

  function Replace(candidates: seq<Candidate>, updated: Candidate): (r: seq<Candidate>)
    ensures |r| == |candidates|
    ensures forall i :: 0 <= i < |r| ==>
      r[i] == if candidates[i].index == updated.index then updated else candidates[i]
  {
    seq(|candidates|, i requires 0 <= i < |candidates| =>
      if candidates[i].index == updated.index then updated else candidates[i])
  }

  function Step(st: State, e: Event): State {
    match e
    case Start(tag, attrs) =>
      var candidate := Candidate(tag, AttrMap(attrs), "", st.nodeCount + 1);
      State(st.nodeCount + 1,
            if TagIsSemantic(tag, AttrMap(attrs)) then st.candidates + [candidate] else st.candidates,
            st.stack + [candidate])
    case Data(data) =>
      var text := Strip(data);
      if st.stack == [] || text == "" then st
      else
        var current := st.stack[|st.stack| - 1];
        var updated := current.(text := Strip(current.text + " " + text));
        State(st.nodeCount, Replace(st.candidates, updated), st.stack[..|st.stack| - 1] + [updated])
    case End =>
      if st.stack == [] then st else st.(stack := st.stack[..|st.stack| - 1])
  }

  function Run(events: seq<Event>): State {
    if events == [] then State(0, [], []) else Step(Run(events[..|events| - 1]), events[|events| - 1])
  }

  class SemanticHtmlParser {
    var nodeCount: nat
    var candidates: seq<Candidate>
    var stack: seq<Candidate>

    function Now(): State reads this { State(nodeCount, candidates, stack) }

    constructor ()
      ensures Now() == Run([])
    {
      nodeCount, candidates, stack := 0, [], [];
    }

    method HandleStartTag(tag: string, attrs: seq<(string, Option<string>)>)
      modifies this
      ensures Now() == Step(old(Now()), Start(tag, attrs))
    {
      nodeCount := nodeCount + 1;
      var attrMap: Attributes := map[];
      for i := 0 to |attrs|
        invariant attrMap == AttrMap(attrs[..i])
      {
        assert attrs[..i + 1][..i] == attrs[..i];
        var (key, value) := attrs[i];
        attrMap := attrMap[key := if value.Some? then value.value else ""];
      }
      assert attrs[..|attrs|] == attrs;
      var candidate := Candidate(tag, attrMap, "", nodeCount);
      if TagIsSemantic(tag, attrMap) {
        candidates := candidates + [candidate];
      }
      stack := stack + [candidate];
    }

    method HandleData(data: string)
      modifies this
      ensures Now() == Step(old(Now()), Data(data))
    {
      if stack == [] { return; }
      var text := Strip(data);
      if text == "" { return; }
      var current := stack[|stack| - 1];
      var updated := current.(text := Strip(current.text + " " + text));
      stack := stack[..|stack| - 1] + [updated];
      for i := 0 to |candidates|
        invariant |candidates| == |old(candidates)| && nodeCount == old(nodeCount)
        invariant stack == old(stack)[..|old(stack)| - 1] + [updated]
        invariant forall j :: 0 <= j < i ==> candidates[j] == Replace(old(candidates), updated)[j]
        invariant forall j :: i <= j < |candidates| ==> candidates[j] == old(candidates)[j]
      {
        if candidates[i].index == current.index {
          candidates := candidates[i := updated];
        }
      }
      assert candidates == Replace(old(candidates), updated);
    }

    method HandleEndTag()
      modifies this
      ensures Now() == Step(old(Now()), End)
    {
      if stack != [] {
        stack := stack[..|stack| - 1];
      }
    }
  }

  // ----- reading the event history directly ---------------------------------------------------

  /** The start events, in order: node `i` is the `i`-th of them, counting from 1. */
  function Starts(events: seq<Event>): seq<Event> {
    if events == [] then []
    else
      var last := events[|events| - 1];
      Starts(events[..|events| - 1]) + if last.Start? then [last] else []
  }

  /** The numbers of the nodes open after the events, outermost first. */
  function Open(events: seq<Event>): seq<nat> {
    if events == [] then []
    else
      var front, last := events[..|events| - 1], events[|events| - 1];
      match last
      case Start(_, _) => Open(front) + [|Starts(front)| + 1]
      case Data(_) => Open(front)
      case End => if Open(front) == [] then [] else Open(front)[..|Open(front)| - 1]
  }

  /** The stripped, non-empty pieces of text that came in while node `i` was the innermost. */
  function Chunks(events: seq<Event>, i: nat): seq<string> {
    if events == [] then []
    else
      var front, last := events[..|events| - 1], events[|events| - 1];
      var open := Open(front);
      Chunks(front, i) +
      if last.Data? && Strip(last.text) != "" && open != [] && open[|open| - 1] == i then [Strip(last.text)] else []
  }

  /** The numbers of the semantic nodes, in order. */
  function Semantic(events: seq<Event>): seq<nat> {
    if events == [] then []
    else
      var front, last := events[..|events| - 1], events[|events| - 1];
      Semantic(front) +
      if last.Start? && TagIsSemantic(last.tag, AttrMap(last.attrs)) then [|Starts(front)| + 1] else []
  }

  ghost predicate IsNode(events: seq<Event>, i: nat) { 1 <= i <= |Starts(events)| && Starts(events)[i - 1].Start? }

  /** What the history says about node `i`. */
  function Node(events: seq<Event>, i: nat): Candidate
    requires IsNode(events, i)
  {
    var start := Starts(events)[i - 1];
    Candidate(start.tag, AttrMap(start.attrs), Join(Chunks(events, i)), i)
  }

  ghost predicate Describes(events: seq<Event>, ids: seq<nat>, cs: seq<Candidate>) {
    |cs| == |ids| && forall k :: 0 <= k < |ids| ==> IsNode(events, ids[k]) && cs[k] == Node(events, ids[k])
  }

  ghost predicate Increasing(ids: seq<nat>, max: nat) {
    && (forall j, k :: 0 <= j < k < |ids| ==> ids[j] < ids[k])
    && forall k :: 0 <= k < |ids| ==> 1 <= ids[k] <= max
  }

  lemma IncreasingSnoc(ids: seq<nat>, max: nat)
    requires Increasing(ids, max)
    ensures Increasing(ids + [max + 1], max + 1) && Increasing(ids, max + 1)
    ensures ids != [] ==> Increasing(ids[..|ids| - 1], max)
  {}

  lemma {:induction false} OpenIncreases(events: seq<Event>)
    ensures Increasing(Open(events), |Starts(events)|)
  {
    if events != [] {
      var front := events[..|events| - 1];
      OpenIncreases(front);
      IncreasingSnoc(Open(front), |Starts(front)|);
    }
  }

  lemma {:induction false} SemanticIncreases(events: seq<Event>)
    ensures Increasing(Semantic(events), |Starts(events)|)
  {
    if events != [] {
      var front := events[..|events| - 1];
      SemanticIncreases(front);
      IncreasingSnoc(Semantic(front), |Starts(front)|);
      assert Semantic(front) + [] == Semantic(front);
    }
  }

  lemma {:induction false} ChunksTrimmed(events: seq<Event>, i: nat)
    ensures AllTrimmed(Chunks(events, i))
    ensures i > |Starts(events)| ==> Chunks(events, i) == []
  {
    if events != [] {
      var front, last := events[..|events| - 1], events[|events| - 1];
      ChunksTrimmed(front, i);
      OpenIncreases(front);
      if last.Data? { StripTrims(last.text); }
    }
  }

  lemma {:induction false} StartsAreStarts(events: seq<Event>)
    ensures forall s :: s in Starts(events) ==> s.Start?
  {
    if events != [] { StartsAreStarts(events[..|events| - 1]); }
  }

  /** What every history satisfies. */
  lemma HistoryShape(events: seq<Event>, i: nat)
    ensures AllTrimmed(Chunks(events, i))
    ensures i > |Starts(events)| ==> Chunks(events, i) == []
    ensures Increasing(Open(events), |Starts(events)|)
    ensures Increasing(Semantic(events), |Starts(events)|)
    ensures forall s :: s in Starts(events) ==> s.Start?
  {
    ChunksTrimmed(events, i);
    OpenIncreases(events);
    SemanticIncreases(events);
    StartsAreStarts(events);
  }

  /** `st` is what the history says the parser's state should be. */
  ghost predicate Fits(events: seq<Event>, st: State) {
    && st.nodeCount == |Starts(events)|
    && Describes(events, Open(events), st.stack)
    && Describes(events, Semantic(events), st.candidates)
  }

  ghost predicate Described(events: seq<Event>) { Fits(events, Run(events)) }

  lemma NodeKept(front: seq<Event>, events: seq<Event>, i: nat)
    requires IsNode(front, i) && Starts(front) <= Starts(events) && Chunks(events, i) == Chunks(front, i)
    ensures IsNode(events, i) && Node(events, i) == Node(front, i)
  {}

  lemma DescribesKept(front: seq<Event>, events: seq<Event>, ids: seq<nat>, cs: seq<Candidate>)
    requires Describes(front, ids, cs) && Starts(front) <= Starts(events)
    requires forall i :: Chunks(events, i) == Chunks(front, i)
    ensures Describes(events, ids, cs)
  {
    forall k | 0 <= k < |ids| ensures IsNode(events, ids[k]) && cs[k] == Node(events, ids[k]) {
      NodeKept(front, events, ids[k]);
    }
  }

  /** Node `top` got the text of `updated`, the others nothing. */
  lemma DescribesUpdated(
    front: seq<Event>, events: seq<Event>, top: nat, ids: seq<nat>, cs: seq<Candidate>, updated: Candidate)
    requires Describes(front, ids, cs) && Starts(front) <= Starts(events)
    requires IsNode(events, top) && updated == Node(events, top)
    requires forall i :: i != top ==> Chunks(events, i) == Chunks(front, i)
    ensures Describes(events, ids, Replace(cs, updated))
  {
    var replaced := Replace(cs, updated);
    forall k | 0 <= k < |ids| ensures IsNode(events, ids[k]) && replaced[k] == Node(events, ids[k]) {
      assert IsNode(front, ids[k]) && cs[k].index == ids[k];
      if ids[k] != top { NodeKept(front, events, ids[k]); }
    }
  }

  // ----- a start or end tag, or text that is dropped -----------------------------------------

  lemma QuietChunks(front: seq<Event>, e: Event)
    requires e.Data? ==> Strip(e.text) == "" || Open(front) == []
    ensures forall i :: Chunks(front + [e], i) == Chunks(front, i)
  {
    assert (front + [e])[..|front|] == front;
    assert forall i :: Chunks(front + [e], i) == Chunks(front, i) + [] == Chunks(front, i);
  }

  lemma NewNode(front: seq<Event>, e: Event, i: nat)
    requires e.Start? && i == |Starts(front)| + 1
    ensures Starts(front + [e]) == Starts(front) + [e]
    ensures IsNode(front + [e], i) && Node(front + [e], i) == Candidate(e.tag, AttrMap(e.attrs), "", i)
  {
    assert (front + [e])[..|front|] == front;
    ChunksTrimmed(front, i);
    QuietChunks(front, e);
  }

  lemma DescribesOneMore(events: seq<Event>, ids: seq<nat>, cs: seq<Candidate>, i: nat, c: Candidate)
    requires Describes(events, ids, cs) && IsNode(events, i) && c == Node(events, i)
    ensures Describes(events, ids + [i], cs + [c])
  {}

  lemma StartDescribed(front: seq<Event>, e: Event)
    requires Described(front) && e.Start?
    ensures Described(front + [e])
  {
    var events, st, i := front + [e], Run(front), |Starts(front)| + 1;
    var c := Candidate(e.tag, AttrMap(e.attrs), "", i);
    assert events[..|front|] == front;
    NewNode(front, e, i);
    QuietChunks(front, e);
    assert Describes(events, Open(front) + [i], st.stack + [c]) by {
      DescribesKept(front, events, Open(front), st.stack);
      DescribesOneMore(events, Open(front), st.stack, i, c);
    }
    assert Describes(events, Semantic(front), st.candidates) &&
           Describes(events, Semantic(front) + [i], st.candidates + [c]) by {
      DescribesKept(front, events, Semantic(front), st.candidates);
      DescribesOneMore(events, Semantic(front), st.candidates, i, c);
    }
    assert Semantic(front) + [] == Semantic(front);
  }

  lemma EndDescribed(front: seq<Event>)
    requires Described(front)
    ensures Described(front + [End])
  {
    var events, st := front + [End], Run(front);
    assert events[..|front|] == front;
    QuietChunks(front, End);
    assert Semantic(events) == Semantic(front) && Starts(events) == Starts(front);
    DescribesKept(front, events, Open(front), st.stack);
    DescribesKept(front, events, Semantic(front), st.candidates);
  }

  lemma FitsSameShape(front: seq<Event>, events: seq<Event>, st: State)
    requires SameShape(front, events) && st.nodeCount == |Starts(front)|
    requires Describes(events, Open(front), st.stack) && Describes(events, Semantic(front), st.candidates)
    ensures Fits(events, st)
  {}

  /** Text opens and closes no node. */
  ghost predicate SameShape(front: seq<Event>, events: seq<Event>) {
    Open(events) == Open(front) && Semantic(events) == Semantic(front) && Starts(events) == Starts(front)
  }

  lemma TextKeepsShape(front: seq<Event>, e: Event)
    requires e.Data?
    ensures SameShape(front, front + [e])
  {
    assert (front + [e])[..|front|] == front;
  }

  lemma DataIgnored(front: seq<Event>, e: Event)
    requires Described(front) && e.Data? && (Strip(e.text) == "" || Run(front).stack == [])
    ensures Described(front + [e])
  {
    var events, st := front + [e], Run(front);
    assert events[..|front|] == front;
    TextKeepsShape(front, e);
    QuietChunks(front, e);
    DescribesKept(front, events, Open(front), st.stack);
    DescribesKept(front, events, Semantic(front), st.candidates);
    FitsSameShape(front, events, st);
  }

  // ----- text for the innermost node ---------------------------------------------------------

  lemma TextChunks(front: seq<Event>, e: Event, i: nat)
    requires e.Data? && Strip(e.text) != "" && Open(front) != []
    ensures Chunks(front + [e], i)
         == if i == Open(front)[|Open(front)| - 1] then Chunks(front, i) + [Strip(e.text)] else Chunks(front, i)
  {
    assert (front + [e])[..|front|] == front;
    assert Chunks(front, i) + [] == Chunks(front, i);
  }

  lemma TopText(front: seq<Event>, e: Event, top: nat)
    requires e.Data? && Strip(e.text) != "" && Open(front) != [] && top == Open(front)[|Open(front)| - 1]
    ensures Join(Chunks(front + [e], top)) == Strip(Join(Chunks(front, top)) + " " + Strip(e.text))
  {
    TextChunks(front, e, top);
    StripTrims(e.text);
    ChunksTrimmed(front, top);
    AppendChunk(Chunks(front, top), Strip(e.text));
  }

  lemma UpdatedTop(front: seq<Event>, e: Event, top: nat, c: Candidate) returns (updated: Candidate)
    requires e.Data? && Strip(e.text) != "" && Open(front) != [] && top == Open(front)[|Open(front)| - 1]
    requires IsNode(front, top) && c == Node(front, top)
    ensures IsNode(front + [e], top) && updated == Node(front + [e], top)
    ensures updated == c.(text := Strip(c.text + " " + Strip(e.text)))
  {
    TextKeepsShape(front, e);
    TopText(front, e, top);
    updated := NodeWithText(front, front + [e], top, c, Strip(c.text + " " + Strip(e.text)));
  }

  lemma NodeWithText(front: seq<Event>, events: seq<Event>, i: nat, c: Candidate, text: string)
    returns (updated: Candidate)
    requires Starts(events) == Starts(front) && IsNode(front, i) && c == Node(front, i)
    requires Join(Chunks(events, i)) == text
    ensures IsNode(events, i) && updated == Node(events, i) == c.(text := text)
  {
    updated := Node(events, i);
  }

  lemma ReplaceTop(ids: seq<nat>, cs: seq<Candidate>, updated: Candidate)
    requires |cs| == |ids| > 0 && (forall k :: 0 <= k < |ids| ==> cs[k].index == ids[k])
    requires (forall j, k :: 0 <= j < k < |ids| ==> ids[j] < ids[k]) && updated.index == ids[|ids| - 1]
    ensures cs[..|cs| - 1] + [updated] == Replace(cs, updated)
  {}

  lemma DataRun(front: seq<Event>, e: Event)
    requires e.Data? && Strip(e.text) != "" && Run(front).stack != []
    ensures var st := Run(front); var c := st.stack[|st.stack| - 1];
            var updated := c.(text := Strip(c.text + " " + Strip(e.text)));
            Run(front + [e]) == State(st.nodeCount, Replace(st.candidates, updated), st.stack[..|st.stack| - 1] + [updated])
  {
    assert (front + [e])[..|front|] == front;
  }

  /** The stack after text: its top is the updated candidate. */
  lemma StackAfterText(
    front: seq<Event>, events: seq<Event>, ids: seq<nat>, cs: seq<Candidate>, top: nat, updated: Candidate)
    requires Describes(front, ids, cs) && ids != [] && Increasing(ids, |Starts(front)|) && top == ids[|ids| - 1]
    requires Starts(front) <= Starts(events) && IsNode(events, top) && updated == Node(events, top)
    requires forall i :: i != top ==> Chunks(events, i) == Chunks(front, i)
    ensures Describes(events, ids, cs[..|cs| - 1] + [updated])
  {
    DescribesUpdated(front, events, top, ids, cs, updated);
    ReplaceTop(ids, cs, updated);
  }

  lemma DataFits(front: seq<Event>, events: seq<Event>, st: State, top: nat, updated: Candidate)
    requires Fits(front, st) && SameShape(front, events) && Open(front) != []
    requires top == Open(front)[|Open(front)| - 1] && IsNode(events, top) && updated == Node(events, top)
    requires forall i :: i != top ==> Chunks(events, i) == Chunks(front, i)
    ensures Fits(events, State(st.nodeCount, Replace(st.candidates, updated), st.stack[..|st.stack| - 1] + [updated]))
  {
    OpenIncreases(front);
    StackAfterText(front, events, Open(front), st.stack, top, updated);
    DescribesUpdated(front, events, top, Semantic(front), st.candidates, updated);
    FitsSameShape(front, events,
                  State(st.nodeCount, Replace(st.candidates, updated), st.stack[..|st.stack| - 1] + [updated]));
  }

  lemma DataDescribed(front: seq<Event>, e: Event)
    requires Described(front) && e.Data? && Strip(e.text) != "" && Run(front).stack != []
    ensures Described(front + [e])
  {
    var st, top := Run(front), Open(front)[|Open(front)| - 1];
    var updated := UpdatedTop(front, e, top, st.stack[|st.stack| - 1]);
    forall i | i != top ensures Chunks(front + [e], i) == Chunks(front, i) { TextChunks(front, e, i); }
    TextKeepsShape(front, e);
    DataRun(front, e);
    DataFits(front, front + [e], st, top, updated);
  }

  /** After any events, the parser's state is what the history says: the stack holds the open nodes
      and the candidate list the semantic ones, each with its own attributes and with the
      space-joined text it received while it was innermost. */
  lemma {:induction false} ParserFollowsHistory(events: seq<Event>)
    ensures Described(events)
  {
    if events == [] {
    } else {
      var front, e := events[..|events| - 1], events[|events| - 1];
      ParserFollowsHistory(front);
      assert events == front + [e];
      match e
      case Start(_, _) => StartDescribed(front, e);
      case End => EndDescribed(front);
      case Data(text) =>
        if Strip(text) == "" || Run(front).stack == [] { DataIgnored(front, e); } else { DataDescribed(front, e); }
    }
  }

  /** Candidates keep document order, and a semantic element that is still open is on the stack and
      in the candidate list with the same contents. */
  lemma StackAndCandidatesAgree(events: seq<Event>)
    ensures var st := Run(events);
            && (forall j, k :: 0 <= j < k < |st.candidates| ==> st.candidates[j].index < st.candidates[k].index)
            && (forall k :: 0 <= k < |st.candidates| ==> 1 <= st.candidates[k].index <= st.nodeCount)
            && (forall j, k :: 0 <= j < |st.stack| && 0 <= k < |st.candidates| ==>
                  (st.stack[j].index == st.candidates[k].index ==> st.stack[j] == st.candidates[k]))
  {
    var st := Run(events);
    ParserFollowsHistory(events);
    HistoryShape(events, 0);
    DescribedInOrder(events, Semantic(events), st.candidates);
    SameNodeSameCandidate(events, Open(events), st.stack, Semantic(events), st.candidates);
  }

  lemma DescribedInOrder(events: seq<Event>, ids: seq<nat>, cs: seq<Candidate>)
    requires Describes(events, ids, cs) && Increasing(ids, |Starts(events)|)
    ensures forall k :: 0 <= k < |cs| ==> cs[k].index == ids[k] && 1 <= cs[k].index <= |Starts(events)|
    ensures forall j, k :: 0 <= j < k < |cs| ==> cs[j].index < cs[k].index
  {}

  lemma SameNodeSameCandidate(
    events: seq<Event>, ids: seq<nat>, cs: seq<Candidate>, otherIds: seq<nat>, others: seq<Candidate>)
    requires Describes(events, ids, cs) && Describes(events, otherIds, others)
    ensures forall j, k :: 0 <= j < |cs| && 0 <= k < |others| ==>
              (cs[j].index == others[k].index ==> cs[j] == others[k])
  {
    forall j, k | 0 <= j < |cs| && 0 <= k < |others| && cs[j].index == others[k].index
      ensures cs[j] == others[k]
    {
      assert cs[j] == Node(events, ids[j]) && others[k] == Node(events, otherIds[k]);
    }
  }

  // ----- the DOM context bundle --------------------------------------------------------------

  function RetainedCount(st: State): nat { |if |st.candidates| <= 12 then st.candidates else st.candidates[..12]| }

  function OriginalCount(st: State): int { Max(st.nodeCount, RetainedCount(st)) }

  lemma {:induction false} IncreasingIsShort(ids: seq<nat>, max: nat)
    requires Increasing(ids, max)
    ensures |ids| <= max
  {
    if ids != [] {
      var front, last := ids[..|ids| - 1], ids[|ids| - 1];
      assert 1 <= last <= max;
      forall k | 0 <= k < |front| ensures 1 <= front[k] <= last - 1 { assert ids[k] < ids[|ids| - 1]; }
      IncreasingIsShort(front, last - 1);
    }
  }

  /** The reported original count is the true number of elements, and pruning never adds any. */
  lemma PruningShrinks(events: seq<Event>)
    ensures var st := Run(events);
            OriginalCount(st) == |Starts(events)| && RetainedCount(st) <= Min(12, |Starts(events)|)
  {
    ParserFollowsHistory(events);
    HistoryShape(events, 0);
    IncreasingIsShort(Semantic(events), |Starts(events)|);
  }
}
