/** The credential lifecycle of one agent run: scopes are resolved on entry, uses are counted while
    entered, and the cleanup callback runs on exit whatever else fails. */
module CredentialLifecycle {
  import opened Basics

  type Ref = string

  datatype Scope = Scope(id: string)

  datatype Phase = Constructed | Entered | Exited

  /** A registry answers by the number of the request and the ref, so it may answer a repeated ref
      differently; `None` is an exception. */
  type Registry = (nat, Ref) -> Option<Scope>

  /** What the collaborators of `__enter__` do. A raising registry, a naive or raising clock and a
      raising logger are all failures. */
  datatype EnterWorld = EnterWorld(resolve: Registry, clockOk: bool, logOk: bool)

  /** What the collaborators of `__exit__` do. The fallback error log is assumed not to raise. */
  datatype ExitWorld = ExitWorld(callbackOk: bool, clockOk: bool, logOk: bool)

  datatype AuditEvent =
    | SessionStarted(scopes: seq<Scope>)
    | SessionEnded(uses: nat, withException: bool, cleanupSucceeded: bool)
    | EndEmitFailed(withException: bool, cleanupSucceeded: bool)
    | CallbackFailed(masked: bool)

  datatype EnterResult = Ok | ReentryError | RegistryError | ClockError | LogError

  datatype State = State(
    phase: Phase, scopes: seq<Scope>, scopeByRef: map<Ref, Scope>, uses: nat,
    callbacks: seq<seq<Scope>>, events: seq<AuditEvent>)

  const FRESH := State(Constructed, [], map[], 0, [], [])

  /** The scopes of `refs` in request order; `None` when some ref does not resolve. */
  function ResolveAll(resolve: Registry, refs: seq<Ref>): Option<seq<Scope>> {
    if refs == [] then Some([])
    else
      match ResolveAll(resolve, refs[..|refs| - 1])
      case None => None
      case Some(front) =>
        var last := resolve(|refs| - 1, refs[|refs| - 1]);
        if last.None? then None else Some(front + [last.value])
  }

  /** `scope_by_ref`: of a repeated ref the last answer stays. */
  function ByRef(resolve: Registry, refs: seq<Ref>): map<Ref, Scope>
    requires ResolveAll(resolve, refs).Some?
  {
    if refs == [] then map[]
    else
      var last := refs[|refs| - 1];
      ByRef(resolve, refs[..|refs| - 1])[last := resolve(|refs| - 1, last).value]
  }

  function Enter(refs: seq<Ref>, st: State, world: EnterWorld): (State, EnterResult) {
    if st.phase != Constructed then (st, ReentryError)
    else
      match ResolveAll(world.resolve, refs)
      case None => (st, RegistryError)
      case Some(scopes) =>
        if !world.clockOk then (st, ClockError)
        else if !world.logOk then (st, LogError)
        else (st.(phase := Entered, scopes := scopes, scopeByRef := ByRef(world.resolve, refs),
                  events := st.events + [SessionStarted(scopes)]), Ok)
  }

  /** The new state and whether LifecycleEndCallbackError is raised. */
  function Exit(st: State, world: ExitWorld, withException: bool): (State, bool) {
    var end := if world.clockOk && world.logOk then SessionEnded(st.uses, withException, world.callbackOk)
               else EndEmitFailed(withException, world.callbackOk);
    var failed := if world.callbackOk then [] else [CallbackFailed(withException)];
    (st.(phase := Exited, callbacks := st.callbacks + [st.scopes], events := st.events + [end] + failed),
     !world.callbackOk && !withException)
  }

  /** The new state and whether the use was accepted. */
  function RecordUse(st: State): (State, bool) {
    if st.phase == Entered then (st.(uses := st.uses + 1), true) else (st, false)
  }

  /** What `scope_for` finds; `None` stands for the KeyError. */
  function FindScope(st: State, ref: Ref): Option<Scope> {
    if ref in st.scopeByRef then Some(st.scopeByRef[ref]) else None
  }

  class AgentCredentialLifecycle {
    const refs: seq<Ref>
    var phase: Phase
    var scopes: seq<Scope>
    var scopeByRef: map<Ref, Scope>
    var useCount: nat
    var callbacks: seq<seq<Scope>>
    var events: seq<AuditEvent>

    function Now(): State reads this { State(phase, scopes, scopeByRef, useCount, callbacks, events) }

    constructor (refs: seq<Ref>)
      ensures this.refs == refs && Now() == FRESH
    {
      this.refs, phase, scopes, scopeByRef, useCount := refs, Constructed, [], map[], 0;
      callbacks, events := [], [];
    }

    method EnterContext(world: EnterWorld) returns (result: EnterResult)
      modifies this
      ensures (Now(), result) == Enter(refs, old(Now()), world)
    {
      if phase != Constructed { return ReentryError; }
      var resolved: seq<Scope> := [];
      var byRef: map<Ref, Scope> := map[];
      for i := 0 to |refs|
        invariant ResolveAll(world.resolve, refs[..i]) == Some(resolved)
        invariant byRef == ByRef(world.resolve, refs[..i])
      {
        assert refs[..i + 1][..i] == refs[..i];
        var scope := world.resolve(i, refs[i]);
        if scope.None? {
          UnresolvedStays(world.resolve, refs, i + 1);
          return RegistryError;
        }
        resolved := resolved + [scope.value];
        byRef := byRef[refs[i] := scope.value];
      }
      assert refs[..|refs|] == refs;
      if !world.clockOk { return ClockError; }
      if !world.logOk { return LogError; }
      events := events + [SessionStarted(resolved)];
      scopes, scopeByRef, phase := resolved, byRef, Entered;
      return Ok;
    }

    method ExitContext(world: ExitWorld, withException: bool) returns (raised: bool)
      modifies this
      ensures (Now(), raised) == Exit(old(Now()), world, withException)
    {
      callbacks := callbacks + [scopes];
      var callbackFailed := !world.callbackOk;
      phase := Exited;
      if world.clockOk && world.logOk {
        events := events + [SessionEnded(useCount, withException, !callbackFailed)];
      } else {
        events := events + [EndEmitFailed(withException, !callbackFailed)];
      }
      if callbackFailed {
        events := events + [CallbackFailed(withException)];
        if !withException { return true; }
      } else {
        assert events + [] == events;
      }
      return false;
    }

    method RecordCredentialUse() returns (accepted: bool)
      modifies this
      ensures (Now(), accepted) == RecordUse(old(Now()))
    {
      if phase != Entered { return false; }
      useCount := useCount + 1;
      return true;
    }

    method ScopeFor(ref: Ref) returns (scope: Option<Scope>)
      ensures scope == FindScope(Now(), ref)
    {
      if ref !in scopeByRef { return None; }
      return Some(scopeByRef[ref]);
    }
  }

  lemma {:induction false} UnresolvedStays(resolve: Registry, refs: seq<Ref>, i: nat)
    requires i <= |refs| && ResolveAll(resolve, refs[..i]).None?
    ensures ResolveAll(resolve, refs).None?
  {
    if i == |refs| {
      assert refs[..i] == refs;
    } else {
      assert refs[..|refs| - 1][..i] == refs[..i];
      UnresolvedStays(resolve, refs[..|refs| - 1], i);
    }
  }

  // ----- one `with` statement ----------------------------------------------------------------

  /** Everything outside the class's control in one `with` statement: uses attempted before it, in
      its body and after it, and whether the body raises. */
  datatype Script = Script(
    before: nat, enter: EnterWorld, inside: nat, bodyRaises: bool, exit: ExitWorld, after: nat)

  datatype Ending = Clean | EnterRaised(result: EnterResult) | BodyRaised | CallbackRaised

  /** `n` attempts to record a use: the new state and how many were accepted. */
  function Uses(st: State, n: nat): (State, nat)
    decreases n
  {
    if n == 0 then (st, 0)
    else
      var (st', ok) := RecordUse(st);
      var (st'', accepted) := Uses(st', n - 1);
      (st'', accepted + if ok then 1 else 0)
  }

  /** The final state, how many uses were accepted, and how the statement ended. */
  function WithStatement(refs: seq<Ref>, script: Script): (State, nat, Ending) {
    var (st0, a) := Uses(FRESH, script.before);
    var (st1, result) := Enter(refs, st0, script.enter);
    if result != Ok then
      var (st2, c) := Uses(st1, script.after);
      (st2, a + c, EnterRaised(result))
    else
      var (st2, b) := Uses(st1, script.inside);
      var (st3, raised) := Exit(st2, script.exit, script.bodyRaises);
      var (st4, c) := Uses(st3, script.after);
      (st4, a + b + c, if script.bodyRaises then BodyRaised else if raised then CallbackRaised else Clean)
  }

  lemma {:induction false} UsesCount(st: State, n: nat)
    ensures Uses(st, n) == if st.phase == Entered then (st.(uses := st.uses + n), n) else (st, 0)
    decreases n
  {
    if n > 0 {
      UsesCount(RecordUse(st).0, n - 1);
    }
  }

  ghost predicate ResolvedTo(resolve: Registry, refs: seq<Ref>, scopes: seq<Scope>) {
    |scopes| == |refs| && forall i :: 0 <= i < |refs| ==> resolve(i, refs[i]) == Some(scopes[i])
  }

  /** The map holds exactly the requested refs, each with the scope of its last occurrence. */
  ghost predicate MapsLast(refs: seq<Ref>, scopes: seq<Scope>, byRef: map<Ref, Scope>) {
    && |scopes| == |refs|
    && (forall r :: r in byRef <==> r in refs)
    && (forall i :: 0 <= i < |refs| && refs[i] !in refs[i + 1..] ==> refs[i] in byRef && byRef[refs[i]] == scopes[i])
  }

  /** `scope_for` finds exactly the requested refs, each with the answer to its last occurrence. */
  ghost predicate FindsAnswers(resolve: Registry, refs: seq<Ref>, st: State) {
    && (forall ref :: FindScope(st, ref).Some? <==> ref in refs)
    && (forall i :: 0 <= i < |refs| && refs[i] !in refs[i + 1..] ==> FindScope(st, refs[i]) == resolve(i, refs[i]))
  }

  lemma MapsLastSnoc(refs: seq<Ref>, scopes: seq<Scope>, byRef: map<Ref, Scope>, ref: Ref, scope: Scope)
    requires MapsLast(refs, scopes, byRef)
    ensures MapsLast(refs + [ref], scopes + [scope], byRef[ref := scope])
  {
    var all := refs + [ref];
    forall i | 0 <= i < |all| && all[i] !in all[i + 1..]
      ensures all[i] in byRef[ref := scope] && byRef[ref := scope][all[i]] == (scopes + [scope])[i]
    {
      if i < |refs| {
        assert all[i + 1..] == refs[i + 1..] + [ref];
        assert refs[i] !in refs[i + 1..] && refs[i] != ref;
      }
    }
  }

  lemma {:induction false} ResolvedInOrder(resolve: Registry, refs: seq<Ref>)
    requires ResolveAll(resolve, refs).Some?
    ensures ResolvedTo(resolve, refs, ResolveAll(resolve, refs).value)
    ensures MapsLast(refs, ResolveAll(resolve, refs).value, ByRef(resolve, refs))
  {
    if refs != [] {
      var front, last := refs[..|refs| - 1], refs[|refs| - 1];
      ResolvedInOrder(resolve, front);
      MapsLastSnoc(front, ResolveAll(resolve, front).value, ByRef(resolve, front), last, resolve(|front|, last).value);
      assert front + [last] == refs;
    }
  }

  /** After a successful entry the scopes are the registry's answers in request order. */
  lemma ScopesOfEntry(refs: seq<Ref>, st: State, world: EnterWorld)
    requires Enter(refs, st, world).1 == Ok
    ensures var after := Enter(refs, st, world).0;
            ResolvedTo(world.resolve, refs, after.scopes) && FindsAnswers(world.resolve, refs, after)
  {
    ResolvedInOrder(world.resolve, refs);
  }

  /** In every `with` run, whatever registry, clock, logs, body and callback do: the callback runs
      once when entry succeeded and never otherwise, on the resolved scopes in request order; the
      count equals the accepted uses and is what the end event reports; and the callback's failure
      is raised exactly when the body did not raise. */
  lemma ExactlyOnceCleanup(refs: seq<Ref>, script: Script)
    ensures var (st, accepted, ending) := WithStatement(refs, script);
            var entered := Enter(refs, FRESH, script.enter).1 == Ok;
            && |st.callbacks| == (if entered then 1 else 0)
            && (entered ==> ResolvedTo(script.enter.resolve, refs, st.callbacks[0]))
            && st.uses == accepted == (if entered then script.inside else 0)
            && (entered && script.exit.clockOk && script.exit.logOk ==>
                  SessionEnded(accepted, script.bodyRaises, script.exit.callbackOk) in st.events)
            && (ending == CallbackRaised <==> entered && !script.exit.callbackOk && !script.bodyRaises)
            && (ending == BodyRaised <==> entered && script.bodyRaises)
            && st.phase == (if entered then Exited else Constructed)
  {
    UsesCount(FRESH, script.before);
    var (st1, result) := Enter(refs, FRESH, script.enter);
    if result == Ok {
      ResolvedInOrder(script.enter.resolve, refs);
      UsesCount(st1, script.inside);
      var (st3, raised) := Exit(Uses(st1, script.inside).0, script.exit, script.bodyRaises);
      UsesCount(st3, script.after);
    } else {
      UsesCount(st1, script.after);
    }
  }

  // ----- any use of the object ---------------------------------------------------------------

  datatype Call = UseCall | EnterCall(enter: EnterWorld) | ExitCall(exit: ExitWorld, withException: bool)

  function Perform(refs: seq<Ref>, st: State, call: Call): State {
    match call
    case UseCall => RecordUse(st).0
    case EnterCall(world) => Enter(refs, st, world).0
    case ExitCall(world, e) => Exit(st, world, e).0
  }

  function RunCalls(refs: seq<Ref>, calls: seq<Call>): State {
    if calls == [] then FRESH
    else Perform(refs, RunCalls(refs, calls[..|calls| - 1]), calls[|calls| - 1])
  }

  function Accepted(refs: seq<Ref>, calls: seq<Call>): nat {
    if calls == [] then 0
    else
      var front := calls[..|calls| - 1];
      Accepted(refs, front)
      + if calls[|calls| - 1].UseCall? && RunCalls(refs, front).phase == Entered then 1 else 0
  }

  function Exits(calls: seq<Call>): nat {
    if calls == [] then 0
    else Exits(calls[..|calls| - 1]) + if calls[|calls| - 1].ExitCall? then 1 else 0
  }

  function Entries(refs: seq<Ref>, calls: seq<Call>): nat {
    if calls == [] then 0
    else
      var front, last := calls[..|calls| - 1], calls[|calls| - 1];
      Entries(refs, front)
      + if last.EnterCall? && Enter(refs, RunCalls(refs, front), last.enter).1 == Ok then 1 else 0
  }

  /** Under any sequence of calls, in and out of order, the object is entered at most once, and never
      again after an exit; the count equals the uses accepted while entered; and the callback has run
      once per exit call, so only the `with` statement's own discipline makes that once. */
  lemma {:induction false} AnyCallSequence(refs: seq<Ref>, calls: seq<Call>)
    ensures var st := RunCalls(refs, calls);
            && st.uses == Accepted(refs, calls)
            && |st.callbacks| == Exits(calls)
            && Entries(refs, calls) <= 1
            && (st.phase == Constructed ==> Entries(refs, calls) == 0 && Exits(calls) == 0 && st.uses == 0)
            && (st.phase == Entered ==> Entries(refs, calls) == 1 && Exits(calls) == 0)
            && (st.phase == Exited ==> Exits(calls) >= 1)
  {
    if calls != [] {
      AnyCallSequence(refs, calls[..|calls| - 1]);
    }
  }

  /** Until an entry succeeds there are no scopes, and `scope_for` finds nothing. */
  lemma {:induction false} NothingBeforeEntry(refs: seq<Ref>, calls: seq<Call>)
    requires Entries(refs, calls) == 0
    ensures var st := RunCalls(refs, calls);
            st.scopes == [] && st.scopeByRef == map[] && forall ref :: FindScope(st, ref) == None
  {
    if calls != [] {
      var front, last := calls[..|calls| - 1], calls[|calls| - 1];
      assert Entries(refs, calls) >= Entries(refs, front);
      NothingBeforeEntry(refs, front);
    }
  }

  /** No call after a successful entry touches the scopes. */
  lemma {:induction false} ScopesStay(refs: seq<Ref>, entered: seq<Call>, rest: seq<Call>)
    requires RunCalls(refs, entered).phase != Constructed
    ensures var (st, after) := (RunCalls(refs, entered), RunCalls(refs, entered + rest));
            after.phase != Constructed && after.scopes == st.scopes && after.scopeByRef == st.scopeByRef
    decreases |rest|
  {
    if rest == [] {
      assert entered + rest == entered;
    } else {
      ScopesStay(refs, entered, rest[..|rest| - 1]);
      assert (entered + rest)[..|entered + rest| - 1] == entered + rest[..|rest| - 1];
    }
  }

  /** Whatever was called before the one successful entry and is called after it, the scopes are the
      answers of that entry's registry, and `scope_for` finds them. */
  lemma ScopesAreKept(refs: seq<Ref>, front: seq<Call>, world: EnterWorld, rest: seq<Call>)
    requires Enter(refs, RunCalls(refs, front), world).1 == Ok
    ensures var st := RunCalls(refs, front + [EnterCall(world)] + rest);
            ResolvedTo(world.resolve, refs, st.scopes) && FindsAnswers(world.resolve, refs, st)
  {
    var entered := front + [EnterCall(world)];
    assert entered[..|entered| - 1] == front;
    ScopesOfEntry(refs, RunCalls(refs, front), world);
    ScopesStay(refs, entered, rest);
  }
}
