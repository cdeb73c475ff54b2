/** The tool gateway: an allowlist, per-actor quotas over calls and cost, and an audit row for every
    decision. Its guarantees hold over whole command sequences, however actors interleave. */
module ToolGateway {
  import opened Basics

  datatype Command = Command(id: string, commandType: string, actor: string)

  datatype Policy = Policy(
    allowed: set<string>, maxCalls: int, maxCost: int, costPerCall: map<string, int>)

  /** Rejections carry the prospective total that broke the cap. */
  datatype Rejection = UnknownTool | QuotaExceededCalls(reached: int) | QuotaExceededCost(reached: int)

  datatype Verdict = Committed | Rejected(reason: Rejection)

  datatype Result = Result(commandId: string, verdict: Verdict)

  datatype AuditRow = AuditRow(command: Command, verdict: Verdict)

  datatype Quota = Quota(calls: int, cost: int)

  datatype State = State(quotas: map<string, Quota>, audit: seq<AuditRow>)

  function Cost(policy: Policy, command: Command): int {
    if command.commandType in policy.costPerCall then policy.costPerCall[command.commandType] else 0
  }

  function QuotaOf(quotas: map<string, Quota>, actor: string): Quota {
    if actor in quotas then quotas[actor] else Quota(0, 0)
  }

  /** The verdict on a command depends on its actor's quota only. */
  function Judge(policy: Policy, quota: Quota, command: Command): Verdict {
    if command.commandType !in policy.allowed then Rejected(UnknownTool)
    else if quota.calls + 1 > policy.maxCalls then Rejected(QuotaExceededCalls(quota.calls + 1))
    else if quota.cost + Cost(policy, command) > policy.maxCost then
      Rejected(QuotaExceededCost(quota.cost + Cost(policy, command)))
    else Committed
  }

  function Charge(policy: Policy, quota: Quota, command: Command): Quota {
    Quota(quota.calls + 1, quota.cost + Cost(policy, command))
  }

  /** One `execute` in policy mode. A command on the allowlist leaves its actor an entry even when
      the quota rejects it. */
  function Step(policy: Policy, st: State, command: Command): State {
    var quota := QuotaOf(st.quotas, command.actor);
    var verdict := Judge(policy, quota, command);
    State(
      if command.commandType !in policy.allowed then st.quotas
      else st.quotas[command.actor := if verdict.Committed? then Charge(policy, quota, command) else quota],
      st.audit + [AuditRow(command, verdict)])
  }

  const FRESH := State(map[], [])

  /** The state after a sequence of commands on a fresh gateway. */
  function Run(policy: Policy, commands: seq<Command>): State {
    if commands == [] then FRESH
    else Step(policy, Run(policy, commands[..|commands| - 1]), commands[|commands| - 1])
  }

  class InMemoryToolGateway {
    const policy: Option<Policy>
    var quotas: map<string, Quota>
    var audit: seq<AuditRow>

    function Now(): State reads this { State(quotas, audit) }

    constructor (policy: Option<Policy>)
      ensures this.policy == policy && Now() == FRESH
    {
      this.policy, quotas, audit := policy, map[], [];
    }

    method Execute(command: Command) returns (result: Result)
      modifies this
      ensures policy.None? ==> Now() == old(Now()) && result == Result(command.id, Committed)
      ensures policy.Some? ==> Now() == Step(policy.value, old(Now()), command)
      ensures policy.Some? ==> audit == old(audit) + [AuditRow(command, result.verdict)]
      ensures result.commandId == command.id
    {
      if policy.None? {
        return Result(command.id, Committed);
      }
      var p := policy.value;
      if command.commandType !in p.allowed {
        result := Reject(command, UnknownTool);
        return;
      }
      var state := QuotaOf(quotas, command.actor);
      quotas := quotas[command.actor := state];
      var prospectiveCalls := state.calls + 1;
      if prospectiveCalls > p.maxCalls {
        result := Reject(command, QuotaExceededCalls(prospectiveCalls));
        return;
      }
      var cost := if command.commandType in p.costPerCall then p.costPerCall[command.commandType] else 0;
      var prospectiveCost := state.cost + cost;
      if prospectiveCost > p.maxCost {
        result := Reject(command, QuotaExceededCost(prospectiveCost));
        return;
      }
      quotas := quotas[command.actor := Quota(prospectiveCalls, prospectiveCost)];
      audit := audit + [AuditRow(command, Committed)];
      return Result(command.id, Committed);
    }

    method Reject(command: Command, reason: Rejection) returns (result: Result)
      modifies this`audit
      ensures audit == old(audit) + [AuditRow(command, Rejected(reason))]
      ensures result == Result(command.id, Rejected(reason))
    {
      audit := audit + [AuditRow(command, Rejected(reason))];
      return Result(command.id, Rejected(reason));
    }
  }

  // ----- whole runs --------------------------------------------------------------------------

  function OfActor(commands: seq<Command>, actor: string): seq<Command> {
    if commands == [] then []
    else
      var last := commands[|commands| - 1];
      OfActor(commands[..|commands| - 1], actor) + if last.actor == actor then [last] else []
  }

  function RowsOf(audit: seq<AuditRow>, actor: string): seq<AuditRow> {
    if audit == [] then []
    else
      var last := audit[|audit| - 1];
      RowsOf(audit[..|audit| - 1], actor) + if last.command.actor == actor then [last] else []
  }

  lemma RowsOfSnoc(audit: seq<AuditRow>, row: AuditRow, actor: string)
    ensures RowsOf(audit + [row], actor) == RowsOf(audit, actor) + if row.command.actor == actor then [row] else []
  {
    assert (audit + [row])[..|audit|] == audit;
  }

  lemma RunSnoc(policy: Policy, commands: seq<Command>, command: Command)
    ensures Run(policy, commands + [command]) == Step(policy, Run(policy, commands), command)
  {
    assert (commands + [command])[..|commands|] == commands;
  }

  /** Interleaving does not matter to an actor: its quota, whether it has an entry at all, and its
      audit rows with their verdicts are those of running its own commands on a fresh gateway. */
  lemma {:induction false} ActorIndependence(policy: Policy, commands: seq<Command>, actor: string)
    ensures var all, own := Run(policy, commands), Run(policy, OfActor(commands, actor));
            && RowsOf(all.audit, actor) == own.audit
            && QuotaOf(all.quotas, actor) == QuotaOf(own.quotas, actor)
            && (actor in all.quotas <==> actor in own.quotas)
  {
    if commands != [] {
      var front, last := commands[..|commands| - 1], commands[|commands| - 1];
      ActorIndependence(policy, front, actor);
      StepSeenBy(policy, Run(policy, front), Run(policy, OfActor(front, actor)), last, actor);
      if last.actor == actor {
        RunSnoc(policy, OfActor(front, actor), last);
      } else {
        assert OfActor(commands, actor) == OfActor(front, actor);
      }
    }
  }

  /** One step, seen by `actor`: its own command moves both runs alike, another's moves neither. */
  lemma StepSeenBy(policy: Policy, all: State, own: State, command: Command, actor: string)
    requires RowsOf(all.audit, actor) == own.audit && QuotaOf(all.quotas, actor) == QuotaOf(own.quotas, actor)
    requires actor in all.quotas <==> actor in own.quotas
    ensures var after := Step(policy, all, command);
            var ownAfter := if command.actor == actor then Step(policy, own, command) else own;
            && RowsOf(after.audit, actor) == ownAfter.audit
            && QuotaOf(after.quotas, actor) == QuotaOf(ownAfter.quotas, actor)
            && (actor in after.quotas <==> actor in ownAfter.quotas)
  {
    RowsOfSnoc(all.audit, AuditRow(command, Judge(policy, QuotaOf(all.quotas, command.actor), command)), actor);
  }

  /** The audit has one row per command, in order. */
  lemma {:induction false} OneRowPerCommand(policy: Policy, commands: seq<Command>)
    ensures var audit := Run(policy, commands).audit;
            |audit| == |commands| && forall i :: 0 <= i < |audit| ==> audit[i].command == commands[i]
  {
    if commands != [] {
      OneRowPerCommand(policy, commands[..|commands| - 1]);
    }
  }

  /** The commands that were committed, in order. */
  function CommittedOf(audit: seq<AuditRow>): seq<Command> {
    if audit == [] then []
    else
      var last := audit[|audit| - 1];
      CommittedOf(audit[..|audit| - 1]) + if last.verdict.Committed? then [last.command] else []
  }

  lemma CommittedSnoc(audit: seq<AuditRow>, row: AuditRow)
    ensures CommittedOf(audit + [row]) == CommittedOf(audit) + if row.verdict.Committed? then [row.command] else []
  {
    assert (audit + [row])[..|audit|] == audit;
  }

  ghost predicate SameQuotas(a: map<string, Quota>, b: map<string, Quota>) {
    forall actor :: QuotaOf(a, actor) == QuotaOf(b, actor)
  }

  lemma StepsInStep(policy: Policy, a: State, b: State, command: Command)
    requires SameQuotas(a.quotas, b.quotas)
    ensures SameQuotas(Step(policy, a, command).quotas, Step(policy, b, command).quotas)
    ensures Judge(policy, QuotaOf(a.quotas, command.actor), command)
         == Judge(policy, QuotaOf(b.quotas, command.actor), command)
  {
    assert QuotaOf(a.quotas, command.actor) == QuotaOf(b.quotas, command.actor);
    var a', b' := Step(policy, a, command).quotas, Step(policy, b, command).quotas;
    forall actor ensures QuotaOf(a', actor) == QuotaOf(b', actor) {
      assert QuotaOf(a.quotas, actor) == QuotaOf(b.quotas, actor);
    }
  }

  lemma RejectionKeepsQuotas(policy: Policy, st: State, command: Command)
    requires Judge(policy, QuotaOf(st.quotas, command.actor), command).Rejected?
    ensures SameQuotas(Step(policy, st, command).quotas, st.quotas)
  {}

  lemma SameQuotasTransitive(a: map<string, Quota>, b: map<string, Quota>, c: map<string, Quota>)
    requires SameQuotas(a, b) && SameQuotas(b, c)
    ensures SameQuotas(a, c)
  {
    forall actor ensures QuotaOf(a, actor) == QuotaOf(c, actor) {
      assert QuotaOf(a, actor) == QuotaOf(b, actor);
    }
  }

  /** Rejected commands leave no trace but their audit rows: replaying only the committed commands
      commits all of them and ends in the same quotas, up to entries that are still zero. */
  lemma {:induction false} RejectionsDoNotCount(policy: Policy, commands: seq<Command>)
    ensures var all := Run(policy, commands);
            var replay := Run(policy, CommittedOf(all.audit));
            && SameQuotas(all.quotas, replay.quotas)
            && CommittedOf(replay.audit) == CommittedOf(all.audit)
  {
    if commands != [] {
      var front, last := commands[..|commands| - 1], commands[|commands| - 1];
      RejectionsDoNotCount(policy, front);
      var before := Run(policy, front);
      var kept := CommittedOf(before.audit);
      var replay := Run(policy, kept);
      var verdict := Judge(policy, QuotaOf(before.quotas, last.actor), last);
      CommittedSnoc(before.audit, AuditRow(last, verdict));
      StepsInStep(policy, before, replay, last);
      if verdict.Committed? {
        RunSnoc(policy, kept, last);
        CommittedSnoc(replay.audit, AuditRow(last, verdict));
      } else {
        assert kept + [] == kept;
        RejectionKeepsQuotas(policy, before, last);
        SameQuotasTransitive(Run(policy, commands).quotas, before.quotas, replay.quotas);
      }
    }
  }

  /** What the committed rows of `actor` add up to. */
  function Tally(policy: Policy, audit: seq<AuditRow>, actor: string): Quota {
    if audit == [] then Quota(0, 0)
    else
      var last := audit[|audit| - 1];
      var before := Tally(policy, audit[..|audit| - 1], actor);
      if last.command.actor == actor && last.verdict.Committed? then Charge(policy, before, last.command) else before
  }

  lemma TallySnoc(policy: Policy, audit: seq<AuditRow>, row: AuditRow, actor: string)
    ensures Tally(policy, audit + [row], actor)
         == if row.command.actor == actor && row.verdict.Committed?
            then Charge(policy, Tally(policy, audit, actor), row.command) else Tally(policy, audit, actor)
  {
    assert (audit + [row])[..|audit|] == audit;
  }

  /** The audit log is the ground truth: each actor's quota is the sum of its committed rows. */
  lemma {:induction false} AuditIsGroundTruth(policy: Policy, commands: seq<Command>, actor: string)
    ensures var st := Run(policy, commands); QuotaOf(st.quotas, actor) == Tally(policy, st.audit, actor)
  {
    if commands != [] {
      var front, last := commands[..|commands| - 1], commands[|commands| - 1];
      AuditIsGroundTruth(policy, front, actor);
      var before := Run(policy, front);
      TallySnoc(policy, before.audit, AuditRow(last, Judge(policy, QuotaOf(before.quotas, last.actor), last)), actor);
    }
  }

  ghost predicate Touched(audit: seq<AuditRow>, actor: string) {
    exists i :: 0 <= i < |audit| && audit[i].command.actor == actor && audit[i].verdict.Committed?
  }

  ghost predicate WithinCaps(policy: Policy, quota: Quota) {
    quota.calls <= policy.maxCalls && quota.cost <= policy.maxCost
  }

  /** An actor that had a command committed stays within both caps, whatever the caps are; one that
      had none has spent nothing, which is within them exactly when they are not negative. */
  lemma {:induction false} QuotasStayWithinCaps(policy: Policy, commands: seq<Command>, actor: string)
    ensures var st := Run(policy, commands); var quota := QuotaOf(st.quotas, actor);
            && (Touched(st.audit, actor) ==> WithinCaps(policy, quota))
            && (!Touched(st.audit, actor) ==> quota == Quota(0, 0))
            && (policy.maxCalls >= 0 && policy.maxCost >= 0 ==> WithinCaps(policy, quota))
  {
    if commands != [] {
      var front, last := commands[..|commands| - 1], commands[|commands| - 1];
      QuotasStayWithinCaps(policy, front, actor);
      var before, after := Run(policy, front), Run(policy, commands);
      var n := |before.audit|;
      assert forall i :: 0 <= i < n ==> after.audit[i] == before.audit[i];
      assert after.audit[n] == AuditRow(last, Judge(policy, QuotaOf(before.quotas, last.actor), last));
      if Touched(before.audit, actor) {
        var i :| 0 <= i < n && before.audit[i].command.actor == actor && before.audit[i].verdict.Committed?;
        assert after.audit[i] == before.audit[i];
      }
    }
  }
}
