/** Accounting of seeded repair cases: the generator, the counts and rates of the report, its gates,
    and the latency percentile. Rates are exact reals, and `0.95 * n` is the exact fraction 19n/20. */
module RepairAccounting {
  import opened Basics
  import opened GeneratedRuns
  import opened Sorting

  datatype Outcome = Repaired | RollbackApplied | FailedSafe | Escalated | NonRepairablePolicy | FailedUnsafe

  const ORDER: seq<Outcome> := [Repaired, RollbackApplied, FailedSafe, Escalated, NonRepairablePolicy, FailedUnsafe]

  datatype Manifest = Manifest(
    repaired: int, rolledBack: int, failedSafe: int, escalated: int, nonRepairable: int, failedUnsafe: int)
  {
    function Asked(outcome: Outcome): nat {
      Max(0, match outcome
        case Repaired => repaired
        case RollbackApplied => rolledBack
        case FailedSafe => failedSafe
        case Escalated => escalated
        case NonRepairablePolicy => nonRepairable
        case FailedUnsafe => failedUnsafe)
    }
  }

  /** The id carries the index, which tells cases apart. */
  datatype Case = Case(id: nat, outcome: Outcome, repairable: bool, critical: bool)

  datatype Attempt = Attempt(caseId: nat, outcome: Outcome, unsafeBypass: bool, latencyMs: int)

  // ----- the generators ----------------------------------------------------------------------

  function GeneratedCase(index: nat, outcome: Outcome): Case {
    Case(index, outcome, outcome != NonRepairablePolicy, index % 5 == 0 && outcome != Escalated)
  }

  function CasesOf(outcomes: seq<Outcome>): seq<Case> {
    seq(|outcomes|, i requires 0 <= i < |outcomes| => GeneratedCase(i + 1, outcomes[i]))
  }

  method GenerateCases(m: Manifest) returns (cases: seq<Case>)
    ensures cases == CasesOf(Runs(m.Asked, ORDER))
  {
    cases := [];
    var index := 1;
    for s := 0 to |ORDER|
      invariant cases == CasesOf(Runs(m.Asked, ORDER[..s])) && index == |cases| + 1
    {
      var outcome := ORDER[s];
      ghost var before := Runs(m.Asked, ORDER[..s]);
      for j := 0 to m.Asked(outcome)
        invariant cases == CasesOf(before + Repeat(outcome, j)) && index == |cases| + 1
      {
        cases := cases + [GeneratedCase(index, outcome)];
        index := index + 1;
      }
      assert ORDER[..s + 1][..s] == ORDER[..s];
    }
    assert ORDER[..|ORDER|] == ORDER;
  }

  function AttemptsOf(cases: seq<Case>): seq<Attempt> {
    seq(|cases|, i requires 0 <= i < |cases| => Attempt(cases[i].id, cases[i].outcome, false, 1200 + (i + 1) * 17))
  }

  // ----- the report --------------------------------------------------------------------------

  function RepairableCount(cases: seq<Case>): nat {
    if cases == [] then 0
    else RepairableCount(cases[..|cases| - 1]) + if cases[|cases| - 1].repairable then 1 else 0
  }

  function OutcomeCount(attempts: seq<Attempt>, outcome: Outcome): nat {
    if attempts == [] then 0
    else OutcomeCount(attempts[..|attempts| - 1], outcome) + if attempts[|attempts| - 1].outcome == outcome then 1 else 0
  }

  function RepairedCount(attempts: seq<Attempt>): nat {
    if attempts == [] then 0
    else
      RepairedCount(attempts[..|attempts| - 1])
      + if attempts[|attempts| - 1].outcome in {Repaired, RollbackApplied} then 1 else 0
  }

  function UnsafeCount(attempts: seq<Attempt>): nat {
    if attempts == [] then 0
    else UnsafeCount(attempts[..|attempts| - 1]) + if attempts[|attempts| - 1].unsafeBypass then 1 else 0
  }

  /** `{item.id: item for item in cases}`: of two cases with one id the later one stays. */
  function ById(cases: seq<Case>): map<nat, Case> {
    if cases == [] then map[] else ById(cases[..|cases| - 1])[cases[|cases| - 1].id := cases[|cases| - 1]]
  }

  /** Absent when some attempt names a case that is not there. */
  function CriticalUnresolved(byId: map<nat, Case>, attempts: seq<Attempt>): Option<nat> {
    if attempts == [] then Some(0)
    else
      var last := attempts[|attempts| - 1];
      match CriticalUnresolved(byId, attempts[..|attempts| - 1])
      case None => None
      case Some(n) =>
        if last.caseId !in byId then None
        else Some(n + if byId[last.caseId].critical && last.outcome in {Escalated, FailedSafe, FailedUnsafe} then 1 else 0)
  }

  function SafeRate(numerator: nat, denominator: nat): real {
    if denominator == 0 then 0.0 else numerator as real / denominator as real
  }

  datatype Report = Report(
    repairable: nat, repaired: nat, nonRepairable: nat, escalated: nat, rolledBack: nat, failedSafe: nat,
    failedUnsafe: nat, criticalUnresolved: nat, unsafeBypass: nat, attempts: nat, p95: int)
  {
    function SuccessRate(): real { SafeRate(repaired, repairable) }
    function UnsafeRate(): real { SafeRate(unsafeBypass, attempts) }
    function UnresolvedRate(): real { SafeRate(criticalUnresolved, repairable) }
  }

  function Latencies(attempts: seq<Attempt>): seq<int> {
    seq(|attempts|, i requires 0 <= i < |attempts| => attempts[i].latencyMs)
  }

  function BuildReport(cases: seq<Case>, attempts: seq<Attempt>): Option<Report> {
    match CriticalUnresolved(ById(cases), attempts)
    case None => None
    case Some(critical) =>
      Some(Report(
        RepairableCount(cases), RepairedCount(attempts), OutcomeCount(attempts, NonRepairablePolicy), OutcomeCount(attempts, Escalated),
        OutcomeCount(attempts, RollbackApplied), OutcomeCount(attempts, FailedSafe),
        OutcomeCount(attempts, FailedUnsafe), critical, UnsafeCount(attempts), |attempts|,
        P95(Latencies(attempts))))
  }

  // ----- conservation ------------------------------------------------------------------------

  predicate Failed(outcome: Outcome) { outcome in {FailedSafe, FailedUnsafe} }

  /** Failures on every fifth index: what stays unresolved although critical. */
  function FifthFailures(outcomes: seq<Outcome>): nat {
    if outcomes == [] then 0
    else
      FifthFailures(outcomes[..|outcomes| - 1])
      + if |outcomes| % 5 == 0 && Failed(outcomes[|outcomes| - 1]) then 1 else 0
  }

  lemma {:induction false} ByIdOfCases(outcomes: seq<Outcome>)
    ensures forall id :: id in ById(CasesOf(outcomes)) <==> 1 <= id <= |outcomes|
    ensures forall id :: 1 <= id <= |outcomes| ==> ById(CasesOf(outcomes))[id] == GeneratedCase(id, outcomes[id - 1])
  {
    if outcomes != [] {
      var front := outcomes[..|outcomes| - 1];
      ByIdOfCases(front);
      assert CasesOf(outcomes)[..|front|] == CasesOf(front);
    }
  }

  lemma UnresolvedSnoc(byId: map<nat, Case>, attempts: seq<Attempt>, a: Attempt, n: nat)
    requires CriticalUnresolved(byId, attempts) == Some(n) && a.caseId in byId
    ensures CriticalUnresolved(byId, attempts + [a])
         == Some(n + if byId[a.caseId].critical && a.outcome in {Escalated, FailedSafe, FailedUnsafe} then 1 else 0)
  {
    assert (attempts + [a])[..|attempts|] == attempts;
  }

  lemma {:induction false} CriticalUnresolvedPrefix(byId: map<nat, Case>, outcomes: seq<Outcome>)
    requires forall id :: 1 <= id <= |outcomes| ==> id in byId && byId[id] == GeneratedCase(id, outcomes[id - 1])
    ensures CriticalUnresolved(byId, AttemptsOf(CasesOf(outcomes))) == Some(FifthFailures(outcomes))
  {
    if outcomes != [] {
      var front, last, n := outcomes[..|outcomes| - 1], outcomes[|outcomes| - 1], |outcomes|;
      CriticalUnresolvedPrefix(byId, front);
      AttemptsSnoc(front, last);
      assert front + [last] == outcomes;
      UnresolvedSnoc(byId, AttemptsOf(CasesOf(front)), Attempt(n, last, false, 1200 + n * 17), FifthFailures(front));
      assert byId[n] == GeneratedCase(n, last);
    }
  }

  lemma AttemptsSnoc(front: seq<Outcome>, last: Outcome)
    ensures var n := |front| + 1;
            && CasesOf(front + [last]) == CasesOf(front) + [GeneratedCase(n, last)]
            && AttemptsOf(CasesOf(front + [last])) == AttemptsOf(CasesOf(front)) + [Attempt(n, last, false, 1200 + n * 17)]
  {}

  ghost predicate Balanced(cases: seq<Case>, attempts: seq<Attempt>, failures: nat) {
    && RepairedCount(attempts) == OutcomeCount(attempts, Repaired) + OutcomeCount(attempts, RollbackApplied)
    && RepairableCount(cases)
       == RepairedCount(attempts) + OutcomeCount(attempts, Escalated)
          + OutcomeCount(attempts, FailedSafe) + OutcomeCount(attempts, FailedUnsafe)
    && failures <= OutcomeCount(attempts, FailedSafe) + OutcomeCount(attempts, FailedUnsafe)
    && UnsafeCount(attempts) == 0
  }

  lemma BalancedSnoc(cases: seq<Case>, attempts: seq<Attempt>, failures: nat, c: Case, a: Attempt, more: nat)
    requires Balanced(cases, attempts, failures)
    requires a.outcome == c.outcome && !a.unsafeBypass && (c.repairable <==> c.outcome != NonRepairablePolicy)
    requires more <= if Failed(c.outcome) then 1 else 0
    ensures Balanced(cases + [c], attempts + [a], failures + more)
  {
    assert (cases + [c])[..|cases|] == cases && (attempts + [a])[..|attempts|] == attempts;
  }

  lemma {:induction false} GeneratedBalanced(outcomes: seq<Outcome>)
    ensures Balanced(CasesOf(outcomes), AttemptsOf(CasesOf(outcomes)), FifthFailures(outcomes))
  {
    if outcomes != [] {
      var front, last, n := outcomes[..|outcomes| - 1], outcomes[|outcomes| - 1], |outcomes|;
      GeneratedBalanced(front);
      AttemptsSnoc(front, last);
      assert front + [last] == outcomes;
      BalancedSnoc(CasesOf(front), AttemptsOf(CasesOf(front)), FifthFailures(front), GeneratedCase(n, last),
                   Attempt(n, last, false, 1200 + n * 17), FifthFailures(outcomes) - FifthFailures(front));
    }
  }

  lemma QuotientsAdd(a: real, b: real, d: real)
    requires d > 0.0 && 0.0 <= a && 0.0 <= b && a + b <= d
    ensures 0.0 <= a / d && 0.0 <= b / d && a / d + b / d <= 1.0
  {
    var x, y := a / d, b / d;
    assert x * d == a && y * d == b;
    assert (1.0 - x - y) * d >= 0.0;
  }

  lemma RatesShareTheWhole(a: nat, b: nat, total: nat)
    requires a + b <= total
    ensures SafeRate(a, total) + SafeRate(b, total) <= 1.0
  {
    if total > 0 { QuotientsAdd(a as real, b as real, total as real); }
  }

  /** What the accounting means for the rates. */
  lemma RatesOf(r: Report)
    requires Accounted(r)
    ensures r.UnsafeRate() == 0.0 && r.SuccessRate() + r.UnresolvedRate() <= 1.0
  {
    RatesShareTheWhole(r.repaired, r.criticalUnresolved, r.repairable);
    if r.attempts > 0 { assert 0 as real / r.attempts as real == 0.0; }
  }

  /** Every repairable case is in exactly one outcome count and no bypass is reported. */
  ghost predicate Accounted(r: Report) {
    && r.repairable == r.repaired + r.escalated + r.failedSafe + r.failedUnsafe
    && r.rolledBack <= r.repaired
    && r.criticalUnresolved <= r.failedSafe + r.failedUnsafe
    && r.unsafeBypass == 0
  }

  /** Whatever outcomes are seeded, the report is complete and accounts for every case, and the
      success and unresolved-critical rates share the whole. */
  lemma Conservation(outcomes: seq<Outcome>) returns (r: Report)
    ensures BuildReport(CasesOf(outcomes), AttemptsOf(CasesOf(outcomes))) == Some(r)
    ensures Accounted(r) && r.criticalUnresolved == FifthFailures(outcomes)
    ensures r.UnsafeRate() == 0.0 && r.SuccessRate() + r.UnresolvedRate() <= 1.0
  {
    var cases := CasesOf(outcomes);
    ByIdOfCases(outcomes);
    CriticalUnresolvedPrefix(ById(cases), outcomes);
    GeneratedBalanced(outcomes);
    r := BuildReport(cases, AttemptsOf(cases)).value;
    RatesOf(r);
  }

  // ----- what a manifest gets ----------------------------------------------------------------

  lemma {:induction false} OutcomeMultiplicity(outcomes: seq<Outcome>, outcome: Outcome)
    ensures OutcomeCount(AttemptsOf(CasesOf(outcomes)), outcome) == multiset(outcomes)[outcome]
  {
    if outcomes != [] {
      var front, last := outcomes[..|outcomes| - 1], outcomes[|outcomes| - 1];
      OutcomeMultiplicity(front, outcome);
      AttemptsSnoc(front, last);
      assert front + [last] == outcomes;
      var attempts := AttemptsOf(CasesOf(front));
      var a := Attempt(|outcomes|, last, false, 1200 + |outcomes| * 17);
      assert (attempts + [a])[..|attempts|] == attempts;
    }
  }

  /** Each outcome is attempted exactly as often as the manifest asks. */
  lemma GeneratedOutcomes(m: Manifest, outcome: Outcome)
    ensures OutcomeCount(AttemptsOf(CasesOf(Runs(m.Asked, ORDER))), outcome) == m.Asked(outcome)
  {
    OutcomeMultiplicity(Runs(m.Asked, ORDER), outcome);
    RunsMultiplicity(m.Asked, ORDER, outcome);
    assert outcome in ORDER by {
      assert ORDER[0] == Repaired && ORDER[1] == RollbackApplied && ORDER[2] == FailedSafe;
      assert ORDER[3] == Escalated && ORDER[4] == NonRepairablePolicy && ORDER[5] == FailedUnsafe;
    }
  }

  lemma {:induction false} FifthFailuresOfRun(before: seq<Outcome>, outcome: Outcome, n: nat)
    ensures FifthFailures(before + Repeat(outcome, n))
         == FifthFailures(before) + if Failed(outcome) then (|before| + n) / 5 - |before| / 5 else 0
  {
    if n == 0 {
      assert before + Repeat(outcome, 0) == before;
    } else {
      FifthFailuresOfRun(before, outcome, n - 1);
      var shorter := before + Repeat(outcome, n - 1);
      assert before + Repeat(outcome, n) == shorter + [outcome];
      FifthFailuresSnoc(shorter, outcome);
      QuotientGrows(|shorter|, |before|);
    }
  }

  lemma FifthFailuresSnoc(outcomes: seq<Outcome>, last: Outcome)
    ensures FifthFailures(outcomes + [last])
         == FifthFailures(outcomes) + if (|outcomes| + 1) % 5 == 0 && Failed(last) then 1 else 0
  {
    assert (outcomes + [last])[..|outcomes|] == outcomes;
  }

  lemma QuotientGrows(k: nat, from: nat)
    ensures (k + 1) / 5 - from / 5 == k / 5 - from / 5 + if (k + 1) % 5 == 0 then 1 else 0
  {}

  /** The outcomes of the first `k` runs. */
  ghost function Emitted(m: Manifest, k: nat): seq<Outcome>
    requires k <= |ORDER|
  {
    Runs(m.Asked, ORDER[..k])
  }

  lemma NextRun(m: Manifest, k: nat)
    requires k < |ORDER|
    ensures |Emitted(m, k + 1)| == |Emitted(m, k)| + m.Asked(ORDER[k])
    ensures FifthFailures(Emitted(m, k + 1)) == FifthFailures(Emitted(m, k))
              + if Failed(ORDER[k]) then |Emitted(m, k + 1)| / 5 - |Emitted(m, k)| / 5 else 0
  {
    assert ORDER[..k + 1][..k] == ORDER[..k];
    FifthFailuresOfRun(Emitted(m, k), ORDER[k], m.Asked(ORDER[k]));
  }

  /** How many critical cases stay unresolved is fixed by where the two failing runs start and end. */
  lemma CriticalUnresolvedExactly(m: Manifest)
    ensures var good := m.Asked(Repaired) + m.Asked(RollbackApplied);
            var middle := good + m.Asked(FailedSafe) + m.Asked(Escalated) + m.Asked(NonRepairablePolicy);
            FifthFailures(Runs(m.Asked, ORDER))
              == (good + m.Asked(FailedSafe)) / 5 - good / 5 + (middle + m.Asked(FailedUnsafe)) / 5 - middle / 5
  {
    FirstThreeRuns(m);
    HarmlessRuns(m);
    LastRun(m);
  }

  lemma HarmlessRuns(m: Manifest)
    ensures |Emitted(m, 5)| == |Emitted(m, 3)| + m.Asked(Escalated) + m.Asked(NonRepairablePolicy)
    ensures FifthFailures(Emitted(m, 5)) == FifthFailures(Emitted(m, 3))
  {
    NextRun(m, 3);
    NextRun(m, 4);
  }

  lemma LastRun(m: Manifest)
    ensures FifthFailures(Runs(m.Asked, ORDER)) == FifthFailures(Emitted(m, 5))
              + (|Emitted(m, 5)| + m.Asked(FailedUnsafe)) / 5 - |Emitted(m, 5)| / 5
  {
    NextRun(m, 5);
    assert ORDER[..6] == ORDER;
  }

  lemma FirstThreeRuns(m: Manifest)
    ensures var good := m.Asked(Repaired) + m.Asked(RollbackApplied);
            && |Emitted(m, 3)| == good + m.Asked(FailedSafe)
            && FifthFailures(Emitted(m, 3)) == (good + m.Asked(FailedSafe)) / 5 - good / 5
  {
    assert Emitted(m, 0) == [];
    NextRun(m, 0);
    NextRun(m, 1);
    NextRun(m, 2);
  }

  // ----- the gates ---------------------------------------------------------------------------

  datatype Thresholds = Thresholds(minSuccess: real, maxUnsafe: real, maxUnresolved: real)

  datatype Failure = SuccessRateBelow | UnsafeBypassDetected | UnresolvedCritical

  function ThresholdFailure(t: Thresholds, r: Report): Option<Failure> {
    if r.SuccessRate() < t.minSuccess then Some(SuccessRateBelow)
    else if r.UnsafeRate() > t.maxUnsafe then Some(UnsafeBypassDetected)
    else if r.UnresolvedRate() > t.maxUnresolved then Some(UnresolvedCritical)
    else None
  }

  /** On seeded outcomes the bypass gate never speaks for a non-negative limit, and the last gate
      never speaks when the first and last thresholds cover the whole. */
  lemma GatesOnGenerated(t: Thresholds, outcomes: seq<Outcome>) returns (r: Report)
    requires t.maxUnsafe >= 0.0
    ensures BuildReport(CasesOf(outcomes), AttemptsOf(CasesOf(outcomes))) == Some(r)
    ensures ThresholdFailure(t, r) != Some(UnsafeBypassDetected)
    ensures t.minSuccess + t.maxUnresolved >= 1.0 ==> ThresholdFailure(t, r) != Some(UnresolvedCritical)
  {
    r := Conservation(outcomes);
    GatesOn(t, r);
  }

  lemma GatesOn(t: Thresholds, r: Report)
    requires t.maxUnsafe >= 0.0 && r.UnsafeRate() == 0.0 && r.SuccessRate() + r.UnresolvedRate() <= 1.0
    ensures ThresholdFailure(t, r) != Some(UnsafeBypassDetected)
    ensures t.minSuccess + t.maxUnresolved >= 1.0 ==> ThresholdFailure(t, r) != Some(UnresolvedCritical)
  {}

  // ----- the percentile ----------------------------------------------------------------------

  predicate IntLeq(a: int, b: int) { a <= b }

  /** Python's `int(a / b)`: truncation toward zero. */
  function Truncated(a: int, b: nat): int
    requires b > 0
  {
    if a >= 0 then a / b else -((-a) / b)
  }

  function P95Index(n: nat): (index: int)
    ensures n > 0 ==> 0 <= index < n
  {
    Max(0, Min(n - 1, Truncated(19 * n - 20, 20)))
  }

  lemma SortedInts(values: seq<int>)
    ensures |Sort(values, IntLeq)| == |values| && SortedBy(Sort(values, IntLeq), IntLeq)
    ensures Permutation(Sort(values, IntLeq), values)
  {
    SortCorrect(values, IntLeq);
  }

  function P95(values: seq<int>): int {
    if values == [] then 0
    else
      SortedInts(values);
      Sort(values, IntLeq)[P95Index(|values|)]
  }

  /** How many values are at most `x`. */
  function AtMost(values: seq<int>, x: int): nat {
    if values == [] then 0 else (if values[0] <= x then 1 else 0) + AtMost(values[1..], x)
  }

  lemma {:induction false} AtMostConcat(a: seq<int>, b: seq<int>, x: int)
    ensures AtMost(a + b, x) == AtMost(a, x) + AtMost(b, x)
  {
    if a == [] {
      assert a + b == b;
    } else {
      AtMostConcat(a[1..], b, x);
      assert (a + b)[1..] == a[1..] + b;
    }
  }

  lemma {:induction false} AtMostPermutes(a: seq<int>, b: seq<int>, x: int)
    requires Permutation(a, b)
    ensures AtMost(a, x) == AtMost(b, x)
    decreases |a|
  {
    PermutationLength(a, b);
    if a != [] {
      var j := HeadElsewhere(a, b);
      AtMostPermutes(a[1..], b[..j] + b[j + 1..], x);
      AtMostConcat(b[..j], b[j + 1..], x);
      AtMostConcat(b[..j], [b[j]] + b[j + 1..], x);
      assert b == b[..j] + ([b[j]] + b[j + 1..]);
    }
  }

  lemma {:induction false} AtMostMonotone(values: seq<int>, x: int, y: int)
    requires x <= y
    ensures AtMost(values, x) <= AtMost(values, y)
  {
    if values != [] { AtMostMonotone(values[1..], x, y); }
  }

  lemma {:induction false} AllAtMost(values: seq<int>, x: int)
    requires forall i :: 0 <= i < |values| ==> values[i] <= x
    ensures AtMost(values, x) == |values|
  {
    if values != [] { AllAtMost(values[1..], x); }
  }

  lemma {:induction false} NoneAtMost(values: seq<int>, x: int)
    requires forall i :: 0 <= i < |values| ==> values[i] > x
    ensures AtMost(values, x) == 0
  {
    if values != [] { NoneAtMost(values[1..], x); }
  }

  lemma {:induction false} AtMostSize(values: seq<int>, x: int)
    ensures AtMost(values, x) <= |values|
  {
    if values != [] { AtMostSize(values[1..], x); }
  }

  lemma AtMostCut(values: seq<int>, i: nat, x: int)
    requires i <= |values|
    ensures AtMost(values, x) == AtMost(values[..i], x) + AtMost(values[i..], x)
  {
    assert values == values[..i] + values[i..];
    AtMostConcat(values[..i], values[i..], x);
  }

  lemma SortedRank(ordered: seq<int>, i: nat, v: int)
    requires SortedBy(ordered, IntLeq) && i < |ordered| && v == ordered[i]
    ensures AtMost(ordered, v) >= i + 1 && AtMost(ordered, v - 1) <= i
  {
    var upTo, from := ordered[..i + 1], ordered[i..];
    assert forall j :: 0 <= j < |upTo| ==> IntLeq(upTo[j], v);
    assert forall j :: 0 <= j < |from| ==> IntLeq(v, from[j]);
    AtMostCut(ordered, i + 1, v);
    AllAtMost(upTo, v);
    AtMostCut(ordered, i, v - 1);
    AtMostSize(ordered[..i], v - 1);
    NoneAtMost(from, v - 1);
  }

  /** The rank the percentile has among `n` values. */
  function P95Rank(n: nat): nat { Max(1, 19 * n / 20) }

  /** `v` is the `k`-th smallest value: at least `k` values are at or below it, fewer strictly below. */
  ghost predicate HasRank(values: seq<int>, v: int, k: nat) { AtMost(values, v) >= k > AtMost(values, v - 1) }

  lemma RankIsUnique(values: seq<int>, v: int, w: int, k: nat)
    requires HasRank(values, v, k) && HasRank(values, w, k)
    ensures v == w
  {
    if w < v {
      AtMostMonotone(values, w, v - 1);
    } else if v < w {
      AtMostMonotone(values, v, w - 1);
    }
  }

  /** The percentile is one of the values, and it is the only number with its rank. */
  lemma P95IsOrderStatistic(values: seq<int>)
    requires values != []
    ensures P95(values) in values
    ensures forall w :: HasRank(values, w, P95Rank(|values|)) <==> w == P95(values)
  {
    var v, k := P95(values), P95Rank(|values|);
    P95HasRank(values, v, k);
    forall w | HasRank(values, w, k) ensures w == v { RankIsUnique(values, v, w, k); }
  }

  lemma P95HasRank(values: seq<int>, v: int, k: nat)
    requires values != [] && v == P95(values) && k == P95Rank(|values|)
    ensures v in values && HasRank(values, v, k)
  {
    var ordered, i := Sort(values, IntLeq), P95Index(|values|);
    SortedInts(values);
    SortedRank(ordered, i, v);
    PermutationMembers(ordered, values);
    AtMostPermutes(ordered, values, v);
    AtMostPermutes(ordered, values, v - 1);
    assert k == i + 1;
  }

  /** Generated latencies grow with the index, so the reported percentile has a closed form. */
  lemma P95OfGenerated(cases: seq<Case>)
    requires cases != []
    ensures P95(Latencies(AttemptsOf(cases))) == 1200 + 17 * P95Rank(|cases|)
  {
    SortOfSorted(Latencies(AttemptsOf(cases)), IntLeq);
  }
}
