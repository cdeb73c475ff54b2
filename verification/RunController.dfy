/** The agent run controller: one URL is extracted, and on a typed failure the recovery port may send
    the run on to another URL, at most `maxIterations` times. The ports are adversaries. */
module RunController {
  import opened Basics

  datatype Kind = Abandon | RequestReview | DifferentUrl | EscalateAdapter

  datatype Decision = Decision(kind: Kind, signature: string, alternativeUrl: Option<string>)

  datatype Extraction = Extracted(candidate: string) | TypedFailure(failure: string) | Crash

  /** Everything the ports may do: each answers by the number of the call and its arguments, so any
      stateful behaviour of a port is one of these. A `Crash` or `None` is an exception of a kind the
      controller does not catch. */
  datatype Ports = Ports(
    gate: (nat, string, Option<string>) -> bool,
    extract: (nat, string) -> Extraction,
    decide: (nat, string, nat) -> Option<Decision>,
    originOf: string -> string)

  datatype GateCall = GateCall(origin: string, signature: Option<string>)

  /** What the controller did: gate checks, extraction attempts and the recovery trace, in order. */
  datatype Log = Log(gates: seq<GateCall>, attempts: seq<string>, trace: seq<Decision>)

  datatype Outcome =
    | Succeeded(finalUrl: string, candidate: string, iterations: nat)
    | Stopped(finalUrl: string, decision: Decision, iterations: nat)
    | Raised

  function LastSignature(trace: seq<Decision>): Option<string> {
    if trace == [] then None else Some(trace[|trace| - 1].signature)
  }

  function NextUrl(d: Decision): string { if d.alternativeUrl.Some? then d.alternativeUrl.value else "" }

  /** `_run_with_recovery` and `_handle_failure` as one function of the ports. */
  function Run(ports: Ports, maxIterations: nat, url: string, iteration: nat, log: Log): (Outcome, Log)
    decreases maxIterations - iteration
  {
    var signature := LastSignature(log.trace);
    var gated := log.(gates := log.gates + [GateCall(ports.originOf(url), signature)]);
    if !ports.gate(|log.gates|, ports.originOf(url), signature) then (Raised, gated)
    else
      var tried := gated.(attempts := gated.attempts + [url]);
      match ports.extract(|log.attempts|, url)
      case Crash => (Raised, tried)
      case Extracted(c) => (Succeeded(url, c, iteration), tried)
      case TypedFailure(f) =>
        match ports.decide(|log.trace|, f, iteration)
        case None => (Raised, tried)
        case Some(d) =>
          var decided := tried.(trace := tried.trace + [d]);
          if iteration < maxIterations && d.kind == DifferentUrl then
            Run(ports, maxIterations, NextUrl(d), iteration + 1, decided)
          else (Stopped(url, d, iteration), decided)
  }

  class AgentRunController {
    const ports: Ports
    const maxIterations: nat
    var gates: seq<GateCall>
    var attempts: seq<string>
    var trace: seq<Decision>

    function Now(): Log reads this { Log(gates, attempts, trace) }

    constructor (ports: Ports, maxIterations: nat)
      ensures this.ports == ports && this.maxIterations == maxIterations && Now() == Log([], [], [])
    {
      this.ports, this.maxIterations, gates, attempts, trace := ports, maxIterations, [], [], [];
    }

    /** Every run starts from a fresh log, so a controller can run one URL after another. */
    method RunUrl(url: string) returns (outcome: Outcome)
      modifies this
      ensures (outcome, Now()) == Run(ports, maxIterations, url, 0, Log([], [], []))
    {
      gates, attempts, trace := [], [], [];
      outcome := RunWithRecovery(url, 0);
    }

    method RunWithRecovery(url: string, iteration: nat) returns (outcome: Outcome)
      modifies this
      ensures (outcome, Now()) == Run(ports, maxIterations, url, iteration, old(Now()))
      decreases maxIterations - iteration, 1
    {
      var origin := ports.originOf(url);
      var signature := LastSignature(trace);
      gates := gates + [GateCall(origin, signature)];
      if !ports.gate(|gates| - 1, origin, signature) { return Raised; }
      attempts := attempts + [url];
      var extraction := ports.extract(|attempts| - 1, url);
      match extraction
      case Crash => return Raised;
      case Extracted(c) => return Succeeded(url, c, iteration);
      case TypedFailure(f) => outcome := HandleFailure(f, url, iteration);
    }

    method HandleFailure(failure: string, url: string, iteration: nat) returns (outcome: Outcome)
      modifies this
      ensures (outcome, Now()) == AfterFailure(ports, maxIterations, failure, url, iteration, old(Now()))
      decreases maxIterations - iteration, 0
    {
      var decision := ports.decide(|trace|, failure, iteration);
      if decision.None? { return Raised; }
      trace := trace + [decision.value];
      if iteration >= maxIterations {
        return Stopped(url, decision.value, iteration);
      }
      if decision.value.kind == DifferentUrl {
        outcome := RunWithRecovery(NextUrl(decision.value), iteration + 1);
        return;
      }
      return Stopped(url, decision.value, iteration);
    }
  }

  function AfterFailure(
    ports: Ports, maxIterations: nat, failure: string, url: string, iteration: nat, log: Log): (Outcome, Log)
  {
    match ports.decide(|log.trace|, failure, iteration)
    case None => (Raised, log)
    case Some(d) =>
      var decided := log.(trace := log.trace + [d]);
      if iteration < maxIterations && d.kind == DifferentUrl then
        Run(ports, maxIterations, NextUrl(d), iteration + 1, decided)
      else (Stopped(url, d, iteration), decided)
  }

  // ----- what every run satisfies ------------------------------------------------------------

  /** The URL the `i`-th attempt is made on: the requested one, then each suggested alternative. */
  function ChainUrl(url: string, trace: seq<Decision>, i: nat): string
    requires i <= |trace|
  {
    if i == 0 then url else NextUrl(trace[i - 1])
  }

  /** The log after `k` recoveries from `url`: attempts and gate checks follow the chain, each check
      carrying the signature of the decision before it, and every decision so far moved the run on. */
  ghost predicate Chained(ports: Ports, url: string, log: Log, k: nat) {
    && |log.trace| >= k && |log.attempts| == |log.gates|
    && (forall i :: 0 <= i < |log.attempts| && i <= |log.trace| ==> log.attempts[i] == ChainUrl(url, log.trace, i))
    && (forall i :: 0 <= i < |log.gates| && i <= |log.trace| ==>
          log.gates[i] == GateCall(ports.originOf(ChainUrl(url, log.trace, i)), LastSignature(log.trace[..i])))
    && (forall i :: 0 <= i < k ==> log.trace[i].kind == DifferentUrl)
  }

  ghost predicate Bounded(ports: Ports, maxIterations: nat, url: string, outcome: Outcome, log: Log) {
    match outcome
    case Raised =>
      |log.attempts| <= |log.gates| <= maxIterations + 1 && |log.trace| <= maxIterations
    case Succeeded(finalUrl, _, k) =>
      && k <= maxIterations && |log.attempts| == |log.gates| == k + 1 && |log.trace| == k
      && Chained(ports, url, log, k) && finalUrl == ChainUrl(url, log.trace, k)
    case Stopped(finalUrl, d, k) =>
      && k <= maxIterations && |log.attempts| == |log.gates| == k + 1 && |log.trace| == k + 1
      && Chained(ports, url, log, k) && finalUrl == ChainUrl(url, log.trace, k)
      && d == log.trace[k] && (k < maxIterations ==> d.kind != DifferentUrl)
  }

  lemma ChainedExtends(ports: Ports, url: string, log: Log, k: nat, d: Decision)
    requires Chained(ports, url, log, k) && |log.trace| == |log.attempts| == k && d.kind == DifferentUrl
    ensures var at := ChainUrl(url, log.trace, k);
            var next := Log(log.gates + [GateCall(ports.originOf(at), LastSignature(log.trace))],
                            log.attempts + [at], log.trace + [d]);
            Chained(ports, url, next, k + 1) && NextUrl(d) == ChainUrl(url, next.trace, k + 1)
  {
    var at := ChainUrl(url, log.trace, k);
    var next := Log(log.gates + [GateCall(ports.originOf(at), LastSignature(log.trace))],
                    log.attempts + [at], log.trace + [d]);
    assert log.trace[..k] == log.trace;
    forall i | 0 <= i <= k
      ensures ChainUrl(url, next.trace, i) == ChainUrl(url, log.trace, i) && next.trace[..i] == log.trace[..i]
    {}
  }

  lemma ChainedStops(ports: Ports, url: string, log: Log, k: nat, trace: seq<Decision>)
    requires Chained(ports, url, log, k) && |log.trace| == |log.attempts| == k && log.trace <= trace
    requires |trace| <= k + 1
    ensures var at := ChainUrl(url, log.trace, k);
            var last := Log(log.gates + [GateCall(ports.originOf(at), LastSignature(log.trace))],
                            log.attempts + [at], trace);
            Chained(ports, url, last, k) && at == ChainUrl(url, trace, k)
  {
    assert log.trace[..k] == log.trace;
    forall i | 0 <= i <= k
      ensures ChainUrl(url, trace, i) == ChainUrl(url, log.trace, i) && trace[..i] == log.trace[..i]
    {}
  }

  lemma {:induction false} RunBounded(ports: Ports, maxIterations: nat, url: string, k: nat, log: Log)
    requires k <= maxIterations && Chained(ports, url, log, k) && |log.trace| == |log.attempts| == k
    ensures var (outcome, after) := Run(ports, maxIterations, ChainUrl(url, log.trace, k), k, log);
            Bounded(ports, maxIterations, url, outcome, after)
    decreases maxIterations - k
  {
    var at := ChainUrl(url, log.trace, k);
    var gate := GateCall(ports.originOf(at), LastSignature(log.trace));
    ChainedStops(ports, url, log, k, log.trace);
    if ports.gate(k, gate.origin, gate.signature) {
      var extraction := ports.extract(k, at);
      if extraction.TypedFailure? {
        var decision := ports.decide(k, extraction.failure, k);
        if decision.Some? {
          var d := decision.value;
          ChainedStops(ports, url, log, k, log.trace + [d]);
          if k < maxIterations && d.kind == DifferentUrl {
            ChainedExtends(ports, url, log, k, d);
            RunBounded(ports, maxIterations, url, k + 1, Log(log.gates + [gate], log.attempts + [at], log.trace + [d]));
          }
        }
      }
    }
  }

  /** Whatever the ports do, a returned outcome after `k` recoveries took `k + 1` attempts and gate
      checks, at most `maxIterations + 1` of them; each check but the first carried the signature of
      the decision before it; every decision but a final one moved the run to another URL; and the
      final URL is the end of the chain of alternatives. A run ended by an exception made no more. */
  lemma RecoveryIsBounded(ports: Ports, maxIterations: nat, url: string)
    ensures var (outcome, log) := Run(ports, maxIterations, url, 0, Log([], [], []));
            Bounded(ports, maxIterations, url, outcome, log)
  {
    RunBounded(ports, maxIterations, url, 0, Log([], [], []));
  }

  /** Ports that suggest another URL after every failure, and an extractor that always fails. */
  function EverOnward(): Ports {
    Ports((n, o, s) => true, (n, u) => TypedFailure("failed"),
          (n, f, i) => Some(Decision(DifferentUrl, "again", Some("https://next.example"))), u => u)
  }

  /** The decision that ends a run at the bound need not be to abandon: whatever the recovery port
      says is recorded, even the suggestion of yet another URL. */
  lemma {:induction false} LastDecisionMayMoveOn(maxIterations: nat, k: nat, url: string, log: Log)
    requires k <= maxIterations
    ensures var outcome := Run(EverOnward(), maxIterations, url, k, log).0;
            outcome.Stopped? && outcome.iterations == maxIterations && outcome.decision.kind == DifferentUrl
    decreases maxIterations - k
  {
    if k < maxIterations {
      var d := Decision(DifferentUrl, "again", Some("https://next.example"));
      LastDecisionMayMoveOn(maxIterations, k + 1, "https://next.example",
        Log(log.gates + [GateCall(url, LastSignature(log.trace))], log.attempts + [url], log.trace + [d]));
    }
  }
}
