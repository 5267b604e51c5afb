/** The libModSecurity transaction as the connector sees it: an object that
    records every call and answers arbitrarily. */
module Engine {
  import opened Common

  datatype Intervention = Intervention(disruptive: bool, status: int, url: string)

  datatype RuleEngineMode = EngineOff | EngineDetectionOnly | EngineOn

  type Header = (string, string)

  datatype EngineCall =
    | ProcessConnection
    | ProcessUri
    | AddRequestHeaders(requestHeaders: seq<Header>)
    | ProcessRequestHeaders
    | AppendRequestBody(requestBytes: Bytes)
    | ProcessRequestBody
    | AddResponseHeaders(responseHeaders: seq<Header>)
    | ProcessResponseHeaders(code: int)
    | AppendResponseBody(responseBytes: Bytes)
    | ProcessResponseBody
    | TakeIntervention
    | UpdateStatusCode(status: int)
    | ProcessLogging

  type Trace = seq<EngineCall>

  /** Position of a call in the life of a transaction; 0 for calls without a fixed one. */
  function Phase(call: EngineCall): nat {
    match call
    case ProcessConnection => 1
    case ProcessUri => 2
    case AddRequestHeaders(_) => 3
    case ProcessRequestHeaders => 4
    case AppendRequestBody(_) => 5
    case ProcessRequestBody => 6
    case AddResponseHeaders(_) => 7
    case ProcessResponseHeaders(_) => 8
    case ProcessResponseBody => 9
    case ProcessLogging => 10
    case _ => 0
  }

  /** The calls that run rules. */
  predicate IsProcess(call: EngineCall) {
    call.ProcessConnection? || call.ProcessUri? || call.ProcessRequestHeaders? || call.ProcessRequestBody?
    || call.ProcessResponseHeaders? || call.ProcessResponseBody? || call.ProcessLogging?
  }

  /** An engine with its rule set. Interventions depend arbitrarily on all calls
      made so far (this covers an engine whose read consumes the intervention);
      the rule engine mode changes only inside process* calls. */
  datatype Rules = Rules(
    intervention: Trace -> Option<Intervention>,
    mode: Trace -> RuleEngineMode,
    responseBodyAccess: bool)

  function PhaseCalls(trace: Trace): Trace {
    if trace == [] then []
    else
      var front, last := PhaseCalls(trace[..|trace| - 1]), trace[|trace| - 1];
      if IsProcess(last) then front + [last] else front
  }

  function ModeAfter(rules: Rules, trace: Trace): RuleEngineMode {
    rules.mode(PhaseCalls(trace))
  }

  class Transaction {
    const rules: Rules
    var trace: Trace

    constructor (rules: Rules)
      ensures this.rules == rules && trace == []
    {
      this.rules := rules;
      trace := [];
    }

    method Call(call: EngineCall)
      modifies this
      ensures trace == old(trace) + [call]
    {
      trace := trace + [call];
    }

    method Intervene() returns (it: Option<Intervention>)
      modifies this
      ensures it == rules.intervention(old(trace))
      ensures trace == old(trace) + [TakeIntervention]
    {
      it := rules.intervention(trace);
      trace := trace + [TakeIntervention];
    }

    function RuleEngineState(): RuleEngineMode
      reads this
    {
      ModeAfter(rules, trace)
    }
  }

  // ---- Facts about traces ----

  lemma PhaseCallsSnoc(trace: Trace, call: EngineCall)
    ensures PhaseCalls(trace + [call]) ==
              if IsProcess(call) then PhaseCalls(trace) + [call] else PhaseCalls(trace)
  {
    assert (trace + [call])[..|trace|] == trace;
  }

  /** Calls that are not process* calls leave the rule engine mode alone. */
  lemma {:induction false} ModeKept(rules: Rules, trace: Trace, more: Trace)
    requires forall c <- more :: !IsProcess(c)
    ensures PhaseCalls(trace + more) == PhaseCalls(trace)
    ensures ModeAfter(rules, trace + more) == ModeAfter(rules, trace)
  {
    if more == [] {
      assert trace + more == trace;
    } else {
      var front := more[..|more| - 1];
      ModeKept(rules, trace, front);
      assert trace + more == (trace + front) + [more[|more| - 1]];
      PhaseCallsSnoc(trace + front, more[|more| - 1]);
    }
  }

  /** Every process* call, and every call that feeds one, comes at most once and in
      phase order -- so everything is fed before it is processed -- and nothing follows
      processLogging. */
  ghost predicate Ordered(trace: Trace) {
    && (forall i, j :: 0 <= i < j < |trace| && Phase(trace[i]) > 0 && Phase(trace[j]) > 0
          ==> Phase(trace[i]) < Phase(trace[j]))
    && (forall i :: 0 <= i < |trace| && trace[i] == ProcessLogging ==> i == |trace| - 1)
  }

  /** No call of the trace has passed the given phase. */
  ghost predicate UpTo(trace: Trace, phase: nat) {
    forall i :: 0 <= i < |trace| ==> Phase(trace[i]) <= phase
  }

  lemma OrderedSnoc(trace: Trace, call: EngineCall, phase: nat)
    requires Ordered(trace) && UpTo(trace, phase) && phase < 10
    requires Phase(call) == 0 || Phase(call) > phase
    ensures Ordered(trace + [call])
    ensures UpTo(trace + [call], if Phase(call) == 0 then phase else Phase(call))
  {
  }

  lemma OrderedQuiet(trace: Trace, more: Trace, phase: nat)
    requires Ordered(trace) && UpTo(trace, phase) && phase < 10
    requires forall c <- more :: Phase(c) == 0
    ensures Ordered(trace + more) && UpTo(trace + more, phase)
  {
    var t := trace + more;
    assert forall i :: |trace| <= i < |t| ==> t[i] == more[i - |trace|];
    assert forall i :: 0 <= i < |trace| ==> t[i] == trace[i];
  }
}
