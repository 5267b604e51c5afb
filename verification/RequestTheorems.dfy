/** What the engine is given of every request, call by call, and when the request phases
    block, over every run. */
module RequestTheorems {
  import opened Common
  import opened Engine
  import opened StoredContext
  import opened BodyDrain
  import opened ResponseBody
  import opened ResponsePhase
  import opened Lifecycle

  // ---- The calls every request begins with ----

  /** OnBeginRequest up to and including its intervention check. */
  function RequestOpening(headers: seq<Header>): Trace {
    [ProcessConnection, ProcessUri, AddRequestHeaders(headers), ProcessRequestHeaders, TakeIntervention]
  }

  /** The body phase up to and including its intervention check, on these drained bytes. */
  function BodyCalls(body: Bytes, cap: nat): Trace {
    (if body == [] || cap == 0 then [] else [AppendRequestBody(if |body| <= cap then body else body[..cap])])
    + [ProcessRequestBody, TakeIntervention]
  }

  /** A body phase that gets to its intervention check: the drained bytes were restored or
      could not be copied, and the engine took them without a throw. */
  predicate ReachesCheck(body: Bytes, cap: nat, env: FinishEnv) {
    && (body == [] || !env.memoryOk || env.insertOk)
    && !(env.throws == AtAppend && body != [] && cap > 0) && env.throws != AtProcess
  }

  /** All request headers handed to the engine. */
  function RequestHeaders(trace: Trace): seq<Header> {
    if trace == [] then []
    else
      var front, last := RequestHeaders(trace[..|trace| - 1]), trace[|trace| - 1];
      if last.AddRequestHeaders? then front + last.requestHeaders else front
  }

  /** From one trace to the other, calls without a fixed place and calls of this phase of
      the transaction or later were added. */
  ghost predicate Adds(before: Trace, after: Trace, phase: nat) {
    && before <= after
    && forall k :: |before| <= k < |after| ==> Phase(after[k]) == 0 || Phase(after[k]) >= phase
  }

  lemma AddsMore(a: Trace, b: Trace, c: Trace, phase: nat)
    requires Adds(a, b, phase) && Adds(b, c, phase)
    ensures Adds(a, c, phase)
  {
    assert forall k :: |a| <= k < |b| ==> c[k] == b[k];
  }

  lemma AddsLog(c: Ctx, call: EngineCall, phase: nat)
    requires Phase(call) == 0 || Phase(call) >= phase
    ensures Adds(c.trace, Log(c, call).trace, phase)
  {
  }

  lemma AddsReplaced(c: Ctx, rep: Replacement, phase: nat)
    ensures Adds(c.trace, Replaced(c, rep).trace, phase)
  {
    AddsLog(c, TakeIntervention, phase);
    AddsLog(Log(c, TakeIntervention), UpdateStatusCode(rep.reported), phase);
    AddsMore(c.trace, Log(c, TakeIntervention).trace, Replaced(c, rep).trace, phase);
  }

  lemma AddsIntervened(rules: Rules, c: Ctx, canBlock: bool, phase: nat)
    requires phase <= 10
    ensures Adds(c.trace, Intervened(rules, c, canBlock).trace, phase)
  {
    AddsLog(c, TakeIntervention, phase);
    if Honoured(rules, c, canBlock).Some? {
      var rep := ReplacementFor(Honoured(rules, c, canBlock).value);
      AddsReplaced(c, rep, phase);
      AddsLog(Replaced(c, rep), ProcessLogging, phase);
      AddsMore(c.trace, Replaced(c, rep).trace, Finished(Replaced(c, rep)).trace, phase);
    }
  }

  lemma AddsChecked(rules: Rules, p: Ctx, after: Ctx, phase: nat)
    requires Checked(rules, p, after) && phase <= 10
    ensures Adds(p.trace, after.trace, phase)
  {
    AddsLog(p, TakeIntervention, phase);
    AddsIntervened(rules, p, true, phase);
    if Honoured(rules, p, true).Some? {
      AddsReplaced(p, ReplacementFor(Honoured(rules, p, true).value), phase);
    }
  }

  lemma AddsBody(site: Site, c: Ctx, body: Bytes, rest: Bytes, env: FinishEnv)
    ensures Adds(c.trace, Finish(site.rules, c, body, rest, site.cap, env).ctx.trace, 5)
  {
    var after, fed := Finish(site.rules, c, body, rest, site.cap, env).ctx, Fed(c, body, site.cap);
    var p := Log(fed, ProcessRequestBody);
    FinishContexts(site.rules, c, body, rest, site.cap, env);
    AddsLog(c, AppendRequestBody(Inspected(body, site.cap)), 5);
    AddsLog(fed, ProcessRequestBody, 5);
    AddsMore(c.trace, fed.trace, p.trace, 5);
    if Checked(site.rules, p, after) {
      AddsChecked(site.rules, p, after, 5);
      AddsMore(c.trace, p.trace, after.trace, 5);
    }
  }

  // ---- The response phases add response calls only ----

  lemma AddsHeaders(rules: Rules, c: Ctx, raw: RawResponse)
    ensures Adds(c.trace, HeadersProcessed(c, raw).trace, 7) && Adds(c.trace, HeaderPhase(rules, c, raw).trace, 7)
  {
    var added, p := Log(c, AddResponseHeaders(raw.headers)), HeadersProcessed(c, raw);
    AddsLog(c, AddResponseHeaders(raw.headers), 7);
    AddsLog(added, ProcessResponseHeaders(raw.status), 7);
    AddsMore(c.trace, added.trace, p.trace, 7);
    AddsIntervened(rules, p, BlockingEnabled(rules, p), 7);
    AddsMore(c.trace, p.trace, Intervened(rules, p, BlockingEnabled(rules, p)).trace, 7);
  }

  lemma AddsInspected(site: Site, c: Ctx, raw: RawResponse)
    ensures Adds(c.trace, ReadyForPhaseFour(site, c, raw).trace, 7)
  {
    AddsHeaders(site.rules, c, raw);
    AddsMore(c.trace, HeaderPhase(site.rules, c, raw).trace, ReadyForPhaseFour(site, c, raw).trace, 7);
  }

  lemma AddsEvaluate(rules: Rules, c: Ctx, canBlock: bool)
    ensures Adds(c.trace, PhaseFourRun(c).trace, 7) && Adds(c.trace, Evaluate(rules, c, canBlock).trace, 7)
  {
    AddsLog(c, ProcessResponseBody, 7);
    AddsIntervened(rules, PhaseFourRun(c), canBlock, 7);
    AddsMore(c.trace, PhaseFourRun(c).trace, Evaluate(rules, c, canBlock).trace, 7);
  }

  lemma AddsModes(rules: Rules, b: Ctx, moreData: bool)
    ensures Adds(b.trace, ModeB(rules, ModeA(rules, b, moreData), moreData).trace, 7)
  {
    var a := ModeA(rules, b, moreData);
    AddsEvaluate(rules, b, true);
    AddsEvaluate(rules, a, false);
    AddsMore(b.trace, a.trace, Evaluate(rules, a, false).trace, 7);
  }

  lemma AddsSend(site: Site, c: Ctx, n: Notification)
    ensures Adds(c.trace, SendResponse(site.rules, site.cap, c, n).trace, 7)
  {
    if c.live && n.raw.Some? {
      AddsHeaders(site.rules, c, n.raw.value);
      AddsInspected(site, c, n.raw.value);
      var b := ReadyForPhaseFour(site, c, n.raw.value);
      AddsModes(site.rules, b, n.moreData);
      AddsMore(c.trace, b.trace, ModeB(site.rules, ModeA(site.rules, b, n.moreData), n.moreData).trace, 7);
    }
  }

  lemma AddsBodyCut(h: Ctx, appends: Trace, k: int)
    requires 0 <= k <= |appends| + 2 && forall i :: 0 <= i < |appends| ==> appends[i].AppendResponseBody?
    ensures Adds(h.trace, BodyCut(h, appends, k).trace, 7)
  {
  }

  lemma AddsThrown(site: Site, c: Ctx, ev: Event)
    requires ThrowsInSend(ev) && Possible(site, Request(Serving, c), ev)
    ensures Adds(c.trace, Thrown(site, c, ev).trace, 7)
  {
    var raw := ev.n.raw.value;
    match ev
    case SendThrows(n, calls) =>
      if CallsAfterHeaders(c, calls) > 0 {
        var h, appends := HeaderPhase(site.rules, c, raw), AppendCalls(Inspect(raw.chunks, site.cap).pieces);
        AddsHeaders(site.rules, c, raw);
        AddsBodyCut(h, appends, CallsAfterHeaders(c, calls));
        AddsMore(c.trace, h.trace, BodyCut(h, appends, CallsAfterHeaders(c, calls)).trace, 7);
      }
    case HeaderReportThrows(n) =>
      var p := HeadersProcessed(c, raw);
      AddsHeaders(site.rules, c, raw);
      AddsReplaced(p, HeaderAnswer(site, c, raw).value, 7);
      AddsMore(c.trace, p.trace, Thrown(site, c, ev).trace, 7);
    case PhaseFourReportThrows(n) =>
      var b := ReadyForPhaseFour(site, c, raw);
      AddsInspected(site, c, raw);
      AddsEvaluate(site.rules, b, true);
      AddsReplaced(PhaseFourRun(b), PhaseFourAnswer(site, c, raw).value, 7);
      AddsMore(c.trace, b.trace, PhaseFourRun(b).trace, 7);
      AddsMore(c.trace, PhaseFourRun(b).trace, Thrown(site, c, ev).trace, 7);
  }

  /** Once the request headers are processed, an event adds only calls of later phases. */
  lemma AddsStep(site: Site, r: Request, ev: Event)
    requires Possible(site, r, ev) && r.stage != Starting
    ensures Adds(r.ctx.trace, Step(site, r, ev).ctx.trace, if ev.BodyPhase? then 5 else 7)
  {
    match ev
    case BodyPhase(body, rest, env) => AddsBody(site, r.ctx, body, rest, env);
    case Send(n) => AddsSend(site, r.ctx, n);
    case SendThrows(_, _) => AddsThrown(site, r.ctx, ev);
    case HeaderReportThrows(_) => AddsThrown(site, r.ctx, ev);
    case PhaseFourReportThrows(_) => AddsThrown(site, r.ctx, ev);
    case _ =>
  }

  // ---- Over every run ----

  lemma NeverStartsAgain(site: Site, r: Request, ev: Event)
    requires Possible(site, r, ev)
    ensures Step(site, r, ev).stage != Starting
    ensures ev.Begin? ==> r.stage == Starting
  {
  }

  /** Begin is the first event of a run. */
  lemma {:induction false} BeginIsFirst(site: Site, evs: seq<Event>)
    requires Run(site, evs).Some?
    ensures evs == [] <==> Run(site, evs).value.stage == Starting
    ensures forall i :: 1 <= i < |evs| ==> !evs[i].Begin?
  {
    if evs != [] {
      var front, ev := evs[..|evs| - 1], evs[|evs| - 1];
      BeginIsFirst(site, front);
      NeverStartsAgain(site, Run(site, front).value, ev);
      assert forall i :: 1 <= i < |front| ==> evs[i] == front[i];
    }
  }

  /** The rules block at the request headers exactly when they disrupt after these four
      calls; either way the request starts with the five calls of its opening. */
  lemma BeginOpens(site: Site, headers: seq<Header>)
    ensures var after := Step(site, Request(Starting, Installed(site.bodyBlock)), Begin(true, headers)).ctx;
            && Adds(RequestOpening(headers), after.trace, 10)
            && (!after.live <==> Disrupts(site.rules, RequestOpening(headers)[..4]))
            && (after.live ==> after.trace == RequestOpening(headers))
            && |after.replacements| == if after.live then 0 else 1
  {
    var p := Begun(Installed(site.bodyBlock), headers);
    assert p.trace == RequestOpening(headers)[..4];
    assert Log(p, TakeIntervention).trace == RequestOpening(headers);
    if Honoured(site.rules, p, true).Some? {
      var rep := ReplacementFor(Honoured(site.rules, p, true).value);
      var after := Intervened(site.rules, p, true);
      assert after.trace == RequestOpening(headers) + [UpdateStatusCode(rep.reported)] + [ProcessLogging];
    }
  }

  /** A throw in OnBeginRequest leaves just the first of these calls; one in the status
      report leaves all calls but processLogging. */
  lemma BeginThrowsArePrefixes(site: Site, ev: Event)
    requires Possible(site, Request(Starting, Installed(site.bodyBlock)), ev)
    requires ev.BeginThrows? || ev.BeginReportThrows?
    ensures var start := Request(Starting, Installed(site.bodyBlock));
            var all, made := Step(site, start, Begin(true, ev.headers)).ctx.trace, Step(site, start, ev).ctx.trace;
            if ev.BeginThrows? then made == RequestOpening(ev.headers)[..ev.calls] && made <= all
            else all == made + [ProcessLogging]
  {
    BeginOpens(site, ev.headers);
    if ev.BeginThrows? {
      assert BeginCalls(ev.headers) + [TakeIntervention] == RequestOpening(ev.headers);
    }
  }

  /** A throw in FinishBodyRead leaves the first of the calls made without it. */
  lemma BodyThrowIsPrefix(site: Site, c: Ctx, body: Bytes, rest: Bytes, env: FinishEnv)
    requires c.live
    ensures Finish(site.rules, c, body, rest, site.cap, env).ctx.trace
            <= Finish(site.rules, c, body, rest, site.cap, env.(throws := NoThrow)).ctx.trace
  {
    var fed, p := Fed(c, body, site.cap), BodyProcessed(c, body, site.cap);
    assert c.trace <= fed.trace <= p.trace <= Log(p, TakeIntervention).trace;
    if Honoured(site.rules, p, true).Some? {
      assert p.trace <= Intervened(site.rules, p, true).trace;
      assert Replaced(p, Answer(site.rules, p).value).trace <= Intervened(site.rules, p, true).trace;
    }
  }

  lemma {:induction false} RequestHeadersKept(before: Trace, after: Trace)
    requires Adds(before, after, 5)
    ensures RequestHeaders(after) == RequestHeaders(before)
    decreases |after|
  {
    if before != after {
      var front := after[..|after| - 1];
      assert forall k :: |before| <= k < |front| ==> front[k] == after[k];
      RequestHeadersKept(before, front);
    }
  }

  lemma RequestHeadersSnoc(trace: Trace, call: EngineCall)
    ensures RequestHeaders(trace + [call]) ==
              if call.AddRequestHeaders? then RequestHeaders(trace) + call.requestHeaders else RequestHeaders(trace)
  {
    assert (trace + [call])[..|trace|] == trace;
  }

  lemma OpeningHeaders(headers: seq<Header>)
    ensures RequestHeaders(RequestOpening(headers)) == headers
  {
    var connected: Trace := [] + [ProcessConnection];
    var located := connected + [ProcessUri];
    var fed := located + [AddRequestHeaders(headers)];
    RequestHeadersSnoc([], ProcessConnection);
    RequestHeadersSnoc(connected, ProcessUri);
    RequestHeadersSnoc(located, AddRequestHeaders(headers));
    RequestHeadersSnoc(fed, ProcessRequestHeaders);
    RequestHeadersSnoc(fed + [ProcessRequestHeaders], TakeIntervention);
    assert RequestOpening(headers) == fed + [ProcessRequestHeaders] + [TakeIntervention];
  }

  /** What was added after the opening leaves it the only part with request headers. */
  lemma HeadersStay(headers: seq<Header>, after: Trace)
    requires Adds(RequestOpening(headers), after, 5)
    ensures RequestOpening(headers) <= after && RequestHeaders(after) == headers
    ensures forall k :: |RequestOpening(headers)| <= k < |after| ==> !IsOpening(after[k])
  {
    assert forall k :: |RequestOpening(headers)| <= k < |after| ==> !IsOpening(after[k]);
    RequestHeadersKept(RequestOpening(headers), after);
    OpeningHeaders(headers);
  }

  /** Over every run in which the request was looked at: the transaction begins with
      processConnection, processURI, the headers of the request, processRequestHeaders and
      the first intervention read; and none of the first four ever comes again. */
  lemma {:induction false} RequestIsOpened(site: Site, evs: seq<Event>, r: Request, headers: seq<Header>)
    requires Run(site, evs) == Some(r) && evs != [] && evs[0] == Begin(true, headers)
    ensures Adds(RequestOpening(headers), r.ctx.trace, 5)
  {
    var front, ev := evs[..|evs| - 1], evs[|evs| - 1];
    var before := Run(site, front).value;
    if front == [] {
      BeginOpens(site, headers);
    } else {
      assert front[0] == evs[0];
      RequestIsOpened(site, front, before, headers);
      BeginIsFirst(site, front);
      AddsStep(site, before, ev);
      AddsMore(RequestOpening(headers), before.ctx.trace, r.ctx.trace, 5);
    }
  }

  /** Over every such run the engine is given exactly the headers of the request. */
  lemma EngineReceivesHeaders(site: Site, evs: seq<Event>, r: Request, headers: seq<Header>)
    requires Run(site, evs) == Some(r) && Begin(true, headers) in evs
    ensures RequestHeaders(r.ctx.trace) == headers
    ensures RequestOpening(headers) <= r.ctx.trace
    ensures forall k :: |RequestOpening(headers)| <= k < |r.ctx.trace| ==> !IsOpening(r.ctx.trace[k])
  {
    BeginIsFirst(site, evs);
    assert evs[0] == Begin(true, headers);
    RequestIsOpened(site, evs, r, headers);
    HeadersStay(headers, r.ctx.trace);
  }

  predicate IsOpening(call: EngineCall) {
    call == ProcessConnection || call == ProcessUri || call.AddRequestHeaders? || call == ProcessRequestHeaders
  }

  /** A body phase that reaches its check blocks exactly when the rules disrupt after
      processRequestBody; either way it starts with the calls for its drained bytes. */
  lemma BodyOpens(site: Site, c: Ctx, body: Bytes, rest: Bytes, env: FinishEnv)
    requires c.live && ReachesCheck(body, site.cap, env)
    ensures var after := Finish(site.rules, c, body, rest, site.cap, env).ctx;
            var due := c.trace + BodyCalls(body, site.cap);
            && Adds(due, after.trace, 7)
            && (env.throws == NoThrow ==>
                  && (!after.live <==> Disrupts(site.rules, due[..|due| - 1]))
                  && |after.replacements| == |c.replacements| + if after.live then 0 else 1)
  {
    var after := Finish(site.rules, c, body, rest, site.cap, env).ctx;
    var p := BodyProcessed(c, body, site.cap);
    var due := c.trace + BodyCalls(body, site.cap);
    BodyCallsAreMade(c, body, site.cap);
    assert due[..|due| - 1] == p.trace;
    CheckAdds(site.rules, p, after);
  }

  lemma CheckAdds(rules: Rules, p: Ctx, after: Ctx)
    requires p.live && Checked(rules, p, after) && after != p
    ensures Adds(p.trace + [TakeIntervention], after.trace, 7)
  {
    if Honoured(rules, p, true).Some? {
      var rep := ReplacementFor(Honoured(rules, p, true).value);
      assert Replaced(p, rep).trace == p.trace + [TakeIntervention] + [UpdateStatusCode(rep.reported)];
    }
  }

  lemma BodyCallsAreMade(c: Ctx, body: Bytes, cap: nat)
    ensures BodyProcessed(c, body, cap).trace + [TakeIntervention] == c.trace + BodyCalls(body, cap)
  {
    assert body == [] || cap == 0 ==> Inspected(body, cap) == [];
    assert |body| <= cap ==> Inspected(body, cap) == body;
  }

  /** Over every run whose body phase got to its check: after the opening come just the
      inspected bytes and processRequestBody, and no later call belongs to the request. */
  lemma {:induction false} BodyIsProcessed(site: Site, evs: seq<Event>, r: Request, headers: seq<Header>,
                                           body: Bytes, rest: Bytes, env: FinishEnv)
    requires Run(site, evs) == Some(r) && ReachesCheck(body, site.cap, env)
    requires |evs| >= 2 && evs[0] == Begin(true, headers) && evs[1] == BodyPhase(body, rest, env)
    ensures Adds(RequestOpening(headers) + BodyCalls(body, site.cap), r.ctx.trace, 7)
    ensures r.stage != ReadingBody
  {
    var front, ev := evs[..|evs| - 1], evs[|evs| - 1];
    var before := Run(site, front).value;
    if |evs| == 2 {
      assert front == [Begin(true, headers)];
      BodyFollowsOpening(site, headers, before);
      BodyOpens(site, before.ctx, body, rest, env);
    } else {
      assert front[0] == evs[0] && front[1] == evs[1];
      BodyIsProcessed(site, front, before, headers, body, rest, env);
      BeginIsFirst(site, front);
      AddsStep(site, before, ev);
      AddsMore(RequestOpening(headers) + BodyCalls(body, site.cap), before.ctx.trace, r.ctx.trace, 7);
    }
  }

  lemma BodyFollowsOpening(site: Site, headers: seq<Header>, r: Request)
    requires Run(site, [Begin(true, headers)]) == Some(r) && r.stage == ReadingBody
    ensures r.ctx.live && r.ctx.trace == RequestOpening(headers)
  {
    assert [Begin(true, headers)][..0] == [];
    BeginOpens(site, headers);
  }
}
