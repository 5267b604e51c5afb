/** When a response is replaced, in terms of the configuration, the rule engine mode and
    what the engine answers; what a notification gives the engine, also when it throws;
    and when it sets a Content-Length. */
module ResponseRulings {
  import opened Common
  import opened Engine
  import opened StoredContext
  import opened BodyDrain
  import opened ResponseBody
  import opened ResponsePhase
  import opened Lifecycle
  import opened ResponseTheorems
  import ContentLength

  // ---- The calls a notification makes ----

  /** The calls up to the end of processResponseHeaders. */
  function HeadersGiven(trace: Trace, raw: RawResponse): Trace {
    trace + [AddResponseHeaders(raw.headers), ProcessResponseHeaders(raw.status)]
  }

  /** The calls up to the end of the inspection, when no block came in the headers. */
  function BodyGiven(trace: Trace, fed: bool, raw: RawResponse, cap: nat): Trace {
    (if fed then trace else HeadersGiven(trace, raw) + [TakeIntervention])
    + AppendCalls(Inspect(raw.chunks, cap).pieces)
  }

  /** The rule engine mode after the process* calls of a trace is On, not DetectionOnly. */
  predicate ModeIsOn(rules: Rules, trace: Trace) {
    rules.mode(PhaseCalls(trace)) == EngineOn
  }

  /** The rules disrupt after processing the response headers. */
  predicate DisruptsHeaders(rules: Rules, trace: Trace, raw: RawResponse) {
    ModeIsOn(rules, HeadersGiven(trace, raw)) && Disrupts(rules, HeadersGiven(trace, raw))
  }

  /** The rules disrupt after processing the response body; the mode is read before. */
  predicate DisruptsBody(rules: Rules, trace: Trace, fed: bool, raw: RawResponse, cap: nat) {
    var b := BodyGiven(trace, fed, raw, cap);
    ModeIsOn(rules, b) && Disrupts(rules, b + [ProcessResponseBody])
  }

  lemma TracesGiven(site: Site, c: Ctx, raw: RawResponse)
    requires c.live
    ensures HeadersProcessed(c, raw).trace == HeadersGiven(c.trace, raw)
    ensures c.headersFed || !BlocksInHeaders(site, c, raw) ==>
              ReadyForPhaseFour(site, c, raw).trace == BodyGiven(c.trace, c.headersFed, raw, site.cap)
  {
    HeaderVerdict(site, c, raw);
    assert HeadersProcessed(c, raw).trace == HeadersGiven(c.trace, raw);
  }

  lemma BlocksInHeadersIff(site: Site, c: Ctx, raw: RawResponse)
    requires c.live
    ensures BlocksInHeaders(site, c, raw) <==>
              c.bodyBlock && site.rules.responseBodyAccess && DisruptsHeaders(site.rules, c.trace, raw)
  {
    TracesGiven(site, c, raw);
  }

  lemma BlocksInPhaseFourIff(site: Site, c: Ctx, raw: RawResponse)
    requires c.live && (c.headersFed || !BlocksInHeaders(site, c, raw))
    ensures BlocksInPhaseFour(site, c, raw) <==>
              c.bodyBlock && site.rules.responseBodyAccess && DisruptsBody(site.rules, c.trace, c.headersFed, raw, site.cap)
  {
    TracesGiven(site, c, raw);
    HeaderVerdict(site, c, raw);
    var b := ReadyForPhaseFour(site, c, raw);
    assert PhaseFourRun(b).trace == BodyGiven(c.trace, c.headersFed, raw, site.cap) + [ProcessResponseBody];
  }

  // ---- When the response may be blocked ----

  /** Until a visible notification has completed, <responseBodyBlock> is as configured;
      and it is never on when it was configured off. */
  lemma {:induction false} BlockSwitchKept(site: Site, evs: seq<Event>, r: Request)
    requires Run(site, evs) == Some(r)
    ensures r.ctx.bodyBlock ==> site.bodyBlock
    ensures r.ctx.live && !SeenVisible(evs) ==> r.ctx.bodyBlock == site.bodyBlock
  {
    if evs != [] {
      var front, ev := evs[..|evs| - 1], evs[|evs| - 1];
      var before := Run(site, front).value;
      BlockSwitchKept(site, front, before);
      LivedRun(site, front, before);
      assert front + [ev] == evs;
      SeenVisibleSnoc(front, ev);
      SwitchStep(site, before, ev);
      if r.ctx.live {
        LiveBefore(site, before, ev);
      }
    }
  }

  lemma LiveBefore(site: Site, r: Request, ev: Event)
    requires Possible(site, r, ev) && Staged(r) && Step(site, r, ev).ctx.live
    ensures r.ctx.live
  {
    StepFinishes(site, r, ev);
  }

  lemma SwitchStep(site: Site, r: Request, ev: Event)
    requires Possible(site, r, ev) && Staged(r)
    ensures Step(site, r, ev).ctx.bodyBlock ==> r.ctx.bodyBlock
    ensures !Visible(ev) ==> Step(site, r, ev).ctx.bodyBlock == r.ctx.bodyBlock
  {
    match ev
    case Begin(_, _) =>
    case BodyPhase(body, rest, env) => FinishContexts(site.rules, r.ctx, body, rest, site.cap, env);
    case Send(n) => SendSwitch(site, r.ctx, n);
    case SendThrows(n, calls) => HeaderSwitch(site.rules, r.ctx, n.raw.value);
    case PhaseFourReportThrows(n) => HeaderSwitch(site.rules, r.ctx, n.raw.value);
    case _ =>
  }

  lemma SendSwitch(site: Site, c: Ctx, n: Notification)
    ensures var after := SendResponse(site.rules, site.cap, c, n);
            && (after.bodyBlock ==> c.bodyBlock)
            && (n.raw.None? ==> after == c)
  {
    if n.raw.Some? {
      HeaderSwitch(site.rules, c, n.raw.value);
    }
  }

  lemma HeaderSwitch(rules: Rules, c: Ctx, raw: RawResponse)
    ensures HeaderPhase(rules, c, raw).bodyBlock == c.bodyBlock
  {
  }

  /** Over every run: a notification replaces the response exactly when no visible one has
      completed, <responseBodyBlock> and response-body access are on, and the engine, with
      its mode On, disrupts after the response headers -- if none were got past before --
      or, in a final notification before any phase 4, after the response body. */
  lemma ReplacesIff(site: Site, evs: seq<Event>, c: Ctx, n: Notification)
    requires Run(site, evs) == Some(Request(Serving, c))
    ensures SendResponse(site.rules, site.cap, c, n).replacements != c.replacements <==>
              && c.live && n.raw.Some? && !SeenVisible(evs)
              && site.bodyBlock && site.rules.responseBodyAccess
              && ((!SeenLate(evs) && DisruptsHeaders(site.rules, c.trace, n.raw.value))
                  || (!n.moreData && !SeenPhaseFour(site, evs)
                      && DisruptsBody(site.rules, c.trace, SeenLate(evs), n.raw.value, site.cap)))
  {
    ReplacedIff(site, evs, c, n);
    BlockSwitchKept(site, evs, Request(Serving, c));
    if c.live && n.raw.Some? && !SeenVisible(evs) {
      RunFlags(site, evs, Request(Serving, c));
      BlocksInHeadersIff(site, c, n.raw.value);
      if c.headersFed || !BlocksInHeaders(site, c, n.raw.value) {
        BlocksInPhaseFourIff(site, c, n.raw.value);
      }
    }
  }

  /** With the mode never On -- in DetectionOnly, say -- or with response-body access or
      <responseBodyBlock> off, no run ever replaces a response in a response phase. */
  lemma NeverBlocksUnlessOn(site: Site, evs: seq<Event>, c: Ctx, n: Notification)
    requires Run(site, evs) == Some(Request(Serving, c))
    requires (forall t :: site.rules.mode(t) != EngineOn) || !site.rules.responseBodyAccess || !site.bodyBlock
    ensures SendResponse(site.rules, site.cap, c, n).replacements == c.replacements
    ensures !Possible(site, Request(Serving, c), HeaderReportThrows(n))
    ensures !Possible(site, Request(Serving, c), PhaseFourReportThrows(n))
  {
    ReplacesIff(site, evs, c, n);
    if c.live && n.raw.Some? {
      FailedReportReplacesIff(site, Request(Serving, c), n);
    }
  }

  /** After these calls the engine was asked, disrupted, was told the status of the
      response it asked for, and logged. */
  predicate RuledAfter(rules: Rules, checked: Trace, c: Ctx, after: Ctx) {
    var m := |checked|;
    && |after.trace| == m + 3 && after.trace[..m] == checked
    && after.trace[m] == TakeIntervention && after.trace[m + 2] == ProcessLogging
    && Disrupts(rules, checked)
    && |after.replacements| == |c.replacements| + 1
    && var rep := after.replacements[|c.replacements|];
       && after.trace[m + 1] == UpdateStatusCode(rep.reported)
       && Asked(rules.intervention(checked).value, rep.location, rep.reported) && Sent(rep.reported, rep.sent)
  }

  lemma BlockedAt(rules: Rules, p: Ctx)
    requires p.live && Disrupts(rules, p.trace)
    ensures RuledAfter(rules, p.trace, p, Intervened(rules, p, true))
  {
    AnswerIsAsked(rules.intervention(p.trace).value);
  }

  lemma HeaderReplacement(site: Site, c: Ctx, n: Notification)
    requires c.live && n.raw.Some? && !c.headersFed && BlocksInHeaders(site, c, n.raw.value)
    ensures RuledAfter(site.rules, HeadersGiven(c.trace, n.raw.value), c, SendResponse(site.rules, site.cap, c, n))
  {
    TracesGiven(site, c, n.raw.value);
    BlockedAt(site.rules, HeadersProcessed(c, n.raw.value));
  }

  lemma PhaseFourReplacement(site: Site, c: Ctx, n: Notification)
    requires PhaseFourDue(c, n) && BlocksInPhaseFour(site, c, n.raw.value)
    requires c.headersFed || !BlocksInHeaders(site, c, n.raw.value)
    ensures RuledAfter(site.rules, BodyGiven(c.trace, c.headersFed, n.raw.value, site.cap) + [ProcessResponseBody], c,
                       SendResponse(site.rules, site.cap, c, n))
  {
    TracesGiven(site, c, n.raw.value);
    HeaderVerdict(site, c, n.raw.value);
    BlockedAt(site.rules, PhaseFourRun(ReadyForPhaseFour(site, c, n.raw.value)));
    PhaseFourBlocks(site, c, n);
  }

  /** What a replacing notification leaves behind, over every run: <responseBodyBlock> and
      response-body access are on, and the engine disrupted after the headers, with its
      mode On then, or after the body, with its mode On before processResponseBody. */
  lemma ReplacementWasRuled(site: Site, evs: seq<Event>, c: Ctx, n: Notification)
    requires Run(site, evs) == Some(Request(Serving, c))
    requires SendResponse(site.rules, site.cap, c, n).replacements != c.replacements
    ensures var after, headers := SendResponse(site.rules, site.cap, c, n), HeadersGiven(c.trace, n.raw.value);
            var body := BodyGiven(c.trace, SeenLate(evs), n.raw.value, site.cap);
            && site.bodyBlock && site.rules.responseBodyAccess
            && ((ModeIsOn(site.rules, headers) && RuledAfter(site.rules, headers, c, after))
                || (ModeIsOn(site.rules, body)
                    && RuledAfter(site.rules, body + [ProcessResponseBody], c, after)))
  {
    ReplacesIff(site, evs, c, n);
    RunFlags(site, evs, Request(Serving, c));
    SendReplacesIff(site, c, n);
    BlocksInHeadersIff(site, c, n.raw.value);
    if !c.headersFed && BlocksInHeaders(site, c, n.raw.value) {
      HeaderReplacement(site, c, n);
    } else {
      BlocksInPhaseFourIff(site, c, n.raw.value);
      PhaseFourReplacement(site, c, n);
    }
  }

  // ---- What the engine is given of a response ----

  /** The first notification to get to them gives the engine its response headers and its
      status, and reads the intervention whether or not it may act on it. */
  lemma EngineReceivesResponse(site: Site, c: Ctx, n: Notification)
    requires c.live && !c.headersFed && n.raw.Some?
    ensures HeadersGiven(c.trace, n.raw.value) + [TakeIntervention] <= SendResponse(site.rules, site.cap, c, n).trace
  {
    var raw := n.raw.value;
    var p := HeadersProcessed(c, raw);
    TracesGiven(site, c, raw);
    IntervenedReads(site.rules, p, BlockingEnabled(site.rules, p));
    var h := HeaderPhase(site.rules, c, raw);
    if h.live {
      ModesExtend(site.rules, BodyInspected(h, raw, site.cap), n.moreData);
      assert h.trace <= SendResponse(site.rules, site.cap, c, n).trace;
    }
  }

  lemma IntervenedReads(rules: Rules, c: Ctx, canBlock: bool)
    requires c.live
    ensures c.trace + [TakeIntervention] <= Intervened(rules, c, canBlock).trace
  {
  }

  /** A final notification that is not blocked by its headers, before any phase 4, runs
      phase 4 on its body and reads the intervention whether or not it may act on it. */
  lemma PhaseFourIsRead(site: Site, c: Ctx, n: Notification)
    requires PhaseFourDue(c, n) && (c.headersFed || !BlocksInHeaders(site, c, n.raw.value))
    ensures BodyGiven(c.trace, c.headersFed, n.raw.value, site.cap) + [ProcessResponseBody, TakeIntervention]
            <= SendResponse(site.rules, site.cap, c, n).trace
  {
    var raw := n.raw.value;
    TracesGiven(site, c, raw);
    HeaderVerdict(site, c, raw);
    var b := ReadyForPhaseFour(site, c, raw);
    EvaluateVerdict(site.rules, b, true);
    var canBlock := BlockingEnabled(site.rules, b);
    IntervenedReads(site.rules, PhaseFourRun(b), canBlock);
    assert SendResponse(site.rules, site.cap, c, n) == Evaluate(site.rules, b, canBlock);
    assert b.trace + [ProcessResponseBody] + [TakeIntervention] == b.trace + [ProcessResponseBody, TakeIntervention];
  }

  // ---- What a throwing notification gives the engine ----

  lemma HeaderPrefix(site: Site, c: Ctx, n: Notification, calls: nat)
    requires c.live && !c.headersFed && n.raw.Some? && calls <= 3
    ensures c.trace + HeaderCalls(n.raw.value)[..calls] <= SendResponse(site.rules, site.cap, c, n).trace
  {
    EngineReceivesResponse(site, c, n);
    var all := HeadersGiven(c.trace, n.raw.value) + [TakeIntervention];
    assert all == c.trace + HeaderCalls(n.raw.value);
    assert c.trace + HeaderCalls(n.raw.value)[..calls] == all[..|c.trace| + calls];
  }

  lemma BodyPrefix(site: Site, c: Ctx, n: Notification, k: int)
    requires c.live && n.raw.Some? && (c.headersFed || !BlocksInHeaders(site, c, n.raw.value))
    requires 0 <= k <= |Inspect(n.raw.value.chunks, site.cap).pieces| + 2
    requires k > |Inspect(n.raw.value.chunks, site.cap).pieces| ==> PhaseFourDue(c, n)
    ensures var h, appends := HeaderPhase(site.rules, c, n.raw.value), AppendCalls(Inspect(n.raw.value.chunks, site.cap).pieces);
            BodyCut(h, appends, k).trace <= SendResponse(site.rules, site.cap, c, n).trace
  {
    var raw := n.raw.value;
    var h, appends := HeaderPhase(site.rules, c, raw), AppendCalls(Inspect(raw.chunks, site.cap).pieces);
    HeaderVerdict(site, c, raw);
    var b := ReadyForPhaseFour(site, c, raw);
    if k <= |appends| {
      ModesExtend(site.rules, b, n.moreData);
    } else {
      TracesGiven(site, c, raw);
      PhaseFourIsRead(site, c, n);
    }
    CutOfAll(h, appends, k);
  }

  lemma CutOfAll(h: Ctx, appends: Trace, k: int)
    requires 0 <= k <= |appends| + 2
    ensures k <= |appends| ==> BodyCut(h, appends, k).trace <= h.trace + appends
    ensures k > |appends| ==>
              BodyCut(h, appends, k).trace <= h.trace + appends + [ProcessResponseBody, TakeIntervention]
  {
    var all := h.trace + appends + [ProcessResponseBody, TakeIntervention];
    assert BodyCut(h, appends, k).trace == all[..|h.trace| + k];
  }

  /** A notification that throws after so many calls has made just the first of the calls
      it would have made; one whose status report throws, all but processLogging. */
  lemma ThrowsArePrefixes(site: Site, c: Ctx, ev: Event)
    requires ThrowsInSend(ev) && Possible(site, Request(Serving, c), ev)
    ensures var all, made := SendResponse(site.rules, site.cap, c, ev.n).trace, Thrown(site, c, ev).trace;
            && made <= all
            && (ev.SendThrows? ==> |made| == |c.trace| + ev.calls)
            && (!ev.SendThrows? ==> all == made + [ProcessLogging])
  {
    match ev
    case SendThrows(n, calls) => CutIsPrefix(site, c, n, calls);
    case HeaderReportThrows(n) => HeaderBlocks(site, c, n);
    case PhaseFourReportThrows(n) => PhaseFourBlocks(site, c, n);
  }

  lemma CutIsPrefix(site: Site, c: Ctx, n: Notification, calls: nat)
    requires CanThrowInSend(site, c, n, calls)
    ensures var all, made := SendResponse(site.rules, site.cap, c, n).trace, SendCut(site, c, n, calls).trace;
            made <= all && |made| == |c.trace| + calls
  {
    var k := CallsAfterHeaders(c, calls);
    if k > 0 {
      HeaderVerdict(site, c, n.raw.value);
      BodyPrefix(site, c, n, k);
      HeaderLength(site, c, n.raw.value);
    } else if !c.headersFed {
      HeaderPrefix(site, c, n, calls);
    } else {
      SendExtends(site, c, n);
    }
  }

  lemma HeaderBlocks(site: Site, c: Ctx, n: Notification)
    requires c.live && n.raw.Some? && !c.headersFed && BlocksInHeaders(site, c, n.raw.value)
    ensures SendResponse(site.rules, site.cap, c, n) == Intervened(site.rules, HeadersProcessed(c, n.raw.value), true)
  {
  }

  lemma PhaseFourBlocks(site: Site, c: Ctx, n: Notification)
    requires PhaseFourDue(c, n) && BlocksInPhaseFour(site, c, n.raw.value)
    ensures SendResponse(site.rules, site.cap, c, n)
            == Intervened(site.rules, PhaseFourRun(ReadyForPhaseFour(site, c, n.raw.value)), true)
  {
    HeaderVerdict(site, c, n.raw.value);
    assert HeaderPhase(site.rules, c, n.raw.value).live;
  }

  lemma HeaderLength(site: Site, c: Ctx, raw: RawResponse)
    requires c.live && HeaderPhase(site.rules, c, raw).live
    ensures |HeaderPhase(site.rules, c, raw).trace| == |c.trace| + if c.headersFed then 0 else 3
  {
  }

  // ---- Content-Length ----

  /** A Content-Length the response already has stays, unless a block clears the response. */
  lemma ContentLengthIsKept(site: Site, c: Ctx, n: Notification, length: string)
    requires n.raw.Some? ==> n.raw.value.contentLength == Some(length)
    ensures LengthAfter(site.rules, site.cap, c, n, Some(length)) ==
              if SendResponse(site.rules, site.cap, c, n).live == c.live then Some(length) else None
  {
    if c.live && n.raw.Some? {
      SendVerdict(site, c, n);
    }
  }

  /** A Content-Length is set exactly when the response has none, its headers are still
      to be sent, and a final notification that may block, before any phase 4, inspected
      some bytes but fewer than the cap, and is not blocked. */
  lemma ContentLengthIsSetIff(site: Site, c: Ctx, n: Notification)
    requires n.raw.Some? ==> n.raw.value.contentLength == None
    ensures LengthAfter(site.rules, site.cap, c, n, None).Some? <==>
              && c.live && n.raw.Some? && !c.bodyEvaluated && !n.moreData && n.headersBeingSent
              && SendResponse(site.rules, site.cap, c, n).live
              && c.bodyBlock && site.rules.responseBodyAccess
              && ModeIsOn(site.rules, BodyGiven(c.trace, c.headersFed, n.raw.value, site.cap))
              && 0 < Inspect(n.raw.value.chunks, site.cap).count < site.cap
    ensures LengthAfter(site.rules, site.cap, c, n, None).Some? ==>
              LengthAfter(site.rules, site.cap, c, n, None)
              == Some(ContentLength.Decimal(Inspect(n.raw.value.chunks, site.cap).count))
  {
    if c.live && n.raw.Some? && SendResponse(site.rules, site.cap, c, n).live {
      var raw := n.raw.value;
      SendVerdict(site, c, n);
      HeaderVerdict(site, c, raw);
      TracesGiven(site, c, raw);
    }
  }
}
