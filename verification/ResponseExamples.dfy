/** Runs that reach the boundary cases of the response theorems, each on a request whose
    headers and body the rules let pass. */
module ResponseExamples {
  import opened Common
  import opened Engine
  import opened StoredContext
  import opened BodyDrain
  import opened ResponseBody
  import opened ResponsePhase
  import opened Lifecycle
  import opened ResponseTheorems

  // ---- A request that reaches its response ----

  /** The context of a request whose headers and empty body the rules let pass. */
  function Accepted(bodyBlock: bool, headers: seq<Header>): Ctx {
    Log(Log(Log(Begun(Installed(bodyBlock), headers), TakeIntervention), ProcessRequestBody), TakeIntervention)
  }

  const ALL_WELL := FinishEnv(true, true, NoThrow)

  function AcceptedRun(headers: seq<Header>): seq<Event> {
    [Begin(true, headers), BodyPhase([], [], ALL_WELL)]
  }

  /** The rules object to nothing in the request phases. */
  predicate LetsRequestPass(rules: Rules, bodyBlock: bool, headers: seq<Header>) {
    var p := Begun(Installed(bodyBlock), headers);
    && rules.intervention(p.trace).None?
    && rules.intervention(Log(Log(p, TakeIntervention), ProcessRequestBody).trace).None?
  }

  lemma StepTo(site: Site, evs: seq<Event>, r: Request, ev: Event)
    requires Run(site, evs) == Some(r) && Possible(site, r, ev)
    ensures Run(site, evs + [ev]) == Some(Step(site, r, ev))
  {
    RunSnoc(site, evs, ev);
  }

  lemma BeginPasses(site: Site, headers: seq<Header>)
    requires LetsRequestPass(site.rules, site.bodyBlock, headers)
    ensures var p := Begun(Installed(site.bodyBlock), headers);
            Step(site, Request(Starting, Installed(site.bodyBlock)), Begin(true, headers))
            == Request(ReadingBody, Log(p, TakeIntervention))
  {
  }

  lemma BodyPasses(site: Site, c: Ctx)
    requires c.live && site.rules.intervention(Log(c, ProcessRequestBody).trace).None?
    ensures Step(site, Request(ReadingBody, c), BodyPhase([], [], ALL_WELL))
            == Request(Serving, Log(Log(c, ProcessRequestBody), TakeIntervention))
  {
  }

  lemma RunToResponse(site: Site, headers: seq<Header>)
    requires LetsRequestPass(site.rules, site.bodyBlock, headers)
    ensures Run(site, AcceptedRun(headers)) == Some(Request(Serving, Accepted(site.bodyBlock, headers)))
  {
    var first, second := Begin(true, headers), BodyPhase([], [], ALL_WELL);
    BeginPasses(site, headers);
    BodyPasses(site, Log(Begun(Installed(site.bodyBlock), headers), TakeIntervention));
    StepTo(site, [], Request(Starting, Installed(site.bodyBlock)), first);
    assert [] + [first] == [first];
    StepTo(site, [first], Step(site, Request(Starting, Installed(site.bodyBlock)), first), second);
    assert [first] + [second] == AcceptedRun(headers);
  }

  // ---- A late replacement after an exception ----

  lemma InspectOneChunk(bytes: Bytes, cap: nat)
    requires 0 < |bytes| <= cap
    ensures Inspect([Memory(bytes)], cap) == Inspection([bytes], |bytes|)
  {
    var chunks := [Memory(bytes)];
    assert chunks[..0] == [];
    FlattenOne(bytes);
    assert bytes[..|bytes|] == bytes;
    assert ChunkPieces(0, chunks[0], cap) == [bytes];
    assert [] + [bytes] == [bytes];
  }

  /** An engine that is on and objects to nothing but, in phase 4, everything. */
  function StrictInPhaseFour(): Rules {
    Rules(t => if |t| > 0 && t[|t| - 1] == ProcessResponseBody then Some(Intervention(true, 403, "")) else None,
          t => EngineOn,
          true)
  }

  /** Mode A on a live blocking context replaces the response under such an engine. */
  lemma StrictEngineReplaces(cap: nat, c: Ctx, n: Notification)
    requires c.live && c.headersFed && c.bodyBlock && !c.bodyEvaluated && n.raw.Some? && !n.moreData
    ensures SendResponse(StrictInPhaseFour(), cap, c, n).replacements != c.replacements
  {
    var rules := StrictInPhaseFour();
    var b := BodyInspected(c, n.raw.value, cap);
    assert BlockingEnabled(rules, b);
    var p := Log(b.(bodyEvaluated := true), ProcessResponseBody);
    assert Honoured(rules, p, true).Some?;
    assert |Evaluate(rules, b, true).replacements| == |c.replacements| + 1;
  }

  lemma StrictHeadersPass(c: Ctx, raw: RawResponse)
    requires c.live && !c.headersFed
    ensures var h := HeaderPhase(StrictInPhaseFour(), c, raw);
            h.live && h.headersFed && h.bodyBlock == c.bodyBlock && h.bodyEvaluated == c.bodyEvaluated
  {
    var p := HeadersProcessed(c, raw);
    assert p.trace[|p.trace| - 1] == ProcessResponseHeaders(raw.status);
  }

  /** An exception in the fourth engine call strikes while the first chunk is fed. */
  lemma CutAtFirstChunk(site: Site, c: Ctx, n: Notification)
    requires site.rules == StrictInPhaseFour() && site.cap >= 1
    requires c.live && !c.headersFed && c.bodyBlock && !c.bodyEvaluated
    requires n.raw.Some? && n.raw.value.chunks == [Memory([1])]
    ensures CanThrowInSend(site, c, n, 4)
    ensures var cut := SendCut(site, c, n, 4);
            cut.live && cut.headersFed && cut.bodyBlock && !cut.bodyEvaluated
  {
    InspectOneChunk([1], site.cap);
    StrictHeadersPass(c, n.raw.value);
  }

  lemma StrictLetsRequestPass(bodyBlock: bool, headers: seq<Header>)
    ensures LetsRequestPass(StrictInPhaseFour(), bodyBlock, headers)
    ensures LetsRequestPass(StrictInHeaders(), bodyBlock, headers)
  {
    var p := Begun(Installed(bodyBlock), headers);
    assert p.trace[|p.trace| - 1] == ProcessRequestHeaders;
    var q := Log(Log(p, TakeIntervention), ProcessRequestBody);
    assert q.trace[|q.trace| - 1] == ProcessRequestBody;
  }

  /** An exception in the inspection of a response with MORE_DATA skips the downgrade,
      and the next notification replaces the response although part of it may be on its
      way. */
  lemma SkipsDowngrade(site: Site, before: seq<Event>, c: Ctx, first: Notification, n: Notification)
    requires Run(site, before) == Some(Request(Serving, c))
    requires c.live && !c.headersFed && c.bodyBlock && !c.bodyEvaluated && c.replacements == []
    requires site.rules == StrictInPhaseFour() && site.cap >= 1
    requires first.raw.Some? && first.raw.value.chunks == [Memory([1])] && first.moreData
    requires n.raw.Some? && !n.moreData
    ensures var evs := before + [SendThrows(first, 4)];
            && LetGo(evs) && Run(site, evs).Some? && Run(site, evs).value.stage == Serving
            && var c' := Run(site, evs).value.ctx;
               SendResponse(site.rules, site.cap, c', n).replacements != c'.replacements
  {
    CutAtFirstChunk(site, c, first);
    StepTo(site, before, Request(Serving, c), SendThrows(first, 4));
    StrictEngineReplaces(site.cap, SendCut(site, c, first, 4), n);
    assert Late((before + [SendThrows(first, 4)])[|before|]);
  }

  lemma ExceptionSkipsDowngrade(site: Site, headers: seq<Header>, first: Notification, n: Notification)
    requires site.rules == StrictInPhaseFour() && site.bodyBlock && site.cap >= 1
    requires first.raw.Some? && first.raw.value.chunks == [Memory([1])] && first.moreData
    requires n.raw.Some? && !n.moreData
    ensures var evs := AcceptedRun(headers) + [SendThrows(first, 4)];
            && LetGo(evs) && Run(site, evs).Some? && Run(site, evs).value.stage == Serving
            && var c := Run(site, evs).value.ctx;
               SendResponse(site.rules, site.cap, c, n).replacements != c.replacements
  {
    StrictLetsRequestPass(true, headers);
    RunToResponse(site, headers);
    SkipsDowngrade(site, AcceptedRun(headers), Accepted(true, headers), first, n);
  }

  // ---- A late replacement without an exception ----

  /** An engine that is on and objects to all response headers, and to nothing else. */
  function StrictInHeaders(): Rules {
    Rules((t: Trace) => if |t| > 0 && t[|t| - 1].ProcessResponseHeaders? then Some(Intervention(true, 403, "")) else None,
          t => EngineOn,
          true)
  }

  /** A notification without a raw view is let go, and the next one replaces the response
      because of its headers. */
  lemma InvisibleIsReplaced(site: Site, before: seq<Event>, c: Ctx, first: Notification, n: Notification)
    requires Run(site, before) == Some(Request(Serving, c))
    requires c.live && !c.headersFed && c.bodyBlock && site.rules == StrictInHeaders()
    requires first.raw.None? && n.raw.Some?
    ensures var evs := before + [Send(first)];
            && LetGo(evs) && Run(site, evs) == Some(Request(Serving, c))
            && SendResponse(site.rules, site.cap, c, n).replacements != c.replacements
  {
    StepTo(site, before, Request(Serving, c), Send(first));
    assert Invisible((before + [Send(first)])[|before|]);
    var p := HeadersProcessed(c, n.raw.value);
    assert p.trace[|p.trace| - 1] == ProcessResponseHeaders(n.raw.value.status);
    SendReplacesIff(site, c, n);
  }

  lemma InvisibleThenReplaced(site: Site, headers: seq<Header>, first: Notification, n: Notification)
    requires site.rules == StrictInHeaders() && site.bodyBlock
    requires first.raw.None? && n.raw.Some?
    ensures var evs := AcceptedRun(headers) + [Send(first)];
            && LetGo(evs) && Run(site, evs).Some? && Run(site, evs).value.stage == Serving
            && var c := Run(site, evs).value.ctx;
               SendResponse(site.rules, site.cap, c, n).replacements != c.replacements
  {
    StrictLetsRequestPass(true, headers);
    RunToResponse(site, headers);
    InvisibleIsReplaced(site, AcceptedRun(headers), Accepted(true, headers), first, n);
  }

  // ---- Headers fed twice ----

  /** The first notification throws after addResponseHeader, and the next one feeds the
      headers again. */
  lemma FedAgain(site: Site, before: seq<Event>, c: Ctx, n: Notification)
    requires Run(site, before) == Some(Request(Serving, c)) && !SeenTry(before)
    requires c.live && !c.headersFed && n.raw.Some?
    ensures var evs := before + [SendThrows(n, 1)] + [Send(n)];
            Run(site, evs).Some? && HeadersRefed(evs) && !Ordered(Run(site, evs).value.ctx.trace)
  {
    var thrown := before + [SendThrows(n, 1)];
    StepTo(site, before, Request(Serving, c), SendThrows(n, 1));
    StepTo(site, thrown, Run(site, thrown).value, Send(n));
    SeenSnoc(site, before, SendThrows(n, 1));
    SeenSnoc(site, thrown, Send(n));
    PhaseOrder(site, thrown + [Send(n)], Run(site, thrown + [Send(n)]).value);
  }

  lemma HeadersFedTwice(site: Site, headers: seq<Header>, n: Notification)
    requires LetsRequestPass(site.rules, site.bodyBlock, headers) && n.raw.Some?
    ensures var evs := AcceptedRun(headers) + [SendThrows(n, 1)] + [Send(n)];
            Run(site, evs).Some? && HeadersRefed(evs) && !Ordered(Run(site, evs).value.ctx.trace)
  {
    RunToResponse(site, headers);
    assert forall i :: 0 <= i < 2 ==> !Tries(AcceptedRun(headers)[i]);
    FedAgain(site, AcceptedRun(headers), Accepted(site.bodyBlock, headers), n);
  }
}
