/** Phase order, the place of phase 4, and the safety of response replacement, over
    every run: with or without notifications that end in an exception. */
module ResponseTheorems {
  import opened Common
  import opened Engine
  import opened StoredContext
  import opened BodyDrain
  import opened ResponseBody
  import opened ResponsePhase
  import opened Lifecycle

  // ---- What has happened in a run ----

  /** A notification whose response the module can see. */
  predicate Visible(ev: Event) {
    ev.Send? && ev.n.raw.Some?
  }

  /** A visible notification that ends the response. */
  predicate Final(ev: Event) {
    Visible(ev) && !ev.n.moreData
  }

  /** A notification without a raw view: the module skips it, and its response goes out. */
  predicate Invisible(ev: Event) {
    ev.Send? && ev.n.raw.None?
  }

  /** A notification that threw after its header phase: its response goes out. */
  predicate Late(ev: Event) {
    (ev.SendThrows? && ev.calls > 3) || ev.PhaseFourReportThrows?
  }

  /** A notification that threw inside its header phase, after feeding headers. */
  predicate HeaderThrow(ev: Event) {
    (ev.SendThrows? && 1 <= ev.calls <= 3) || ev.HeaderReportThrows?
  }

  /** A notification that got as far as the response headers. */
  predicate Tries(ev: Event) {
    Visible(ev) || Late(ev) || HeaderThrow(ev)
  }

  predicate SeenVisible(evs: seq<Event>) {
    exists i :: 0 <= i < |evs| && Visible(evs[i])
  }

  predicate SeenLate(evs: seq<Event>) {
    exists i :: 0 <= i < |evs| && Late(evs[i])
  }

  predicate SeenTry(evs: seq<Event>) {
    exists i :: 0 <= i < |evs| && Tries(evs[i])
  }

  predicate SeenInvisible(evs: seq<Event>) {
    exists i :: 0 <= i < |evs| && Invisible(evs[i])
  }

  /** Some notification got past the response headers. */
  predicate PastHeaders(evs: seq<Event>) {
    SeenVisible(evs) || SeenLate(evs)
  }

  /** Part of the response may already be on its way to the client: some notification
      was answered with CONTINUE. */
  predicate LetGo(evs: seq<Event>) {
    PastHeaders(evs) || SeenInvisible(evs)
  }

  /** The event runs phase 4, if the transaction is still there: a final notification,
      or one that threw after the last of its chunks was fed. */
  predicate RunsPhaseFour(site: Site, before: seq<Event>, ev: Event) {
    || Final(ev)
    || ev.PhaseFourReportThrows?
    || (ev.SendThrows? && ev.n.raw.Some?
        && (if PastHeaders(before) then ev.calls else ev.calls - 3) > |Inspect(ev.n.raw.value.chunks, site.cap).pieces|)
  }

  predicate SeenPhaseFour(site: Site, evs: seq<Event>) {
    exists i :: 0 <= i < |evs| && RunsPhaseFour(site, evs[..i], evs[i])
  }

  /** The first notification to reach the headers threw inside its header phase. */
  predicate HeadersHeldUp(evs: seq<Event>) {
    evs != [] &&
    var front, ev := evs[..|evs| - 1], evs[|evs| - 1];
    HeadersHeldUp(front) || (!SeenTry(front) && HeaderThrow(ev))
  }

  /** After that, some notification reached the headers again. */
  predicate HeadersRefed(evs: seq<Event>) {
    evs != [] &&
    var front, ev := evs[..|evs| - 1], evs[|evs| - 1];
    HeadersRefed(front) || (HeadersHeldUp(front) && Tries(ev))
  }

  lemma SeenSnoc(site: Site, evs: seq<Event>, ev: Event)
    ensures SeenVisible(evs + [ev]) <==> SeenVisible(evs) || Visible(ev)
    ensures SeenLate(evs + [ev]) <==> SeenLate(evs) || Late(ev)
    ensures SeenTry(evs + [ev]) <==> SeenTry(evs) || Tries(ev)
    ensures SeenPhaseFour(site, evs + [ev]) <==> SeenPhaseFour(site, evs) || RunsPhaseFour(site, evs, ev)
    ensures HeadersHeldUp(evs + [ev]) <==> HeadersHeldUp(evs) || (!SeenTry(evs) && HeaderThrow(ev))
    ensures HeadersRefed(evs + [ev]) <==> HeadersRefed(evs) || (HeadersHeldUp(evs) && Tries(ev))
  {
    var all := evs + [ev];
    assert all[..|evs|] == evs && all[|evs|] == ev && |all| - 1 == |evs|;
    SeenVisibleSnoc(evs, ev);
    SeenLateSnoc(evs, ev);
    SeenTrySnoc(evs, ev);
    SeenPhaseFourSnoc(site, evs, ev);
  }

  lemma SeenVisibleSnoc(evs: seq<Event>, ev: Event)
    ensures SeenVisible(evs + [ev]) <==> SeenVisible(evs) || Visible(ev)
  {
    var all := evs + [ev];
    assert all[|evs|] == ev;
    assert forall i :: 0 <= i < |evs| ==> all[i] == evs[i];
  }

  lemma SeenLateSnoc(evs: seq<Event>, ev: Event)
    ensures SeenLate(evs + [ev]) <==> SeenLate(evs) || Late(ev)
  {
    var all := evs + [ev];
    assert all[|evs|] == ev;
    assert forall i :: 0 <= i < |evs| ==> all[i] == evs[i];
  }

  lemma SeenTrySnoc(evs: seq<Event>, ev: Event)
    ensures SeenTry(evs + [ev]) <==> SeenTry(evs) || Tries(ev)
  {
    var all := evs + [ev];
    assert all[|evs|] == ev;
    assert forall i :: 0 <= i < |evs| ==> all[i] == evs[i];
  }

  lemma SeenPhaseFourSnoc(site: Site, evs: seq<Event>, ev: Event)
    ensures SeenPhaseFour(site, evs + [ev]) <==> SeenPhaseFour(site, evs) || RunsPhaseFour(site, evs, ev)
  {
    var all := evs + [ev];
    assert all[..|evs|] == evs && all[|evs|] == ev;
    forall i | 0 <= i < |evs|
      ensures RunsPhaseFour(site, all[..i], all[i]) <==> RunsPhaseFour(site, evs[..i], evs[i])
    {
      assert all[..i] == evs[..i];
    }
  }

  // ---- The flags of the context, over every run ----

  /** The flags agree with what has happened; after a completed visible notification
      either phase 4 is done or blocking is off. */
  ghost predicate Flagged(site: Site, evs: seq<Event>, r: Request) {
    && (r.stage == Starting || r.stage == ReadingBody ==>
          && r.ctx.live && !r.ctx.headersFed && !r.ctx.bodyEvaluated
          && !SeenTry(evs) && !PastHeaders(evs) && !SeenPhaseFour(site, evs))
    && (r.stage == Gone ==> !r.ctx.live)
    && (r.ctx.live ==>
          && (r.ctx.headersFed <==> PastHeaders(evs))
          && (r.ctx.bodyEvaluated <==> SeenPhaseFour(site, evs))
          && (r.ctx.bodyEvaluated ==> r.ctx.headersFed)
          && (SeenVisible(evs) ==> r.ctx.bodyEvaluated || !BlockingEnabled(site.rules, r.ctx)))
  }

  lemma HeaderFlags(rules: Rules, c: Ctx, raw: RawResponse)
    requires c.live
    ensures var h := HeaderPhase(rules, c, raw);
            h.live ==> h.headersFed && h.bodyEvaluated == c.bodyEvaluated && h.replacements == c.replacements
  {
  }

  lemma BlockingKept(rules: Rules, c: Ctx, raw: RawResponse, cap: nat)
    ensures BlockingEnabled(rules, BodyInspected(c, raw, cap)) == BlockingEnabled(rules, c)
  {
    ModeKept(rules, c.trace, AppendCalls(Inspect(raw.chunks, cap).pieces));
  }

  lemma EvaluateFlags(rules: Rules, c: Ctx, canBlock: bool)
    requires c.live
    ensures var e := Evaluate(rules, c, canBlock);
            && (e.live ==> e.bodyEvaluated && e.headersFed == c.headersFed && e.replacements == c.replacements)
            && (!canBlock ==> e.live)
  {
  }

  /** What a visible notification makes of the flags. */
  lemma SendFlags(site: Site, c: Ctx, n: Notification)
    requires c.live && n.raw.Some?
    ensures var after := SendResponse(site.rules, site.cap, c, n);
            after.live ==>
              && after.headersFed
              && (after.bodyEvaluated <==> c.bodyEvaluated || !n.moreData)
              && (after.bodyEvaluated || !BlockingEnabled(site.rules, after))
              && after.replacements == c.replacements
  {
    HeaderFlags(site.rules, c, n.raw.value);
    var h := HeaderPhase(site.rules, c, n.raw.value);
    if h.live {
      var b := BodyInspected(h, n.raw.value, site.cap);
      EvaluateFlags(site.rules, b, true);
      EvaluateFlags(site.rules, b, false);
    }
  }

  /** What a notification that throws makes of the flags. */
  lemma CutFlags(site: Site, c: Ctx, n: Notification, calls: nat)
    requires CanThrowInSend(site, c, n, calls)
    ensures var cut := SendCut(site, c, n, calls);
            var k := CallsAfterHeaders(c, calls);
            && cut.live && cut.bodyBlock == c.bodyBlock
            && (cut.headersFed <==> c.headersFed || calls > 3)
            && (cut.bodyEvaluated <==>
                  c.bodyEvaluated || k > |Inspect(n.raw.value.chunks, site.cap).pieces|)
            && (c.headersFed && !cut.bodyEvaluated ==>
                  BlockingEnabled(site.rules, cut) == BlockingEnabled(site.rules, c))
  {
    HeaderFlags(site.rules, c, n.raw.value);
    var k := CallsAfterHeaders(c, calls);
    var appends := AppendCalls(Inspect(n.raw.value.chunks, site.cap).pieces);
    if 0 < k <= |appends| {
      ModeKept(site.rules, HeaderPhase(site.rules, c, n.raw.value).trace, appends[..k]);
    }
  }

  lemma StepFlags(site: Site, evs: seq<Event>, r: Request, ev: Event)
    requires Possible(site, r, ev) && Flagged(site, evs, r)
    ensures Flagged(site, evs + [ev], Step(site, r, ev))
  {
    SeenSnoc(site, evs, ev);
    match ev
    case Begin(_, _) =>
    case BeginThrows(_, _) =>
    case BeginReportThrows(_) =>
    case BodyPhase(body, rest, env) => BodyFlags(site, r.ctx, body, rest, env);
    case BodyThrows =>
    case Send(n) =>
      if r.ctx.live && n.raw.Some? {
        SendFlags(site, r.ctx, n);
      }
    case SendThrows(n, calls) => CutFlags(site, r.ctx, n, calls);
    case HeaderReportThrows(_) =>
    case PhaseFourReportThrows(n) => HeaderFlags(site.rules, r.ctx, n.raw.value);
    case Cleanup =>
  }

  lemma BodyFlags(site: Site, c: Ctx, body: Bytes, rest: Bytes, env: FinishEnv)
    ensures var after := Finish(site.rules, c, body, rest, site.cap, env).ctx;
            after.headersFed == c.headersFed && after.bodyEvaluated == c.bodyEvaluated
  {
    IntervenedFlags(site.rules, Log(Fed(c, body, site.cap), ProcessRequestBody), true);
  }

  lemma IntervenedFlags(rules: Rules, c: Ctx, canBlock: bool)
    ensures var after := Intervened(rules, c, canBlock);
            after.headersFed == c.headersFed && after.bodyEvaluated == c.bodyEvaluated
  {
  }

  lemma {:induction false} RunFlags(site: Site, evs: seq<Event>, r: Request)
    requires Run(site, evs) == Some(r)
    ensures Flagged(site, evs, r)
  {
    if evs != [] {
      var front, ev := evs[..|evs| - 1], evs[|evs| - 1];
      var before := Run(site, front).value;
      RunFlags(site, front, before);
      assert front + [ev] == evs;
      StepFlags(site, front, before, ev);
    }
  }

  // ---- Replacement ----

  /** One notification, exactly: when the response is replaced. */
  lemma SendReplacesIff(site: Site, c: Ctx, n: Notification)
    requires c.live && n.raw.Some?
    ensures SendResponse(site.rules, site.cap, c, n).replacements != c.replacements <==>
              || (!c.headersFed && BlocksInHeaders(site, c, n.raw.value))
              || (!c.bodyEvaluated && !n.moreData && BlocksInPhaseFour(site, c, n.raw.value))
    ensures SendResponse(site.rules, site.cap, c, n).replacements != c.replacements <==>
              !SendResponse(site.rules, site.cap, c, n).live
  {
    SendVerdict(site, c, n);
    HeaderVerdict(site, c, n.raw.value);
  }

  /** A notification whose status report throws has replaced the response just where one
      that completes would have. */
  lemma FailedReportReplacesIff(site: Site, r: Request, n: Notification)
    requires r.stage == Serving && r.ctx.live && n.raw.Some?
    ensures Possible(site, r, HeaderReportThrows(n)) || Possible(site, r, PhaseFourReportThrows(n))
            <==> SendResponse(site.rules, site.cap, r.ctx, n).replacements != r.ctx.replacements
  {
    assert Possible(site, r, HeaderReportThrows(n)) <==>
        !r.ctx.headersFed && BlocksInHeaders(site, r.ctx, n.raw.value);
    assert Possible(site, r, PhaseFourReportThrows(n)) <==>
        !r.ctx.bodyEvaluated && !n.moreData && BlocksInPhaseFour(site, r.ctx, n.raw.value);
    SendReplacesIff(site, r.ctx, n);
  }

  /** After a completed visible notification no rule can block in phase 4 any more. */
  lemma VisibleEndsBlocking(site: Site, evs: seq<Event>, c: Ctx, raw: RawResponse)
    requires Flagged(site, evs, Request(Serving, c)) && c.live && SeenVisible(evs)
    ensures c.headersFed && (c.bodyEvaluated || !BlocksInPhaseFour(site, c, raw))
  {
    BlockingKept(site.rules, c, raw, site.cap);
  }

  /** Over every run, exceptions included: a notification replaces the response exactly
      when no visible one has completed before it, blocking is enabled, and the rules
      object to the headers -- if no earlier notification got past them -- or, with no
      more data to follow and phase 4 not yet run, to the body. */
  lemma ReplacedIff(site: Site, evs: seq<Event>, c: Ctx, n: Notification)
    requires Run(site, evs) == Some(Request(Serving, c))
    ensures SendResponse(site.rules, site.cap, c, n).replacements != c.replacements <==>
              && c.live && n.raw.Some? && !SeenVisible(evs)
              && ((!SeenLate(evs) && BlocksInHeaders(site, c, n.raw.value))
                  || (!SeenPhaseFour(site, evs) && !n.moreData && BlocksInPhaseFour(site, c, n.raw.value)))
  {
    RunFlags(site, evs, Request(Serving, c));
    if c.live && n.raw.Some? {
      SendReplacesIff(site, c, n);
      if SeenVisible(evs) {
        VisibleEndsBlocking(site, evs, c, n.raw.value);
      }
    }
  }

  /** Over every run, a rule can replace the response only while no visible notification
      has completed -- so only in the first, when none throws -- and, once its header
      phase has let the response pass, only if no more data follows. */
  lemma ReplacementIsSafe(site: Site, evs: seq<Event>, c: Ctx, n: Notification)
    requires Run(site, evs) == Some(Request(Serving, c))
    requires SendResponse(site.rules, site.cap, c, n).replacements != c.replacements
    ensures !SeenVisible(evs) && n.raw.Some?
    ensures HeaderPhase(site.rules, c, n.raw.value).live ==> !n.moreData
  {
    ReplacedIff(site, evs, c, n);
    HeaderVerdict(site, c, n.raw.value);
    RunFlags(site, evs, Request(Serving, c));
  }

  /** When every notification has a raw view, the response is replaced only before any
      other RQ_SEND_RESPONSE of the request has completed. */
  lemma OnlyFirstSendIsReplaced(site: Site, evs: seq<Event>, c: Ctx, n: Notification)
    requires Run(site, evs) == Some(Request(Serving, c))
    requires forall i :: 0 <= i < |evs| && evs[i].Send? ==> evs[i].n.raw.Some?
    requires SendResponse(site.rules, site.cap, c, n).replacements != c.replacements
    ensures forall i :: 0 <= i < |evs| ==> !evs[i].Send?
  {
    ReplacementIsSafe(site, evs, c, n);
    assert forall i :: 0 <= i < |evs| ==> !Visible(evs[i]);
  }

  /** When a replacement comes too late, exactly: part of the response may be on its way
      if and only if an earlier notification had no raw view or threw after its header
      phase, no visible one has completed, and the rules now block in the first header
      phase to end or in the first phase 4. So a run in which every notification has a raw
      view and none throws past the headers never replaces what was let go. */
  lemma LateReplacementIff(site: Site, evs: seq<Event>, c: Ctx, n: Notification)
    requires Run(site, evs) == Some(Request(Serving, c))
    ensures LetGo(evs) && SendResponse(site.rules, site.cap, c, n).replacements != c.replacements <==>
              && (SeenLate(evs) || SeenInvisible(evs)) && !SeenVisible(evs)
              && c.live && n.raw.Some?
              && ((!SeenLate(evs) && BlocksInHeaders(site, c, n.raw.value))
                  || (!n.moreData && !SeenPhaseFour(site, evs) && BlocksInPhaseFour(site, c, n.raw.value)))
  {
    ReplacedIff(site, evs, c, n);
  }

  // ---- Phase 4 ----

  /** The calls a step adds to the trace. */
  function NewCalls(before: Trace, after: Trace): Trace {
    if |before| <= |after| then after[|before|..] else []
  }

  lemma IntervenedExtends(rules: Rules, c: Ctx, canBlock: bool)
    ensures c.trace <= Intervened(rules, c, canBlock).trace
    ensures ProcessResponseBody !in NewCalls(c.trace, Intervened(rules, c, canBlock).trace)
    ensures Intervened(rules, c, canBlock).live ==> Intervened(rules, c, canBlock).replacements == c.replacements
  {
  }

  lemma EvaluateExtends(rules: Rules, c: Ctx, canBlock: bool)
    requires c.live
    ensures c.trace + [ProcessResponseBody] <= Evaluate(rules, c, canBlock).trace
  {
    IntervenedExtends(rules, Log(c.(bodyEvaluated := true), ProcessResponseBody), canBlock);
  }

  lemma NewCallsCompose(before: Trace, more: Trace)
    ensures NewCalls(before, before + more) == more
  {
  }

  lemma QuietTail(before: Trace, mid: Trace, appends: Trace)
    requires before <= mid && ProcessResponseBody !in NewCalls(before, mid)
    requires forall c <- appends :: c.AppendResponseBody?
    ensures before <= mid + appends && ProcessResponseBody !in NewCalls(before, mid + appends)
  {
    assert mid == before + NewCalls(before, mid);
    assert mid + appends == before + (NewCalls(before, mid) + appends);
    NewCallsCompose(before, NewCalls(before, mid) + appends);
  }

  /** The header phase runs no phase 4. */
  lemma HeadersExtend(rules: Rules, c: Ctx, raw: RawResponse)
    requires c.live
    ensures var h := HeaderPhase(rules, c, raw);
            c.trace <= h.trace && ProcessResponseBody !in NewCalls(c.trace, h.trace)
  {
    if !c.headersFed {
      var p, fed := HeadersProcessed(c, raw), [AddResponseHeaders(raw.headers), ProcessResponseHeaders(raw.status)];
      IntervenedExtends(rules, p, BlockingEnabled(rules, p));
      var h := HeaderPhase(rules, c, raw);
      assert p.trace == c.trace + fed;
      assert h.trace == p.trace + NewCalls(p.trace, h.trace);
      assert h.trace == c.trace + (fed + NewCalls(p.trace, h.trace));
      NewCallsCompose(c.trace, fed + NewCalls(p.trace, h.trace));
    }
  }

  /** Up to the end of the inspection no notification runs phase 4. */
  lemma InspectionExtends(site: Site, c: Ctx, raw: RawResponse)
    requires c.live
    ensures var b := BodyInspected(HeaderPhase(site.rules, c, raw), raw, site.cap);
            c.trace <= b.trace && ProcessResponseBody !in NewCalls(c.trace, b.trace)
  {
    HeadersExtend(site.rules, c, raw);
    var h := HeaderPhase(site.rules, c, raw).trace;
    QuietTail(c.trace, h, AppendCalls(Inspect(raw.chunks, site.cap).pieces));
  }

  /** Over every run, unless a block ended the transaction before, processResponseBody
      runs in a notification exactly when it is visible and has no MORE_DATA, and no
      event before it ran phase 4: in Mode A, in Mode B and after a downgrade alike; and
      the engine has been given that notification's body by then. */
  lemma PhaseFourAtFirstFinalSend(site: Site, evs: seq<Event>, c: Ctx, n: Notification)
    requires Run(site, evs) == Some(Request(Serving, c)) && c.live
    requires n.raw.Some? ==> HeaderPhase(site.rules, c, n.raw.value).live
    ensures ProcessResponseBody in NewCalls(c.trace, SendResponse(site.rules, site.cap, c, n).trace)
            <==> Final(Send(n)) && !SeenPhaseFour(site, evs)
    ensures Final(Send(n)) && !SeenPhaseFour(site, evs) ==>
              var inspected := BodyInspected(HeaderPhase(site.rules, c, n.raw.value), n.raw.value, site.cap);
              inspected.trace + [ProcessResponseBody] <= SendResponse(site.rules, site.cap, c, n).trace
  {
    RunFlags(site, evs, Request(Serving, c));
    if n.raw.Some? {
      var raw := n.raw.value;
      InspectionExtends(site, c, raw);
      HeaderFlags(site.rules, c, raw);
      var b := BodyInspected(HeaderPhase(site.rules, c, raw), raw, site.cap);
      var after := SendResponse(site.rules, site.cap, c, n);
      if Final(Send(n)) && !SeenPhaseFour(site, evs) {
        EvaluateExtends(site.rules, b, true);
        EvaluateExtends(site.rules, b, false);
        assert b.trace + [ProcessResponseBody] <= after.trace;
        assert after.trace[|b.trace|] == ProcessResponseBody;
        assert NewCalls(c.trace, after.trace)[|b.trace| - |c.trace|] == ProcessResponseBody;
      } else {
        assert after.trace == b.trace;
      }
    }
  }

  // ---- Order of calls ----

  /** A context whose calls are in order and have reached at most this phase. */
  ghost predicate Reached(c: Ctx, phase: nat) {
    Ordered(c.trace) && (c.live ==> UpTo(c.trace, phase))
  }

  lemma ReachedLog(c: Ctx, call: EngineCall, from: nat, to: nat)
    requires c.live && Reached(c, from) && from < 10
    requires to == (if Phase(call) == 0 then from else Phase(call)) && (Phase(call) == 0 || Phase(call) > from)
    ensures Reached(Log(c, call), to)
  {
    OrderedSnoc(c.trace, call, from);
  }

  lemma ReachedFinished(c: Ctx, phase: nat)
    requires Reached(c, phase) && phase < 10
    ensures Reached(Finished(c), phase)
  {
    if c.live {
      OrderedSnoc(c.trace, ProcessLogging, phase);
    }
  }

  lemma ReachedIntervened(rules: Rules, c: Ctx, canBlock: bool, phase: nat)
    requires Reached(c, phase) && phase < 10
    ensures Reached(Intervened(rules, c, canBlock), phase)
  {
    if c.live {
      ReachedLog(c, TakeIntervention, phase, phase);
      if Honoured(rules, c, canBlock).Some? {
        var rep := ReplacementFor(Honoured(rules, c, canBlock).value);
        ReachedReplaced(c, rep, phase);
        ReachedFinished(Replaced(c, rep), phase);
      }
    }
  }

  lemma ReachedReplaced(c: Ctx, rep: Replacement, phase: nat)
    requires c.live && Reached(c, phase) && phase < 10
    ensures Reached(Replaced(c, rep), phase)
  {
    ReachedLog(c, TakeIntervention, phase, phase);
    ReachedLog(Log(c, TakeIntervention), UpdateStatusCode(rep.reported), phase, phase);
  }

  /** Any initial part of the calls of OnBeginRequest is in order. */
  lemma BeginCallsInOrder(headers: seq<Header>, k: nat)
    requires k <= 5
    ensures var calls := (BeginCalls(headers) + [TakeIntervention])[..k]; Ordered(calls) && UpTo(calls, 4)
  {
  }

  lemma ReachedBegin(site: Site, r: Request, ev: Event)
    requires Possible(site, r, ev) && (ev.Begin? || ev.BeginThrows? || ev.BeginReportThrows?)
    requires r.ctx.live && Reached(r.ctx, 0)
    ensures Reached(Step(site, r, ev).ctx, 4)
  {
    var c := r.ctx;
    if ev.BeginThrows? {
      BeginCallsInOrder(ev.headers, ev.calls);
      OrderedAppend(c.trace, (BeginCalls(ev.headers) + [TakeIntervention])[..ev.calls]);
    } else {
      var p := Begun(c, ev.headers);
      BeginCallsInOrder(ev.headers, 4);
      assert (BeginCalls(ev.headers) + [TakeIntervention])[..4] == BeginCalls(ev.headers);
      OrderedAppend(c.trace, BeginCalls(ev.headers));
      ReachedIntervened(site.rules, p, true, 4);
      if Answer(site.rules, p).Some? {
        ReachedReplaced(p, Answer(site.rules, p).value, 4);
      }
    }
  }

  /** Appending calls that are in order among themselves and follow everything before. */
  lemma OrderedAppend(trace: Trace, more: Trace)
    requires Ordered(trace) && UpTo(trace, 0) && Ordered(more) && UpTo(more, 4)
    ensures Ordered(trace + more) && UpTo(trace + more, 4)
  {
    var t := trace + more;
    assert forall i :: 0 <= i < |trace| ==> t[i] == trace[i];
    assert forall i :: |trace| <= i < |t| ==> t[i] == more[i - |trace|];
  }

  lemma ReachedFed(c: Ctx, body: Bytes, cap: nat)
    requires c.live && Reached(c, 4)
    ensures Reached(Fed(c, body, cap), 5) && Reached(Log(Fed(c, body, cap), ProcessRequestBody), 6)
  {
    ReachedLog(c, AppendRequestBody(Inspected(body, cap)), 4, 5);
    assert UpTo(c.trace, 5);
    ReachedLog(Fed(c, body, cap), ProcessRequestBody, 5, 6);
  }

  lemma ReachedBody(site: Site, c: Ctx, body: Bytes, rest: Bytes, env: FinishEnv)
    requires c.live && Reached(c, 4)
    ensures var after := Finish(site.rules, c, body, rest, site.cap, env).ctx;
            Reached(after, 6) && after.headersFed == c.headersFed && after.bodyEvaluated == c.bodyEvaluated
  {
    var fed := Fed(c, body, site.cap);
    var p := Log(fed, ProcessRequestBody);
    ReachedFed(c, body, site.cap);
    assert UpTo(c.trace, 6) && UpTo(fed.trace, 6);
    var after := Finish(site.rules, c, body, rest, site.cap, env).ctx;
    FinishContexts(site.rules, c, body, rest, site.cap, env);
    if Checked(site.rules, p, after) {
      ReachedChecked(site.rules, p, after, 6);
    }
  }

  lemma ReachedChecked(rules: Rules, p: Ctx, after: Ctx, phase: nat)
    requires p.live && Reached(p, phase) && phase < 10 && Checked(rules, p, after)
    ensures Reached(after, phase) && after.headersFed == p.headersFed && after.bodyEvaluated == p.bodyEvaluated
  {
    ReachedLog(p, TakeIntervention, phase, phase);
    ReachedIntervened(rules, p, true, phase);
    if Honoured(rules, p, true).Some? {
      ReachedReplaced(p, ReplacementFor(Honoured(rules, p, true).value), phase);
    }
  }

  /** The header phase processes the response headers once and changes no flag but its own. */
  lemma HeadersOnce(rules: Rules, c: Ctx, raw: RawResponse)
    requires c.live && Reached(c, if c.headersFed then 8 else 6)
    ensures var h := HeaderPhase(rules, c, raw);
            && Reached(h, 8)
            && (h.live ==> h.headersFed && h.bodyEvaluated == c.bodyEvaluated && h.replacements == c.replacements)
  {
    if !c.headersFed {
      ReachedLog(c, AddResponseHeaders(raw.headers), 6, 7);
      ReachedLog(Log(c, AddResponseHeaders(raw.headers)), ProcessResponseHeaders(raw.status), 7, 8);
      var p := HeadersProcessed(c, raw);
      ReachedIntervened(rules, p, BlockingEnabled(rules, p), 8);
    }
  }

  lemma ReachedInspected(rules: Rules, c: Ctx, raw: RawResponse, cap: nat, phase: nat)
    requires c.live && Reached(c, phase) && phase < 10
    ensures Reached(BodyInspected(c, raw, cap), phase)
    ensures BlockingEnabled(rules, BodyInspected(c, raw, cap)) == BlockingEnabled(rules, c)
  {
    var appends := AppendCalls(Inspect(raw.chunks, cap).pieces);
    OrderedQuiet(c.trace, appends, phase);
    ModeKept(rules, c.trace, appends);
  }

  lemma ReachedEvaluate(rules: Rules, c: Ctx, canBlock: bool)
    requires c.live && Reached(c, 8)
    ensures var e := Evaluate(rules, c, canBlock);
            && Reached(e, 9)
            && (e.live ==> e.bodyEvaluated && e.headersFed == c.headersFed && e.replacements == c.replacements)
            && (!canBlock ==> e.live)
  {
    var p := c.(bodyEvaluated := true);
    ReachedLog(p, ProcessResponseBody, 8, 9);
    ReachedIntervened(rules, Log(p, ProcessResponseBody), canBlock, 9);
  }

  /** A visible notification on a context whose calls are in order keeps them so. */
  lemma SendKeepsOrder(site: Site, c: Ctx, n: Notification)
    requires c.live && n.raw.Some?
    requires Reached(c, if c.bodyEvaluated then 9 else if c.headersFed then 8 else 6)
    requires c.bodyEvaluated ==> c.headersFed
    ensures var after := SendResponse(site.rules, site.cap, c, n);
            Reached(after, if after.bodyEvaluated then 9 else 8)
  {
    var raw := n.raw.value;
    if c.bodyEvaluated {
      ReachedInspected(site.rules, c, raw, site.cap, 9);
    } else {
      HeadersOnce(site.rules, c, raw);
      var h := HeaderPhase(site.rules, c, raw);
      if h.live {
        ReachedInspected(site.rules, h, raw, site.cap, 8);
        var b := BodyInspected(h, raw, site.cap);
        ReachedEvaluate(site.rules, b, true);
        ReachedEvaluate(site.rules, b, false);
      }
    }
  }

  /** So does a notification that throws. */
  lemma CutKeepsOrder(site: Site, c: Ctx, n: Notification, calls: nat)
    requires CanThrowInSend(site, c, n, calls)
    requires Reached(c, if c.bodyEvaluated then 9 else if c.headersFed then 8 else 6)
    requires c.bodyEvaluated ==> c.headersFed
    ensures var cut := SendCut(site, c, n, calls);
            Reached(cut, if cut.bodyEvaluated then 9 else if cut.headersFed || calls > 0 then 8 else 6)
  {
    if CallsAfterHeaders(c, calls) > 0 {
      BodyCutKeepsOrder(site, c, n, calls);
    } else if !c.headersFed {
      HeaderCallsInOrder(c, n.raw.value, calls);
    }
  }

  lemma BodyCutKeepsOrder(site: Site, c: Ctx, n: Notification, calls: nat)
    requires CanThrowInSend(site, c, n, calls) && CallsAfterHeaders(c, calls) > 0
    requires Reached(c, if c.bodyEvaluated then 9 else if c.headersFed then 8 else 6)
    requires c.bodyEvaluated ==> c.headersFed
    ensures Reached(SendCut(site, c, n, calls), if SendCut(site, c, n, calls).bodyEvaluated then 9 else 8)
  {
    var raw := n.raw.value;
    HeaderFlags(site.rules, c, raw);
    if !c.headersFed {
      HeadersOnce(site.rules, c, raw);
    }
    var h, appends := HeaderPhase(site.rules, c, raw), AppendCalls(Inspect(raw.chunks, site.cap).pieces);
    assert h.live && Reached(h, if h.bodyEvaluated then 9 else 8);
    BodyCallsInOrder(h, appends, CallsAfterHeaders(c, calls));
    assert SendCut(site, c, n, calls) == BodyCut(h, appends, CallsAfterHeaders(c, calls));
  }

  lemma BodyCallsInOrder(h: Ctx, appends: Trace, k: int)
    requires h.live && Reached(h, if h.bodyEvaluated then 9 else 8)
    requires forall c <- appends :: c.AppendResponseBody?
    requires 0 < k <= |appends| + 2 && (k > |appends| ==> !h.bodyEvaluated)
    ensures Reached(BodyCut(h, appends, k), if BodyCut(h, appends, k).bodyEvaluated then 9 else 8)
  {
    if k <= |appends| {
      OrderedQuiet(h.trace, appends[..k], if h.bodyEvaluated then 9 else 8);
    } else {
      EvaluationInOrder(h.trace, appends, k - |appends|);
    }
  }

  lemma HeaderCallsInOrder(c: Ctx, raw: RawResponse, k: nat)
    requires c.live && Reached(c, 6) && k <= 3
    ensures Reached(c.(trace := c.trace + HeaderCalls(raw)[..k]), if k > 0 then 8 else 6)
  {
    var t := c.trace + HeaderCalls(raw)[..k];
    assert forall i :: 0 <= i < |c.trace| ==> t[i] == c.trace[i];
    assert forall i :: |c.trace| <= i < |t| ==> t[i] == HeaderCalls(raw)[i - |c.trace|];
  }

  lemma EvaluationInOrder(trace: Trace, appends: Trace, k: nat)
    requires Ordered(trace) && UpTo(trace, 8) && 1 <= k <= 2
    requires forall c <- appends :: c.AppendResponseBody?
    ensures var t := trace + (appends + [ProcessResponseBody, TakeIntervention][..k]); Ordered(t) && UpTo(t, 9)
  {
    var tail := [ProcessResponseBody, TakeIntervention][..k];
    OrderedQuiet(trace, appends, 8);
    OrderedSnoc(trace + appends, ProcessResponseBody, 8);
    var processed := trace + appends + [ProcessResponseBody];
    if k == 1 {
      assert tail == [ProcessResponseBody];
      assert trace + (appends + tail) == processed;
    } else {
      assert tail == [ProcessResponseBody] + [TakeIntervention];
      OrderedSnoc(processed, TakeIntervention, 9);
      assert trace + (appends + tail) == processed + [TakeIntervention];
    }
  }

  // ---- When the headers are fed twice ----

  /** Disorder never goes away. */
  lemma DisorderStays(trace: Trace, longer: Trace)
    requires trace <= longer && !Ordered(trace)
    ensures !Ordered(longer)
  {
    assert forall i :: 0 <= i < |trace| ==> longer[i] == trace[i];
  }

  /** The transaction has been given response headers. */
  ghost predicate HasHeaders(trace: Trace) {
    exists i :: 0 <= i < |trace| && trace[i].AddResponseHeaders?
  }

  lemma FedTwice(trace: Trace, headers: seq<Header>, longer: Trace)
    requires HasHeaders(trace) && trace + [AddResponseHeaders(headers)] <= longer
    ensures !Ordered(longer)
  {
    var i :| 0 <= i < |trace| && trace[i].AddResponseHeaders?;
    assert longer[i] == trace[i];
    assert (trace + [AddResponseHeaders(headers)])[|trace|] == longer[|trace|];
  }

  lemma SendExtends(site: Site, c: Ctx, n: Notification)
    ensures c.trace <= SendResponse(site.rules, site.cap, c, n).trace
    ensures c.live && n.raw.Some? && !c.headersFed ==>
              c.trace + [AddResponseHeaders(n.raw.value.headers)] <= SendResponse(site.rules, site.cap, c, n).trace
  {
    if c.live && n.raw.Some? {
      HeadersStartWithFeeding(site.rules, c, n.raw.value);
      var h := HeaderPhase(site.rules, c, n.raw.value);
      if h.live {
        ModesExtend(site.rules, BodyInspected(h, n.raw.value, site.cap), n.moreData);
        assert h.trace <= SendResponse(site.rules, site.cap, c, n).trace;
      }
    }
  }

  lemma ModesExtend(rules: Rules, b: Ctx, moreData: bool)
    requires b.live
    ensures b.trace <= ModeB(rules, ModeA(rules, b, moreData), moreData).trace
  {
    EvaluateExtends(rules, b, true);
    EvaluateExtends(rules, b, false);
  }

  lemma HeadersStartWithFeeding(rules: Rules, c: Ctx, raw: RawResponse)
    requires c.live
    ensures c.trace <= HeaderPhase(rules, c, raw).trace
    ensures !c.headersFed ==> c.trace + [AddResponseHeaders(raw.headers)] <= HeaderPhase(rules, c, raw).trace
  {
    var p := HeadersProcessed(c, raw);
    IntervenedExtends(rules, p, BlockingEnabled(rules, p));
  }

  lemma CutExtends(site: Site, c: Ctx, n: Notification, calls: nat)
    requires CanThrowInSend(site, c, n, calls)
    ensures c.trace <= SendCut(site, c, n, calls).trace
    ensures !c.headersFed && calls > 0 ==>
              c.trace + [AddResponseHeaders(n.raw.value.headers)] <= SendCut(site, c, n, calls).trace
  {
    HeadersStartWithFeeding(site.rules, c, n.raw.value);
    var k := CallsAfterHeaders(c, calls);
    if k > 0 {
      assert HeaderPhase(site.rules, c, n.raw.value).trace <= SendCut(site, c, n, calls).trace;
    } else if !c.headersFed && calls > 0 {
      assert HeaderCalls(n.raw.value)[..calls][0] == AddResponseHeaders(n.raw.value.headers);
    }
  }

  // ---- Order over every run ----

  /** What the order of calls depends on. */
  datatype Progress = Progress(tried: bool, past: bool, heldUp: bool, refed: bool)

  ghost function ProgressOf(evs: seq<Event>): Progress {
    Progress(SeenTry(evs), PastHeaders(evs), HeadersHeldUp(evs), HeadersRefed(evs))
  }

  function Next(p: Progress, ev: Event): Progress {
    Progress(
      p.tried || Tries(ev),
      p.past || Visible(ev) || Late(ev),
      p.heldUp || (!p.tried && HeaderThrow(ev)),
      p.refed || (p.heldUp && Tries(ev)))
  }

  lemma ProgressSnoc(site: Site, evs: seq<Event>, ev: Event)
    ensures ProgressOf(evs + [ev]) == Next(ProgressOf(evs), ev)
  {
    SeenSnoc(site, evs, ev);
  }

  /** The last call a live request can have made. */
  function PhaseBound(p: Progress, r: Request): nat {
    match r.stage
    case Starting => 0
    case ReadingBody => 4
    case _ => if r.ctx.bodyEvaluated then 9 else if p.tried then 8 else 6
  }

  /** The calls are in order unless headers were fed again after a throw in the header
      phase; until then a request that is held up there is live and has its first
      headers. */
  ghost predicate InOrder(p: Progress, r: Request) {
    && (Ordered(r.ctx.trace) <==> !p.refed)
    && (!p.refed && r.ctx.live ==> UpTo(r.ctx.trace, PhaseBound(p, r)))
    && (!p.refed && p.heldUp && r.stage == Serving ==>
          r.ctx.live && !r.ctx.headersFed && HasHeaders(r.ctx.trace))
    && (p.tried <==> p.heldUp || p.past)
    && (p.refed ==> p.heldUp)
  }

  /** The flags agree with the progress. */
  predicate InStep(p: Progress, r: Request) {
    && (r.stage == Starting || r.stage == ReadingBody ==>
          r.ctx.live && !r.ctx.headersFed && !r.ctx.bodyEvaluated && !p.tried)
    && (r.ctx.live ==> (r.ctx.headersFed <==> p.past) && (r.ctx.bodyEvaluated ==> r.ctx.headersFed))
  }

  /** A notification that reaches the headers, completed or not. */
  lemma TryKeepsOrder(site: Site, p: Progress, r: Request, ev: Event)
    requires Possible(site, r, ev) && (ev.Send? || ThrowsInSend(ev))
    requires InStep(p, r) && InOrder(p, r)
    ensures InOrder(Next(p, ev), Step(site, r, ev))
  {
    var c := r.ctx;
    var after := Step(site, r, ev).ctx;
    TryExtends(site, r, ev);
    if p.refed {
      DisorderStays(c.trace, after.trace);
    } else if p.heldUp && Tries(ev) {
      FedTwice(c.trace, ev.n.raw.value.headers, after.trace);
    } else if !p.heldUp && c.live && ev.n.raw.Some? {
      TryReaches(site, r, ev);
      if HeaderThrow(ev) && !p.tried {
        assert after.trace[|c.trace|] == AddResponseHeaders(ev.n.raw.value.headers);
      }
    }
  }

  /** How far a notification gets. */
  lemma TryReaches(site: Site, r: Request, ev: Event)
    requires Possible(site, r, ev) && (ev.Send? || ThrowsInSend(ev)) && r.ctx.live && ev.n.raw.Some?
    requires Reached(r.ctx, if r.ctx.bodyEvaluated then 9 else if r.ctx.headersFed then 8 else 6)
    requires r.ctx.bodyEvaluated ==> r.ctx.headersFed
    ensures var after := Step(site, r, ev).ctx;
            && (after.live && ev.Send? ==> after.headersFed)
            && Reached(after, if after.bodyEvaluated then 9 else if after.headersFed || Tries(ev) then 8 else 6)
  {
    match ev
    case Send(n) =>
      SendKeepsOrder(site, r.ctx, n);
      SendFlags(site, r.ctx, n);
    case SendThrows(n, calls) =>
      CutKeepsOrder(site, r.ctx, n, calls);
      CutFlags(site, r.ctx, n, calls);
    case HeaderReportThrows(n) => HeaderReportKeepsOrder(site, r.ctx, n.raw.value);
    case PhaseFourReportThrows(n) => PhaseFourReportKeepsOrder(site, r.ctx, n.raw.value);
  }

  lemma HeaderReportKeepsOrder(site: Site, c: Ctx, raw: RawResponse)
    requires c.live && Reached(c, 6) && BlocksInHeaders(site, c, raw)
    ensures Reached(Replaced(HeadersProcessed(c, raw), HeaderAnswer(site, c, raw).value), 8)
  {
    ReachedLog(c, AddResponseHeaders(raw.headers), 6, 7);
    ReachedLog(Log(c, AddResponseHeaders(raw.headers)), ProcessResponseHeaders(raw.status), 7, 8);
    ReachedReplaced(HeadersProcessed(c, raw), HeaderAnswer(site, c, raw).value, 8);
  }

  lemma PhaseFourReportKeepsOrder(site: Site, c: Ctx, raw: RawResponse)
    requires c.live && Reached(c, if c.headersFed then 8 else 6) && BlocksInPhaseFour(site, c, raw)
    ensures Reached(Replaced(PhaseFourRun(ReadyForPhaseFour(site, c, raw)), PhaseFourAnswer(site, c, raw).value), 9)
  {
    var h, b := HeaderPhase(site.rules, c, raw), ReadyForPhaseFour(site, c, raw);
    HeadersOnce(site.rules, c, raw);
    ReachedInspected(site.rules, h, raw, site.cap, 8);
    ReachedPhaseFour(b, PhaseFourAnswer(site, c, raw).value);
  }

  lemma ReachedPhaseFour(b: Ctx, rep: Replacement)
    requires b.live && Reached(b, 8)
    ensures Reached(Replaced(PhaseFourRun(b), rep), 9)
  {
    ReachedLog(b.(bodyEvaluated := true), ProcessResponseBody, 8, 9);
    ReachedReplaced(PhaseFourRun(b), rep, 9);
  }

  /** A notification only adds calls, headers first if none were fed. */
  lemma TryExtends(site: Site, r: Request, ev: Event)
    requires Possible(site, r, ev) && (ev.Send? || ThrowsInSend(ev))
    ensures var before, after := r.ctx, Step(site, r, ev).ctx;
            && before.trace <= after.trace
            && (before.live && !before.headersFed && Tries(ev) ==>
                  before.trace + [AddResponseHeaders(ev.n.raw.value.headers)] <= after.trace)
            && (ThrowsInSend(ev) ==> after.live && (after.headersFed <==> before.headersFed || Late(ev)))
  {
    match ev
    case Send(n) => SendExtends(site, r.ctx, n);
    case SendThrows(n, calls) =>
      CutExtends(site, r.ctx, n, calls);
      CutFlags(site, r.ctx, n, calls);
    case HeaderReportThrows(n) => HeaderReportExtends(r.ctx, n.raw.value, HeaderAnswer(site, r.ctx, n.raw.value).value);
    case PhaseFourReportThrows(n) => PhaseFourReportExtends(site, r.ctx, n.raw.value);
  }

  lemma HeaderReportExtends(c: Ctx, raw: RawResponse, rep: Replacement)
    ensures c.trace + [AddResponseHeaders(raw.headers)] <= Replaced(HeadersProcessed(c, raw), rep).trace
  {
  }

  lemma PhaseFourReportExtends(site: Site, c: Ctx, raw: RawResponse)
    requires c.live && BlocksInPhaseFour(site, c, raw)
    ensures var rep := PhaseFourAnswer(site, c, raw).value;
            var after := Replaced(PhaseFourRun(ReadyForPhaseFour(site, c, raw)), rep);
            && c.trace <= after.trace && after.live && after.headersFed
            && (!c.headersFed ==> c.trace + [AddResponseHeaders(raw.headers)] <= after.trace)
  {
    HeadersStartWithFeeding(site.rules, c, raw);
    HeaderFlags(site.rules, c, raw);
    assert HeaderPhase(site.rules, c, raw).trace <= PhaseFourRun(ReadyForPhaseFour(site, c, raw)).trace;
  }

  lemma StepKeepsOrder(site: Site, p: Progress, r: Request, ev: Event)
    requires Possible(site, r, ev) && InStep(p, r) && InOrder(p, r)
    ensures InOrder(Next(p, ev), Step(site, r, ev))
  {
    match ev
    case Begin(_, _) => ReachedBegin(site, r, ev);
    case BeginThrows(_, _) => ReachedBegin(site, r, ev);
    case BeginReportThrows(_) => ReachedBegin(site, r, ev);
    case BodyPhase(body, rest, env) => ReachedBody(site, r.ctx, body, rest, env);
    case BodyThrows =>
    case Send(_) => TryKeepsOrder(site, p, r, ev);
    case SendThrows(_, _) => TryKeepsOrder(site, p, r, ev);
    case HeaderReportThrows(_) => TryKeepsOrder(site, p, r, ev);
    case PhaseFourReportThrows(_) => TryKeepsOrder(site, p, r, ev);
    case Cleanup => CleanupKeepsOrder(r.ctx);
  }

  lemma CleanupKeepsOrder(c: Ctx)
    requires Ordered(c.trace) && c.live ==> UpTo(c.trace, 9)
    ensures Ordered(Finished(c).trace) <==> Ordered(c.trace)
  {
    if Ordered(c.trace) {
      ReachedFinished(c, 9);
    } else {
      DisorderStays(c.trace, Finished(c).trace);
    }
  }

  lemma {:induction false} RunInOrder(site: Site, evs: seq<Event>, r: Request)
    requires Run(site, evs) == Some(r)
    ensures InOrder(ProgressOf(evs), r)
  {
    if evs == [] {
      NothingInOrder(site);
    } else {
      var front, ev := evs[..|evs| - 1], evs[|evs| - 1];
      var before := Run(site, front).value;
      RunInOrder(site, front, before);
      assert front + [ev] == evs;
      OneMoreInOrder(site, front, before, ev);
    }
  }

  lemma NothingInOrder(site: Site)
    ensures InOrder(ProgressOf([]), Request(Starting, Installed(site.bodyBlock)))
  {
  }

  lemma OneMoreInOrder(site: Site, evs: seq<Event>, r: Request, ev: Event)
    requires Run(site, evs) == Some(r) && Possible(site, r, ev) && InOrder(ProgressOf(evs), r)
    ensures InOrder(ProgressOf(evs + [ev]), Step(site, r, ev))
  {
    FlagsInStep(site, evs, r);
    ProgressSnoc(site, evs, ev);
    StepKeepsOrder(site, ProgressOf(evs), r, ev);
  }

  lemma FlagsInStep(site: Site, evs: seq<Event>, r: Request)
    requires Run(site, evs) == Some(r)
    ensures InStep(ProgressOf(evs), r)
  {
    RunFlags(site, evs, r);
  }

  /** Over every run, each process* call is made at most once and in phase order, what
      it processes is fed before it and only once, and processLogging is the last call
      of all -- if and only if no notification reaches the response headers after the
      first to do so threw there. */
  lemma PhaseOrder(site: Site, evs: seq<Event>, r: Request)
    requires Run(site, evs) == Some(r)
    ensures Ordered(r.ctx.trace) <==> !HeadersRefed(evs)
  {
    RunInOrder(site, evs, r);
  }

  // ---- What the engine sees of the body ----

  /** All response-body bytes handed to the engine. */
  function ResponseBytes(trace: Trace): Bytes {
    if trace == [] then []
    else
      var front, last := ResponseBytes(trace[..|trace| - 1]), trace[|trace| - 1];
      if last.AppendResponseBody? then front + last.responseBytes else front
  }

  lemma {:induction false} ResponseBytesQuiet(trace: Trace, more: Trace)
    requires forall c <- more :: !c.AppendResponseBody?
    ensures ResponseBytes(trace + more) == ResponseBytes(trace)
  {
    if more == [] {
      assert trace + more == trace;
    } else {
      ResponseBytesQuiet(trace, more[..|more| - 1]);
      assert (trace + more)[..|trace + more| - 1] == trace + more[..|more| - 1];
    }
  }

  lemma ResponseBytesSnoc(trace: Trace, call: EngineCall)
    ensures ResponseBytes(trace + [call]) ==
              if call.AppendResponseBody? then ResponseBytes(trace) + call.responseBytes else ResponseBytes(trace)
  {
    assert (trace + [call])[..|trace|] == trace;
  }

  lemma LastAppendCall(trace: Trace, front: seq<Bytes>, last: Bytes)
    ensures trace + AppendCalls(front + [last]) == trace + AppendCalls(front) + [AppendResponseBody(last)]
  {
    assert AppendCalls(front + [last]) == AppendCalls(front) + [AppendResponseBody(last)];
  }

  lemma OnePieceMore(trace: Trace, front: seq<Bytes>, last: Bytes)
    requires ResponseBytes(trace + AppendCalls(front)) == ResponseBytes(trace) + Flatten(front)
    ensures ResponseBytes(trace + AppendCalls(front + [last])) == ResponseBytes(trace) + Flatten(front + [last])
  {
    LastAppendCall(trace, front, last);
    ResponseBytesSnoc(trace + AppendCalls(front), AppendResponseBody(last));
    FlattenSnoc(front, last);
  }

  lemma {:induction false} ResponseBytesAppended(trace: Trace, pieces: seq<Bytes>)
    ensures ResponseBytes(trace + AppendCalls(pieces)) == ResponseBytes(trace) + Flatten(pieces)
  {
    if pieces == [] {
      assert trace + AppendCalls(pieces) == trace;
    } else {
      var front, last := pieces[..|pieces| - 1], pieces[|pieces| - 1];
      ResponseBytesAppended(trace, front);
      OnePieceMore(trace, front, last);
      assert pieces == front + [last];
    }
  }

  /** Interventions and phases append no body. */
  lemma IntervenedFeedsNothing(rules: Rules, c: Ctx, canBlock: bool)
    ensures ResponseBytes(Intervened(rules, c, canBlock).trace) == ResponseBytes(c.trace)
  {
    var after := Intervened(rules, c, canBlock).trace;
    IntervenedExtends(rules, c, canBlock);
    var more := after[|c.trace|..];
    assert after == c.trace + more;
    assert forall call <- more :: !call.AppendResponseBody?;
    ResponseBytesQuiet(c.trace, more);
  }

  lemma EvaluateFeedsNothing(rules: Rules, c: Ctx, canBlock: bool)
    ensures ResponseBytes(Evaluate(rules, c, canBlock).trace) == ResponseBytes(c.trace)
  {
    ResponseBytesQuiet(c.trace, [ProcessResponseBody]);
    IntervenedFeedsNothing(rules, Log(c.(bodyEvaluated := true), ProcessResponseBody), canBlock);
  }

  lemma HeadersFeedNothing(rules: Rules, c: Ctx, raw: RawResponse)
    ensures ResponseBytes(HeaderPhase(rules, c, raw).trace) == ResponseBytes(c.trace)
  {
    var p := HeadersProcessed(c, raw);
    ResponseBytesQuiet(c.trace, [AddResponseHeaders(raw.headers), ProcessResponseHeaders(raw.status)]);
    assert p.trace == c.trace + [AddResponseHeaders(raw.headers), ProcessResponseHeaders(raw.status)];
    IntervenedFeedsNothing(rules, p, BlockingEnabled(rules, p));
  }

  /** A visible notification that is not blocked by its headers hands the engine exactly
      the first min(total, cap) bytes of its readable body, in every mode. */
  lemma EngineSeesBodyPrefix(site: Site, c: Ctx, n: Notification)
    requires site.cap < DWORD_MODULUS && c.live && n.raw.Some?
    requires HeaderPhase(site.rules, c, n.raw.value).live
    requires var chunks := n.raw.value.chunks;
             forall i :: 0 <= i < |chunks| ==> NoOverflow(chunks[i], site.cap) && Readable(chunks[i])
    ensures var body := BodyBytes(n.raw.value.chunks);
            ResponseBytes(SendResponse(site.rules, site.cap, c, n).trace)
            == ResponseBytes(c.trace) + body[..Min(|body|, site.cap)]
  {
    var raw := n.raw.value;
    var h := HeaderPhase(site.rules, c, raw);
    var b := BodyInspected(h, raw, site.cap);
    HeadersFeedNothing(site.rules, c, raw);
    ResponseBytesAppended(h.trace, Inspect(raw.chunks, site.cap).pieces);
    InspectsExactPrefix(raw.chunks, site.cap);
    EvaluateFeedsNothing(site.rules, b, true);
    var a := ModeA(site.rules, b, n.moreData);
    EvaluateFeedsNothing(site.rules, a, false);
    assert ResponseBytes(a.trace) == ResponseBytes(b.trace);
  }

  // ---- Exceptions ----

  lemma CutCommits(site: Site, c: Ctx, n: Notification, calls: nat)
    requires CanThrowInSend(site, c, n, calls)
    requires c.bodyEvaluated ==> c.headersFed
    ensures PolicyStops(SendCut(site, c, n, calls)) <==> !c.headersFed && calls <= 3
  {
    var k := CallsAfterHeaders(c, calls);
    HeaderFlags(site.rules, c, n.raw.value);
    if k > 0 {
      var h := HeaderPhase(site.rules, c, n.raw.value);
      assert h.headersFed;
      assert SendCut(site, c, n, calls).headersFed;
    }
  }

  /** Over every run, after an exception the response is stopped exactly when it struck
      in a header phase that no earlier notification got past: later, something may be
      on its way. */
  lemma PolicyStopsOnlyUncommitted(site: Site, evs: seq<Event>, r: Request, ev: Event)
    requires Run(site, evs) == Some(r) && ThrowsInSend(ev) && Possible(site, r, ev)
    ensures PolicyStops(Thrown(site, r.ctx, ev)) <==> !PastHeaders(evs) && !Late(ev)
  {
    RunFlags(site, evs, r);
    match ev
    case SendThrows(n, calls) => CutCommits(site, r.ctx, n, calls);
    case HeaderReportThrows(n) =>
    case PhaseFourReportThrows(n) => HeaderFlags(site.rules, r.ctx, n.raw.value);
  }
}
