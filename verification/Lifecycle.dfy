/** Whole request runs: OnBeginRequest, the body phase, any number of
    RQ_SEND_RESPONSE notifications, and the cleanup of the stored context, in every
    order IIS may produce. */
module Lifecycle {
  import opened Common
  import opened Engine
  import opened StoredContext
  import opened BodyDrain
  import opened ResponseBody
  import opened ResponsePhase
  import BodyProtocol
  import BodyTheorems

  datatype Site = Site(rules: Rules, cap: nat, bodyBlock: bool)

  /** Serving: RQ_BEGIN_REQUEST has its final status. */
  datatype Stage = Starting | ReadingBody | Serving | Gone

  datatype Request = Request(stage: Stage, ctx: Ctx)

  /** `Throws` events end a handler by an exception after that many engine calls, and
      `ReportThrows` events by one in updateStatusCode, when the response has been
      replaced: in OnBeginRequest, in the response-header phase, and in phase 4. */
  datatype Event =
    | Begin(rawRequest: bool, headers: seq<Header>)
    | BeginThrows(headers: seq<Header>, calls: nat)
    | BeginReportThrows(headers: seq<Header>)
    | BodyPhase(body: Bytes, rest: Bytes, env: FinishEnv)
    | BodyThrows
    | Send(n: Notification)
    | SendThrows(n: Notification, calls: nat)
    | HeaderReportThrows(n: Notification)
    | PhaseFourReportThrows(n: Notification)
    | Cleanup

  /** The engine calls of OnBeginRequest up to its intervention check. */
  function BeginCalls(headers: seq<Header>): Trace {
    [ProcessConnection, ProcessUri, AddRequestHeaders(headers), ProcessRequestHeaders]
  }

  function HeaderCalls(raw: RawResponse): Trace {
    [AddResponseHeaders(raw.headers), ProcessResponseHeaders(raw.status), TakeIntervention]
  }

  /** The engine calls SendThrows has left after the header phase. */
  function CallsAfterHeaders(c: Ctx, calls: nat): int {
    if c.headersFed then calls else calls - 3
  }

  predicate CanThrowInSend(site: Site, c: Ctx, n: Notification, calls: nat) {
    && c.live && n.raw.Some?
    && var k := CallsAfterHeaders(c, calls);
    && (k > 0 ==>
          var h := HeaderPhase(site.rules, c, n.raw.value);
          var appends := |Inspect(n.raw.value.chunks, site.cap).pieces|;
          && h.live && k <= appends + 2
          && (k > appends ==> !h.bodyEvaluated && !n.moreData))
  }

  /** The context an exception leaves behind after that many engine calls. */
  function SendCut(site: Site, c: Ctx, n: Notification, calls: nat): Ctx
    requires CanThrowInSend(site, c, n, calls)
  {
    var k := CallsAfterHeaders(c, calls);
    if k <= 0 then
      if c.headersFed then c else c.(trace := c.trace + HeaderCalls(n.raw.value)[..calls])
    else
      var h := HeaderPhase(site.rules, c, n.raw.value);
      BodyCut(h, AppendCalls(Inspect(n.raw.value.chunks, site.cap).pieces), k)
  }

  /** After k of the appendResponseBody calls and the two calls of phase 4. */
  function BodyCut(h: Ctx, appends: Trace, k: int): Ctx
    requires 0 <= k <= |appends| + 2
  {
    if k <= |appends| then h.(trace := h.trace + appends[..k])
    else
      h.(bodyEvaluated := true,
         trace := h.trace + (appends + [ProcessResponseBody, TakeIntervention][..k - |appends|]))
  }

  // ---- What the rules block ----

  /** The context when OnBeginRequest checks for an intervention. */
  function Begun(c: Ctx, headers: seq<Header>): Ctx {
    c.(trace := c.trace + BeginCalls(headers))
  }

  /** The context when the request-body phase does. */
  function BodyProcessed(c: Ctx, body: Bytes, cap: nat): Ctx {
    Log(Fed(c, body, cap), ProcessRequestBody)
  }

  /** The context when phase 4 does, blocking or not. */
  function PhaseFourRun(c: Ctx): Ctx {
    Log(c.(bodyEvaluated := true), ProcessResponseBody)
  }

  /** The response a block at this check is answered with. */
  function Answer(rules: Rules, c: Ctx): Option<Replacement> {
    match Honoured(rules, c, true)
    case None => None
    case Some(it) => Some(ReplacementFor(it))
  }

  /** The answer of the rules to the response headers, if blocking is enabled. */
  function HeaderAnswer(site: Site, c: Ctx, raw: RawResponse): Option<Replacement> {
    var p := HeadersProcessed(c, raw);
    if BlockingEnabled(site.rules, p) then Answer(site.rules, p) else None
  }

  /** The response body as the engine has it when phase 4 is due. */
  function ReadyForPhaseFour(site: Site, c: Ctx, raw: RawResponse): Ctx {
    BodyInspected(HeaderPhase(site.rules, c, raw), raw, site.cap)
  }

  /** Their answer to the response body, if they let the headers pass. */
  function PhaseFourAnswer(site: Site, c: Ctx, raw: RawResponse): Option<Replacement> {
    var b := ReadyForPhaseFour(site, c, raw);
    if BlockingEnabled(site.rules, b) then Answer(site.rules, PhaseFourRun(b)) else None
  }

  /** The rules object to the response headers, and blocking is enabled. */
  predicate BlocksInHeaders(site: Site, c: Ctx, raw: RawResponse) {
    HeaderAnswer(site, c, raw).Some?
  }

  /** The rules let the headers pass but object to the body, and blocking is enabled. */
  predicate BlocksInPhaseFour(site: Site, c: Ctx, raw: RawResponse) {
    PhaseFourAnswer(site, c, raw).Some?
  }

  /** A notification whose block comes in phase 4. */
  predicate PhaseFourDue(c: Ctx, n: Notification) {
    c.live && n.raw.Some? && !c.bodyEvaluated && !n.moreData
  }

  // ---- Runs ----

  /** A notification that ends in an exception. */
  predicate ThrowsInSend(ev: Event) {
    ev.SendThrows? || ev.HeaderReportThrows? || ev.PhaseFourReportThrows?
  }

  predicate Possible(site: Site, r: Request, ev: Event) {
    match ev
    case Begin(_, _) => r.stage == Starting
    case BeginThrows(_, calls) => r.stage == Starting && calls <= 5
    case BeginReportThrows(headers) => r.stage == Starting && Answer(site.rules, Begun(r.ctx, headers)).Some?
    case BodyPhase(_, _, _) => r.stage == ReadingBody
    case BodyThrows => r.stage == ReadingBody
    case Send(_) => r.stage == Serving
    case SendThrows(n, calls) => r.stage == Serving && CanThrowInSend(site, r.ctx, n, calls)
    case HeaderReportThrows(n) =>
      r.stage == Serving && r.ctx.live && n.raw.Some? && !r.ctx.headersFed && BlocksInHeaders(site, r.ctx, n.raw.value)
    case PhaseFourReportThrows(n) =>
      r.stage == Serving && PhaseFourDue(r.ctx, n) && BlocksInPhaseFour(site, r.ctx, n.raw.value)
    case Cleanup => r.stage != Gone
  }

  /** The context a throwing notification leaves to the exception policy. */
  function Thrown(site: Site, c: Ctx, ev: Event): Ctx
    requires ThrowsInSend(ev)
    requires Possible(site, Request(Serving, c), ev)
  {
    match ev
    case SendThrows(n, calls) => SendCut(site, c, n, calls)
    case HeaderReportThrows(n) =>
      Replaced(HeadersProcessed(c, n.raw.value), HeaderAnswer(site, c, n.raw.value).value)
    case PhaseFourReportThrows(n) =>
      Replaced(PhaseFourRun(ReadyForPhaseFour(site, c, n.raw.value)), PhaseFourAnswer(site, c, n.raw.value).value)
  }

  function Step(site: Site, r: Request, ev: Event): Request
    requires Possible(site, r, ev)
  {
    match ev
    case Begin(rawRequest, headers) =>
      if !rawRequest then r.(stage := Serving)
      else
        var after := Intervened(site.rules, Begun(r.ctx, headers), true);
        Request(if after.live then ReadingBody else Serving, after)
    case BeginThrows(headers, calls) =>
      Request(Serving, r.ctx.(trace := r.ctx.trace + (BeginCalls(headers) + [TakeIntervention])[..calls]))
    case BeginReportThrows(headers) =>
      var p := Begun(r.ctx, headers);
      Request(Serving, Replaced(p, Answer(site.rules, p).value))
    case BodyPhase(body, rest, env) =>
      Request(Serving, Finish(site.rules, r.ctx, body, rest, site.cap, env).ctx)
    case BodyThrows => r.(stage := Serving)
    case Send(n) => r.(ctx := SendResponse(site.rules, site.cap, r.ctx, n))
    case SendThrows(_, _) => r.(ctx := AfterPolicy(Thrown(site, r.ctx, ev)))
    case HeaderReportThrows(_) => r.(ctx := AfterPolicy(Thrown(site, r.ctx, ev)))
    case PhaseFourReportThrows(_) => r.(ctx := AfterPolicy(Thrown(site, r.ctx, ev)))
    case Cleanup => Request(Gone, Finished(r.ctx))
  }

  /** The state after a run, from the installation of the transaction on, if every
      event of it was possible. */
  function Run(site: Site, evs: seq<Event>): Option<Request> {
    if evs == [] then Some(Request(Starting, Installed(site.bodyBlock)))
    else
      match Run(site, evs[..|evs| - 1])
      case None => None
      case Some(r) =>
        var ev := evs[|evs| - 1];
        if Possible(site, r, ev) then Some(Step(site, r, ev)) else None
  }

  lemma RunSnoc(site: Site, evs: seq<Event>, ev: Event)
    ensures Run(site, evs + [ev]) ==
              match Run(site, evs)
              case None => None
              case Some(r) => if Possible(site, r, ev) then Some(Step(site, r, ev)) else None
  {
    assert (evs + [ev])[..|evs|] == evs;
  }

  // ---- The body phase is what the interleaved reader does ----

  /** Every interleaved run of the body reader that ends is, for the transaction, one
      BodyPhase or BodyThrows event. */
  lemma ReaderIsOneEvent(site: Site, r: Request, cfg: BodyProtocol.Config, acts: seq<BodyProtocol.Action>)
    returns (ev: Event)
    requires BodyProtocol.Proper(cfg) && BodyProtocol.Exec(cfg, acts).Some?
    requires BodyProtocol.Exec(cfg, acts).value.final.Some?
    requires r.stage == ReadingBody && cfg.context == r.ctx && cfg.rules == site.rules && cfg.limits.cap == site.cap
    ensures Possible(site, r, ev) && (ev.BodyPhase? || ev.BodyThrows?)
    ensures Step(site, r, ev) == Request(Serving, BodyProtocol.Exec(cfg, acts).value.ctx)
  {
    BodyTheorems.FinalOutcome(cfg, acts);
    var s := BodyProtocol.Exec(cfg, acts).value;
    ev := if s.threw then BodyThrows else BodyPhase(s.body, cfg.entity[|s.body|..], cfg.env);
  }

  // ---- Transaction lifecycle ----

  /** Calls that neither report a status nor finish the transaction. */
  ghost predicate Quiet(trace: Trace) {
    forall i :: 0 <= i < |trace| ==> trace[i] != ProcessLogging && !trace[i].UpdateStatusCode?
  }

  predicate Disrupts(rules: Rules, trace: Trace) {
    rules.intervention(trace).Some? && rules.intervention(trace).value.disruptive
  }

  /** The response an intervention asks for: its plain status, or 403 if it has none; or
      a redirect to its url, with its status if that is 301 or 303 to 308, and 302
      otherwise. */
  predicate Asked(it: Intervention, location: Option<string>, status: int) {
    && (it.url == "" ==> location == None && status == (if it.status <= 0 then 403 else it.status))
    && (it.url != "" ==>
          && location == Some(it.url)
          && (it.status in {301, 303, 304, 305, 306, 307, 308} ==> status == it.status)
          && (it.status !in {301, 303, 304, 305, 306, 307, 308} ==> status == 302))
  }

  /** The client gets the low 16 bits of a status: all of it below 65536. */
  predicate Sent(status: int, sent: int) {
    0 <= sent < 65536 && (status - sent) % 65536 == 0
  }

  lemma AnswerIsAsked(it: Intervention)
    ensures var rep := ReplacementFor(it); Asked(it, rep.location, rep.reported) && Sent(rep.reported, rep.sent)
    ensures var rep := ReplacementFor(it); 1 <= rep.reported < 65536 ==> rep.sent == rep.reported
  {
  }

  /** A status the engine was told, and what it had answered at the intervention read
      right before. */
  datatype Report = Report(status: int, ruling: Option<Intervention>)

  /** All status reports of a trace, in order. */
  function Reports(rules: Rules, trace: Trace): seq<Report> {
    if trace == [] then []
    else
      var m := |trace| - 1;
      if trace[m].UpdateStatusCode?
      then
        Reports(rules, trace[..m])
        + [Report(trace[m].status,
                  if m >= 1 && trace[m - 1] == TakeIntervention then rules.intervention(trace[..m - 1]) else None)]
      else Reports(rules, trace[..m])
  }

  lemma {:induction false} ReportsQuiet(rules: Rules, trace: Trace, more: Trace)
    requires forall i :: 0 <= i < |more| ==> !more[i].UpdateStatusCode?
    ensures Reports(rules, trace + more) == Reports(rules, trace)
  {
    if more == [] {
      assert trace + more == trace;
    } else {
      var front := more[..|more| - 1];
      ReportsQuiet(rules, trace, front);
      var t := trace + more;
      assert t[..|t| - 1] == trace + front && t[|t| - 1] == more[|more| - 1];
    }
  }

  lemma ReportsReplaced(rules: Rules, trace: Trace, status: int)
    ensures Reports(rules, trace + [TakeIntervention] + [UpdateStatusCode(status)])
            == Reports(rules, trace) + [Report(status, rules.intervention(trace))]
  {
    var taken := trace + [TakeIntervention];
    ReportsQuiet(rules, trace, [TakeIntervention]);
    var t := taken + [UpdateStatusCode(status)];
    assert t[..|t| - 1] == taken && t[..|t| - 2] == trace && t[|t| - 2] == TakeIntervention;
  }

  /** The response is the one the ruling asks for, with the status the engine was told, up
      to the 500 of the exception policy. */
  predicate Follows(report: Report, rep: Replacement) {
    && rep.reported == report.status
    && report.ruling.Some? && report.ruling.value.disruptive
    && Asked(report.ruling.value, rep.location, rep.reported)
    && (Sent(rep.reported, rep.sent) || rep.sent == 500)
  }

  /** Every replaced response follows its report, in order, and none is reported besides. */
  ghost predicate AllFollow(reports: seq<Report>, replacements: seq<Replacement>) {
    && |reports| == |replacements|
    && forall i :: 0 <= i < |replacements| ==> Follows(reports[i], replacements[i])
  }

  lemma OneMoreFollows(reports: seq<Report>, replacements: seq<Replacement>, report: Report, rep: Replacement)
    requires AllFollow(reports, replacements) && Follows(report, rep)
    ensures AllFollow(reports + [report], replacements + [rep])
  {
  }

  /** A live transaction has not logged and a finished one logged last; the engine was
      told the status of every replaced response. */
  ghost predicate Lived(rules: Rules, c: Ctx) {
    LoggedLast(c) && Told(rules, c)
  }

  ghost predicate LoggedLast(c: Ctx) {
    var n := |c.trace|;
    if c.live then ProcessLogging !in c.trace
    else n >= 1 && c.trace[n - 1] == ProcessLogging && ProcessLogging !in c.trace[..n - 1]
  }

  ghost predicate Told(rules: Rules, c: Ctx) {
    AllFollow(Reports(rules, c.trace), c.replacements)
  }

  lemma LivedQuietly(rules: Rules, c: Ctx, more: Trace)
    requires Lived(rules, c) && c.live && Quiet(more)
    ensures Lived(rules, c.(trace := c.trace + more))
  {
    ReportsQuiet(rules, c.trace, more);
  }

  lemma LivedLog(rules: Rules, c: Ctx, call: EngineCall)
    requires Lived(rules, c) && c.live && call != ProcessLogging && !call.UpdateStatusCode?
    ensures Lived(rules, Log(c, call))
  {
    LivedQuietly(rules, c, [call]);
  }

  lemma LivedReplaced(rules: Rules, c: Ctx, rep: Replacement)
    requires Lived(rules, c) && c.live
    requires Follows(Report(rep.reported, rules.intervention(c.trace)), rep)
    ensures Lived(rules, Replaced(c, rep))
  {
    LivedLog(rules, c, TakeIntervention);
    ReportsReplaced(rules, c.trace, rep.reported);
    OneMoreFollows(Reports(rules, c.trace), c.replacements, Report(rep.reported, rules.intervention(c.trace)), rep);
  }

  lemma LivedFinished(rules: Rules, c: Ctx)
    requires Lived(rules, c)
    ensures Lived(rules, Finished(c))
  {
    LoggedFinished(c);
    ToldFinished(rules, c);
  }

  lemma LoggedFinished(c: Ctx)
    requires LoggedLast(c)
    ensures LoggedLast(Finished(c))
  {
    if c.live {
      assert Finished(c).trace[..|c.trace|] == c.trace;
    }
  }

  lemma ToldFinished(rules: Rules, c: Ctx)
    requires Told(rules, c)
    ensures Told(rules, Finished(c))
  {
    if c.live {
      ReportsQuiet(rules, c.trace, [ProcessLogging]);
    }
  }

  lemma LivedPolicy(rules: Rules, c: Ctx)
    requires Lived(rules, c)
    ensures Lived(rules, AfterPolicy(c))
  {
    var before, after := c.replacements, AfterPolicy(c).replacements;
    assert forall i :: 0 <= i < |after| ==> after[i] == before[i] || after[i] == before[i].(sent := 500);
  }

  lemma LivedIntervened(rules: Rules, c: Ctx, canBlock: bool)
    requires Lived(rules, c)
    ensures Lived(rules, Intervened(rules, c, canBlock))
  {
    if c.live {
      LivedLog(rules, c, TakeIntervention);
      if Honoured(rules, c, canBlock).Some? {
        var rep := ReplacementFor(Honoured(rules, c, canBlock).value);
        AnswerIsAsked(Honoured(rules, c, canBlock).value);
        LivedReplaced(rules, c, rep);
        LivedFinished(rules, Replaced(c, rep));
      }
    }
  }

  lemma LivedBody(site: Site, c: Ctx, body: Bytes, rest: Bytes, env: FinishEnv)
    requires Lived(site.rules, c) && c.live
    ensures Lived(site.rules, Finish(site.rules, c, body, rest, site.cap, env).ctx)
  {
    var fed, p := Fed(c, body, site.cap), BodyProcessed(c, body, site.cap);
    LivedLog(site.rules, c, AppendRequestBody(Inspected(body, site.cap)));
    LivedLog(site.rules, fed, ProcessRequestBody);
    FinishContexts(site.rules, c, body, rest, site.cap, env);
    if Checked(site.rules, p, Finish(site.rules, c, body, rest, site.cap, env).ctx) {
      LivedChecked(site.rules, p, Finish(site.rules, c, body, rest, site.cap, env).ctx);
    }
  }

  lemma LivedChecked(rules: Rules, p: Ctx, after: Ctx)
    requires Lived(rules, p) && p.live && Checked(rules, p, after)
    ensures Lived(rules, after)
  {
    if after == Log(p, TakeIntervention) {
      LivedLog(rules, p, TakeIntervention);
    } else if after == Intervened(rules, p, true) {
      LivedIntervened(rules, p, true);
    } else if after != p {
      AnswerIsAsked(rules.intervention(p.trace).value);
      LivedReplaced(rules, p, ReplacementFor(Honoured(rules, p, true).value));
    }
  }

  lemma LivedHeaders(rules: Rules, c: Ctx, raw: RawResponse)
    requires Lived(rules, c) && c.live
    ensures Lived(rules, HeadersProcessed(c, raw)) && Lived(rules, HeaderPhase(rules, c, raw))
  {
    var p := HeadersProcessed(c, raw);
    LivedLog(rules, c, AddResponseHeaders(raw.headers));
    LivedLog(rules, Log(c, AddResponseHeaders(raw.headers)), ProcessResponseHeaders(raw.status));
    LivedIntervened(rules, p, BlockingEnabled(rules, p));
  }

  lemma LivedInspected(site: Site, c: Ctx, raw: RawResponse)
    requires Lived(site.rules, c) && c.live && HeaderPhase(site.rules, c, raw).live
    ensures Lived(site.rules, ReadyForPhaseFour(site, c, raw))
  {
    LivedHeaders(site.rules, c, raw);
    LivedQuietly(site.rules, HeaderPhase(site.rules, c, raw), AppendCalls(Inspect(raw.chunks, site.cap).pieces));
  }

  lemma LivedEvaluate(rules: Rules, c: Ctx, canBlock: bool)
    requires Lived(rules, c) && c.live
    ensures Lived(rules, PhaseFourRun(c)) && Lived(rules, Evaluate(rules, c, canBlock))
  {
    LivedLog(rules, c.(bodyEvaluated := true), ProcessResponseBody);
    LivedIntervened(rules, PhaseFourRun(c), canBlock);
  }

  lemma LivedSend(site: Site, c: Ctx, n: Notification)
    requires Lived(site.rules, c)
    ensures Lived(site.rules, SendResponse(site.rules, site.cap, c, n))
  {
    if c.live && n.raw.Some? {
      LivedHeaders(site.rules, c, n.raw.value);
      if HeaderPhase(site.rules, c, n.raw.value).live {
        LivedInspected(site, c, n.raw.value);
        LivedModes(site.rules, ReadyForPhaseFour(site, c, n.raw.value), n.moreData);
      }
    }
  }

  lemma LivedModes(rules: Rules, b: Ctx, moreData: bool)
    requires Lived(rules, b) && b.live
    ensures Lived(rules, ModeB(rules, ModeA(rules, b, moreData), moreData))
  {
    var a := ModeA(rules, b, moreData);
    if a.trace == b.trace {
      LivedUnchanged(rules, b, a);
    } else {
      LivedEvaluate(rules, b, true);
    }
    if a.live {
      LivedEvaluate(rules, a, false);
    }
  }

  lemma LivedUnchanged(rules: Rules, c: Ctx, after: Ctx)
    requires Lived(rules, c) && after.trace == c.trace && after.live == c.live && after.replacements == c.replacements
    ensures Lived(rules, after)
  {
  }

  lemma LivedCut(site: Site, c: Ctx, n: Notification, calls: nat)
    requires Lived(site.rules, c) && CanThrowInSend(site, c, n, calls)
    ensures Lived(site.rules, SendCut(site, c, n, calls))
  {
    var k := CallsAfterHeaders(c, calls);
    if k > 0 {
      LivedHeaders(site.rules, c, n.raw.value);
      var h := HeaderPhase(site.rules, c, n.raw.value);
      var appends := AppendCalls(Inspect(n.raw.value.chunks, site.cap).pieces);
      LivedBodyCut(site.rules, h, appends, k);
    } else if !c.headersFed {
      LivedQuietly(site.rules, c, HeaderCalls(n.raw.value)[..calls]);
    }
  }

  lemma LivedBodyCut(rules: Rules, h: Ctx, appends: Trace, k: int)
    requires Lived(rules, h) && h.live && 0 <= k <= |appends| + 2
    requires Quiet(appends)
    ensures Lived(rules, BodyCut(h, appends, k))
  {
    if k <= |appends| {
      LivedQuietly(rules, h, appends[..k]);
    } else {
      LivedQuietly(rules, h.(bodyEvaluated := true), appends + [ProcessResponseBody, TakeIntervention][..k - |appends|]);
    }
  }

  lemma LivedThrown(site: Site, c: Ctx, ev: Event)
    requires ThrowsInSend(ev)
    requires Possible(site, Request(Serving, c), ev) && Lived(site.rules, c)
    ensures Lived(site.rules, AfterPolicy(Thrown(site, c, ev)))
  {
    match ev {
      case SendThrows(n, calls) => LivedCut(site, c, n, calls);
      case HeaderReportThrows(n) => LivedHeaderReport(site, c, n.raw.value);
      case PhaseFourReportThrows(n) => LivedPhaseFourReport(site, c, n.raw.value);
    }
    LivedPolicy(site.rules, Thrown(site, c, ev));
  }

  lemma LivedHeaderReport(site: Site, c: Ctx, raw: RawResponse)
    requires Lived(site.rules, c) && c.live && BlocksInHeaders(site, c, raw)
    ensures Lived(site.rules, Replaced(HeadersProcessed(c, raw), HeaderAnswer(site, c, raw).value))
  {
    LivedHeaders(site.rules, c, raw);
    LivedReplaced(site.rules, HeadersProcessed(c, raw), HeaderAnswer(site, c, raw).value);
  }

  lemma LivedPhaseFourReport(site: Site, c: Ctx, raw: RawResponse)
    requires Lived(site.rules, c) && c.live && BlocksInPhaseFour(site, c, raw)
    ensures Lived(site.rules, Replaced(PhaseFourRun(ReadyForPhaseFour(site, c, raw)), PhaseFourAnswer(site, c, raw).value))
  {
    var b := ReadyForPhaseFour(site, c, raw);
    LivedInspected(site, c, raw);
    LivedEvaluate(site.rules, b, true);
    LivedAnswer(site.rules, PhaseFourRun(b));
  }

  lemma LivedAnswer(rules: Rules, p: Ctx)
    requires Lived(rules, p) && p.live && Answer(rules, p).Some?
    ensures Lived(rules, Replaced(p, Answer(rules, p).value))
  {
    AnswerIsAsked(rules.intervention(p.trace).value);
    LivedReplaced(rules, p, Answer(rules, p).value);
  }

  /** The stage agrees with the transaction being there. */
  predicate Staged(r: Request) {
    && (r.stage == Starting || r.stage == ReadingBody ==> r.ctx.live && r.ctx.replacements == [])
    && (r.stage == Gone ==> !r.ctx.live)
  }

  lemma LivedStep(site: Site, r: Request, ev: Event)
    requires Possible(site, r, ev) && Lived(site.rules, r.ctx) && Staged(r)
    ensures Lived(site.rules, Step(site, r, ev).ctx)
  {
    match ev
    case Begin(_, headers) =>
      LivedQuietly(site.rules, r.ctx, BeginCalls(headers));
      LivedIntervened(site.rules, Begun(r.ctx, headers), true);
    case BeginThrows(headers, calls) =>
      LivedQuietly(site.rules, r.ctx, (BeginCalls(headers) + [TakeIntervention])[..calls]);
    case BeginReportThrows(headers) =>
      LivedQuietly(site.rules, r.ctx, BeginCalls(headers));
      LivedReplaced(site.rules, Begun(r.ctx, headers), Answer(site.rules, Begun(r.ctx, headers)).value);
    case BodyPhase(body, rest, env) => LivedBody(site, r.ctx, body, rest, env);
    case BodyThrows =>
    case Send(n) => LivedSend(site, r.ctx, n);
    case SendThrows(_, _) => LivedThrown(site, r.ctx, ev);
    case HeaderReportThrows(_) => LivedThrown(site, r.ctx, ev);
    case PhaseFourReportThrows(_) => LivedThrown(site, r.ctx, ev);
    case Cleanup => LivedFinished(site.rules, r.ctx);
  }

  lemma StagedStep(site: Site, r: Request, ev: Event)
    requires Possible(site, r, ev) && Staged(r)
    ensures Staged(Step(site, r, ev))
  {
  }

  lemma {:induction false} LivedRun(site: Site, evs: seq<Event>, r: Request)
    requires Run(site, evs) == Some(r)
    ensures Lived(site.rules, r.ctx) && Staged(r)
  {
    if evs != [] {
      var front := evs[..|evs| - 1];
      var before := Run(site, front).value;
      LivedRun(site, front, before);
      LivedStep(site, before, evs[|evs| - 1]);
      StagedStep(site, before, evs[|evs| - 1]);
    }
  }

  // ---- How often a response is replaced ----

  /** The response an event is answered with, if the rules block in it. */
  function Verdict(site: Site, c: Ctx, ev: Event): Option<Replacement> {
    match ev
    case Begin(rawRequest, headers) => if rawRequest then Answer(site.rules, Begun(c, headers)) else None
    case BeginReportThrows(headers) => Answer(site.rules, Begun(c, headers))
    case BodyPhase(body, _, env) =>
      if (body != [] && env.memoryOk && !env.insertOk)
         || (env.throws == AtAppend && Inspected(body, site.cap) != [])
         || env.throws == AtProcess || env.throws == AtIntervention
      then None else Answer(site.rules, BodyProcessed(c, body, site.cap))
    case Send(n) =>
      if !c.live || n.raw.None? then None
      else if !c.headersFed && BlocksInHeaders(site, c, n.raw.value) then HeaderAnswer(site, c, n.raw.value)
      else if PhaseFourDue(c, n) then PhaseFourAnswer(site, c, n.raw.value)
      else None
    case HeaderReportThrows(n) => if n.raw.None? then None else HeaderAnswer(site, c, n.raw.value)
    case PhaseFourReportThrows(n) => if n.raw.None? then None else PhaseFourAnswer(site, c, n.raw.value)
    case _ => None
  }

  predicate Blocks(site: Site, c: Ctx, ev: Event) {
    Verdict(site, c, ev).Some?
  }

  /** The event ends by a throw of updateStatusCode, if the rules block in it. */
  predicate ReportFails(ev: Event) {
    || ev.BeginReportThrows? || ev.HeaderReportThrows? || ev.PhaseFourReportThrows?
    || (ev.BodyPhase? && ev.env.throws == AtReport)
  }

  /** Some event has blocked, and its status report threw. */
  predicate SeenFailedReport(site: Site, evs: seq<Event>) {
    evs != [] &&
    var front, ev := evs[..|evs| - 1], evs[|evs| - 1];
    SeenFailedReport(site, front)
    || (ReportFails(ev) && Run(site, front).Some? && Blocks(site, Run(site, front).value.ctx, ev))
  }

  /** After that, a later event has blocked too. */
  predicate BlockedAgain(site: Site, evs: seq<Event>) {
    evs != [] &&
    var front, ev := evs[..|evs| - 1], evs[|evs| - 1];
    BlockedAgain(site, front)
    || (SeenFailedReport(site, front) && Run(site, front).Some? && Blocks(site, Run(site, front).value.ctx, ev))
  }

  /** The replacements an event leaves, before the exception policy. */
  lemma StepAdds(site: Site, r: Request, ev: Event)
    requires Possible(site, r, ev) && Staged(r)
    ensures var verdict := Verdict(site, r.ctx, ev);
            var added := r.ctx.replacements + (if verdict.Some? then [verdict.value] else []);
            if ThrowsInSend(ev)
            then r.stage == Serving && Thrown(site, r.ctx, ev).replacements == added
            else Step(site, r, ev).ctx.replacements == added
  {
    match ev
    case Begin(_, headers) => CheckAnswers(site.rules, Begun(r.ctx, headers));
    case BodyPhase(body, rest, env) => BodyAdds(site, r.ctx, body, rest, env);
    case Send(n) =>
      if r.ctx.live && n.raw.Some? {
        SendVerdict(site, r.ctx, n);
      }
    case SendThrows(_, _) => ThrownAdds(site, r.ctx, ev);
    case HeaderReportThrows(_) => ThrownAdds(site, r.ctx, ev);
    case PhaseFourReportThrows(_) => ThrownAdds(site, r.ctx, ev);
    case _ =>
  }

  lemma ThrownAdds(site: Site, c: Ctx, ev: Event)
    requires ThrowsInSend(ev) && Possible(site, Request(Serving, c), ev)
    ensures var verdict := Verdict(site, c, ev);
            Thrown(site, c, ev).replacements == c.replacements + if verdict.Some? then [verdict.value] else []
  {
    match ev
    case SendThrows(n, calls) => CutKeepsReplacements(site, c, n, calls);
    case HeaderReportThrows(n) =>
    case PhaseFourReportThrows(n) => HeaderVerdict(site, c, n.raw.value);
  }

  lemma BodyAdds(site: Site, c: Ctx, body: Bytes, rest: Bytes, env: FinishEnv)
    requires c.live
    ensures var verdict := Verdict(site, c, BodyPhase(body, rest, env));
            Finish(site.rules, c, body, rest, site.cap, env).ctx.replacements
            == c.replacements + if verdict.Some? then [verdict.value] else []
  {
    var p := BodyProcessed(c, body, site.cap);
    assert p.live && p.replacements == c.replacements && Fed(c, body, site.cap).replacements == c.replacements;
    CheckAnswers(site.rules, p);
  }

  lemma CheckAnswers(rules: Rules, p: Ctx)
    requires p.live
    ensures var answer := Answer(rules, p);
            Intervened(rules, p, true).replacements == p.replacements + if answer.Some? then [answer.value] else []
  {
  }

  lemma StepReplaces(site: Site, r: Request, ev: Event)
    requires Possible(site, r, ev) && Staged(r)
    ensures |Step(site, r, ev).ctx.replacements|
            == |r.ctx.replacements| + if Verdict(site, r.ctx, ev).Some? then 1 else 0
  {
    StepAdds(site, r, ev);
    if ThrowsInSend(ev) {
      assert Step(site, r, ev).ctx == AfterPolicy(Thrown(site, r.ctx, ev));
    }
  }

  /** What an event does to the transaction. */
  lemma StepFinishes(site: Site, r: Request, ev: Event)
    requires Possible(site, r, ev) && Staged(r)
    ensures var after, verdict := Step(site, r, ev).ctx, Verdict(site, r.ctx, ev);
            && (verdict.Some? ==> r.ctx.live && after.live == ReportFails(ev))
            && (verdict.None? && !ev.Cleanup? ==> after.live == r.ctx.live)
  {
    match ev
    case Begin(_, headers) => CheckFinishes(site.rules, Begun(r.ctx, headers));
    case BodyPhase(body, rest, env) => BodyFinishes(site, r.ctx, body, rest, env);
    case Send(n) =>
      if r.ctx.live && n.raw.Some? {
        SendVerdict(site, r.ctx, n);
      }
    case SendThrows(_, _) => ThrownFinishes(site, r.ctx, ev);
    case HeaderReportThrows(_) => ThrownFinishes(site, r.ctx, ev);
    case PhaseFourReportThrows(_) => ThrownFinishes(site, r.ctx, ev);
    case _ =>
  }

  lemma CheckFinishes(rules: Rules, p: Ctx)
    requires p.live
    ensures Intervened(rules, p, true).live <==> Answer(rules, p).None?
  {
  }

  lemma BodyFinishes(site: Site, c: Ctx, body: Bytes, rest: Bytes, env: FinishEnv)
    requires c.live
    ensures var ev := BodyPhase(body, rest, env);
            Finish(site.rules, c, body, rest, site.cap, env).ctx.live <==> Verdict(site, c, ev).None? || ReportFails(ev)
  {
    var p := BodyProcessed(c, body, site.cap);
    assert p.live && Fed(c, body, site.cap).live;
    CheckFinishes(site.rules, p);
  }

  lemma ThrownFinishes(site: Site, c: Ctx, ev: Event)
    requires ThrowsInSend(ev) && Possible(site, Request(Serving, c), ev)
    ensures c.live && Thrown(site, c, ev).live && (Verdict(site, c, ev).Some? <==> !ev.SendThrows?)
  {
    match ev
    case SendThrows(n, calls) => CutKeepsReplacements(site, c, n, calls);
    case HeaderReportThrows(n) =>
    case PhaseFourReportThrows(n) => HeaderVerdict(site, c, n.raw.value);
  }

  lemma HeaderVerdict(site: Site, c: Ctx, raw: RawResponse)
    requires c.live
    ensures var h := HeaderPhase(site.rules, c, raw);
            && (h.live <==> c.headersFed || !BlocksInHeaders(site, c, raw))
            && h.replacements
               == c.replacements + (if h.live then [] else [HeaderAnswer(site, c, raw).value])
            && (h.live ==> h.headersFed && h.bodyEvaluated == c.bodyEvaluated && h.bodyBlock == c.bodyBlock)
  {
  }

  lemma EvaluateVerdict(rules: Rules, b: Ctx, canBlock: bool)
    requires b.live
    ensures var e, a := Evaluate(rules, b, canBlock), Answer(rules, PhaseFourRun(b));
            if canBlock && a.Some? then !e.live && e.replacements == b.replacements + [a.value]
            else e.live && e.bodyEvaluated && e.headersFed == b.headersFed && e.replacements == b.replacements
  {
  }

  lemma SendVerdict(site: Site, c: Ctx, n: Notification)
    requires c.live && n.raw.Some?
    ensures var after, verdict := SendResponse(site.rules, site.cap, c, n), Verdict(site, c, Send(n));
            && after.replacements == c.replacements + (if verdict.Some? then [verdict.value] else [])
            && (after.live <==> verdict.None?)
  {
    HeaderVerdict(site, c, n.raw.value);
    if HeaderPhase(site.rules, c, n.raw.value).live {
      var b := ReadyForPhaseFour(site, c, n.raw.value);
      EvaluateVerdict(site.rules, b, true);
      EvaluateVerdict(site.rules, b, false);
    }
  }

  lemma CutKeepsReplacements(site: Site, c: Ctx, n: Notification, calls: nat)
    requires CanThrowInSend(site, c, n, calls)
    ensures SendCut(site, c, n, calls).replacements == c.replacements && SendCut(site, c, n, calls).live
  {
    HeaderVerdict(site, c, n.raw.value);
  }

  /** Over every run: a live transaction has replaced a response only if its report
      failed, and two are replaced only if the rules block again after that. */
  ghost predicate Counted(site: Site, evs: seq<Event>, c: Ctx) {
    && (SeenFailedReport(site, evs) ==> c.replacements != [])
    && (c.live && c.replacements != [] ==> SeenFailedReport(site, evs))
    && (|c.replacements| <= 1 <==> !BlockedAgain(site, evs))
  }

  lemma {:induction false} CountedRun(site: Site, evs: seq<Event>, r: Request)
    requires Run(site, evs) == Some(r)
    ensures Counted(site, evs, r.ctx)
  {
    if evs != [] {
      var front, ev := evs[..|evs| - 1], evs[|evs| - 1];
      var before := Run(site, front).value;
      CountedRun(site, front, before);
      LivedRun(site, front, before);
      StepReplaces(site, before, ev);
      StepFinishes(site, before, ev);
    }
  }

  /** Over every run, exceptions included: processLogging is the last call on the
      transaction and comes at most once, exactly once if cleanup ran; the engine is told
      the statuses of the replaced responses in order and no others, each replaced response
      being the one asked for by the disruptive intervention read right before its report
      (up to a 500 of the exception policy); and at most one response is replaced if and
      only if the rules never block again after a block whose status report threw. */
  lemma TransactionLifecycle(site: Site, evs: seq<Event>, r: Request)
    requires Run(site, evs) == Some(r)
    ensures && (forall i :: 0 <= i < |r.ctx.trace| && r.ctx.trace[i] == ProcessLogging ==> i == |r.ctx.trace| - 1)
            && (r.stage == Gone ==> ProcessLogging in r.ctx.trace)
            && (ProcessLogging in r.ctx.trace <==> !r.ctx.live)
            && AllFollow(Reports(site.rules, r.ctx.trace), r.ctx.replacements)
            && (|r.ctx.replacements| <= 1 <==> !BlockedAgain(site, evs))
  {
    LivedRun(site, evs, r);
    CountedRun(site, evs, r);
    assert forall i :: 0 <= i < |r.ctx.trace| - 1 ==> r.ctx.trace[i] == r.ctx.trace[..|r.ctx.trace| - 1][i];
  }

  /** An engine that objects to everything. */
  function Strictest(): Rules {
    Rules(t => Some(Intervention(true, 403, "")), t => EngineOn, true)
  }

  /** It happens: the request is blocked, the report throws, and the response to it is
      replaced a second time. */
  lemma ReplacedTwice(site: Site, headers: seq<Header>, n: Notification) returns (evs: seq<Event>)
    requires site.rules == Strictest() && site.bodyBlock && n.raw.Some?
    ensures evs == [BeginReportThrows(headers), Send(n)]
    ensures Run(site, evs).Some? && |Run(site, evs).value.ctx.replacements| == 2
  {
    var started: seq<Event> := [] + [BeginReportThrows(headers)];
    RunSnoc(site, [], BeginReportThrows(headers));
    RunSnoc(site, started, Send(n));
    evs := [BeginReportThrows(headers), Send(n)];
    assert started + [Send(n)] == evs;
    var c := Run(site, started).value.ctx;
    assert BlockingEnabled(site.rules, HeadersProcessed(c, n.raw.value));
    SendVerdict(site, c, n);
  }

  // ---- The status the client is sent ----

  /** The engine's plain statuses fit a USHORT. */
  ghost predicate StatusesFit(rules: Rules) {
    forall t :: rules.intervention(t).Some? ==>
      rules.intervention(t).value.url != "" || rules.intervention(t).value.status < 0x1_0000
  }

  predicate SentAsReported(replacements: seq<Replacement>) {
    forall i :: 0 <= i < |replacements| ==> replacements[i].sent == replacements[i].reported
  }

  /** The exception policy stops a response that was replaced with another status. */
  predicate Overrides(c: Ctx) {
    PolicyStops(c) && c.replacements != [] && c.replacements[|c.replacements| - 1].reported != 500
  }

  predicate SeenOverride(site: Site, evs: seq<Event>) {
    evs != [] &&
    var front, ev := evs[..|evs| - 1], evs[|evs| - 1];
    || SeenOverride(site, front)
    || (ThrowsInSend(ev)
        && Run(site, front).Some?
        && Possible(site, Request(Serving, Run(site, front).value.ctx), ev)
        && Overrides(Thrown(site, Run(site, front).value.ctx, ev)))
  }

  lemma AnswersFit(rules: Rules, c: Ctx)
    requires StatusesFit(rules) && Answer(rules, c).Some?
    ensures Answer(rules, c).value.sent == Answer(rules, c).value.reported
  {
    ReportedStatusIsSent(rules.intervention(c.trace).value);
  }

  lemma VerdictFits(site: Site, c: Ctx, ev: Event)
    requires StatusesFit(site.rules) && Verdict(site, c, ev).Some?
    ensures Verdict(site, c, ev).value.sent == Verdict(site, c, ev).value.reported
  {
    match ev
    case Begin(_, headers) => AnswersFit(site.rules, Begun(c, headers));
    case BeginReportThrows(headers) => AnswersFit(site.rules, Begun(c, headers));
    case BodyPhase(body, _, _) => AnswersFit(site.rules, BodyProcessed(c, body, site.cap));
    case Send(n) => ResponseAnswersFit(site, c, n.raw.value);
    case HeaderReportThrows(n) => ResponseAnswersFit(site, c, n.raw.value);
    case PhaseFourReportThrows(n) => ResponseAnswersFit(site, c, n.raw.value);
    case _ =>
  }

  lemma ResponseAnswersFit(site: Site, c: Ctx, raw: RawResponse)
    requires StatusesFit(site.rules)
    ensures BlocksInHeaders(site, c, raw) ==>
              HeaderAnswer(site, c, raw).value.sent == HeaderAnswer(site, c, raw).value.reported
    ensures BlocksInPhaseFour(site, c, raw) ==>
              PhaseFourAnswer(site, c, raw).value.sent == PhaseFourAnswer(site, c, raw).value.reported
  {
    if BlocksInHeaders(site, c, raw) {
      AnswersFit(site.rules, HeadersProcessed(c, raw));
    }
    if BlocksInPhaseFour(site, c, raw) {
      AnswersFit(site.rules, PhaseFourRun(ReadyForPhaseFour(site, c, raw)));
    }
  }

  predicate SentOrStopped(replacements: seq<Replacement>) {
    forall i :: 0 <= i < |replacements| ==>
      replacements[i].sent == replacements[i].reported || replacements[i].sent == 500
  }

  lemma OneMoreFits(replacements: seq<Replacement>, one: Replacement)
    requires one.sent == one.reported
    ensures SentAsReported(replacements + [one]) <==> SentAsReported(replacements)
    ensures SentOrStopped(replacements + [one]) <==> SentOrStopped(replacements)
  {
    var more := replacements + [one];
    assert more[|replacements|] == one;
    assert forall i :: 0 <= i < |replacements| ==> more[i] == replacements[i];
  }

  lemma PolicyOverrides(c: Ctx)
    requires SentOrStopped(c.replacements)
    ensures SentOrStopped(AfterPolicy(c).replacements)
    ensures SentAsReported(AfterPolicy(c).replacements) <==> SentAsReported(c.replacements) && !Overrides(c)
  {
    var before, after := c.replacements, AfterPolicy(c).replacements;
    var last := |before| - 1;
    assert |after| == |before| && forall i :: 0 <= i < last ==> after[i] == before[i];
    if Overrides(c) {
      assert after[last].sent != after[last].reported;
    } else if PolicyStops(c) && before != [] {
      assert after[last] == before[last].(sent := 500);
    }
  }

  /** Over every run, with engine statuses that fit, every replaced response carries the
      status reported to the engine, or 500; and always the former, if and only if the
      exception policy never stopped a response replaced with another status. */
  lemma {:induction false} SentStatusIsReported(site: Site, evs: seq<Event>, r: Request)
    requires Run(site, evs) == Some(r) && StatusesFit(site.rules)
    ensures SentOrStopped(r.ctx.replacements)
    ensures SentAsReported(r.ctx.replacements) <==> !SeenOverride(site, evs)
  {
    if evs != [] {
      var front, ev := evs[..|evs| - 1], evs[|evs| - 1];
      var before := Run(site, front).value;
      SentStatusIsReported(site, front, before);
      LivedRun(site, front, before);
      StepAdds(site, before, ev);
      if Blocks(site, before.ctx, ev) {
        VerdictFits(site, before.ctx, ev);
        OneMoreFits(before.ctx.replacements, Verdict(site, before.ctx, ev).value);
      } else {
        assert before.ctx.replacements + [] == before.ctx.replacements;
      }
      if ThrowsInSend(ev) {
        assert before == Request(Serving, before.ctx);
        PolicyOverrides(Thrown(site, before.ctx, ev));
      }
    }
  }

  /** Once logged, no continuation of the run calls the engine or replaces anything. */
  lemma {:induction false} NoCallAfterLogging(site: Site, evs: seq<Event>, more: seq<Event>)
    requires Run(site, evs).Some? && !Run(site, evs).value.ctx.live
    requires Run(site, evs + more).Some?
    ensures Run(site, evs + more).value.ctx == Run(site, evs).value.ctx
  {
    if more == [] {
      assert evs + more == evs;
    } else {
      var front := more[..|more| - 1];
      assert evs + more == (evs + front) + [more[|more| - 1]];
      RunSnoc(site, evs + front, more[|more| - 1]);
      NoCallAfterLogging(site, evs, front);
      LivedRun(site, evs + front, Run(site, evs + front).value);
    }
  }
}
