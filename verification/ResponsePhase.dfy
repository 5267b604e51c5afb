/** OnSendResponse: the response-header phase, the bounded inspection of the body,
    and phase 4 in its blocking and inspect-only modes. */
module ResponsePhase {
  import opened Common
  import opened Engine
  import opened StoredContext
  import opened ResponseBody
  import ContentLength

  /** The raw response view: what the handler has put into the response so far. */
  datatype RawResponse = RawResponse(
    headers: seq<Header>,
    status: int,
    chunks: seq<Chunk>,
    contentLength: Option<string>)

  /** One RQ_SEND_RESPONSE notification. */
  datatype Notification = Notification(raw: Option<RawResponse>, moreData: bool, headersBeingSent: bool)

  // ---- The notification as a function of the context ----

  /** The response headers have just been processed. */
  function HeadersProcessed(c: Ctx, raw: RawResponse): Ctx {
    Log(Log(c, AddResponseHeaders(raw.headers)), ProcessResponseHeaders(raw.status))
  }

  /** The one-shot header phase. Blocking leaves the context without a transaction. */
  function HeaderPhase(rules: Rules, c: Ctx, raw: RawResponse): Ctx {
    if c.headersFed then c
    else
      var p := HeadersProcessed(c, raw);
      var canBlock := BlockingEnabled(rules, p);
      var after := Intervened(rules, p, canBlock);
      if Honoured(rules, p, canBlock).Some? then after else after.(headersFed := true)
  }

  function BodyInspected(c: Ctx, raw: RawResponse, cap: nat): Ctx {
    c.(trace := c.trace + AppendCalls(Inspect(raw.chunks, cap).pieces))
  }

  /** Phase 4 with or without the power to block. */
  function Evaluate(rules: Rules, c: Ctx, canBlock: bool): Ctx {
    Intervened(rules, Log(c.(bodyEvaluated := true), ProcessResponseBody), canBlock)
  }

  /** Mode A: evaluate a complete body with blocking, or give blocking up for good. */
  function ModeA(rules: Rules, c: Ctx, moreData: bool): Ctx {
    if BlockingEnabled(rules, c) && !c.bodyEvaluated then
      if moreData then c.(bodyBlock := false) else Evaluate(rules, c, true)
    else c
  }

  /** Mode B: evaluate at the final send, for detection only. */
  function ModeB(rules: Rules, c: Ctx, moreData: bool): Ctx {
    if c.live && !BlockingEnabled(rules, c) && !c.bodyEvaluated && !moreData
    then Evaluate(rules, c, false) else c
  }

  function SendResponse(rules: Rules, cap: nat, c: Ctx, n: Notification): Ctx {
    if !c.live || n.raw.None? then c
    else
      var h := HeaderPhase(rules, c, n.raw.value);
      if !h.live then h
      else ModeB(rules, ModeA(rules, BodyInspected(h, n.raw.value, cap), n.moreData), n.moreData)
  }

  /** Whether a context with this inspected body gets a Content-Length. */
  predicate SetsContentLength(rules: Rules, cap: nat, inspected: Ctx, n: Notification) {
    && n.raw.Some?
    && BlockingEnabled(rules, inspected) && !inspected.bodyEvaluated && !n.moreData
    && 0 < Inspect(n.raw.value.chunks, cap).count < cap
    && n.headersBeingSent
    && n.raw.value.contentLength.None?
  }

  /** The response's Content-Length after the notification. */
  function LengthAfter(rules: Rules, cap: nat, c: Ctx, n: Notification, before: Option<string>): Option<string> {
    if !c.live || n.raw.None? then before
    else if !SendResponse(rules, cap, c, n).live then None
    else if SetsContentLength(rules, cap, BodyInspected(HeaderPhase(rules, c, n.raw.value), n.raw.value, cap), n)
    then Some(ContentLength.Decimal(Inspect(n.raw.value.chunks, cap).count))
    else before
  }

  // ---- The method ----

  method RunHeaderPhase(rsc: RequestContext, http: HttpContext, raw: RawResponse) returns (finished: bool)
    requires rsc.Valid() && rsc.tx != null
    modifies rsc`tx, rsc`rules, rsc`headersFed, rsc.installed, http
    ensures rsc.Valid()
    ensures rsc.View(http) == HeaderPhase(rsc.installed.rules, old(rsc.View(http)), raw)
    ensures finished <==> rsc.tx == null
    ensures finished ==> http.handled && http.contentLength == None
    ensures !finished ==> unchanged(http)
  {
    finished := false;
    if !rsc.headersFed {
      rsc.tx.Call(AddResponseHeaders(raw.headers));
      rsc.tx.Call(ProcessResponseHeaders(raw.status));
      ghost var p := rsc.View(http);
      var canBlock := rsc.ResponseBodyBlockingEnabled();
      assert canBlock == BlockingEnabled(rsc.installed.rules, p);
      var outcome := ApplyIntervention(rsc, http, canBlock, false);
      finished := outcome == Blocked;
      if finished {
        return;
      }
      rsc.headersFed := true;
    }
  }

  method EvaluateBody(rsc: RequestContext, http: HttpContext, canBlock: bool) returns (finished: bool)
    requires rsc.Valid() && rsc.tx != null
    modifies rsc`tx, rsc`rules, rsc`bodyEvaluated, rsc.installed, http
    ensures rsc.Valid()
    ensures rsc.View(http) == Evaluate(rsc.installed.rules, old(rsc.View(http)), canBlock)
    ensures finished <==> rsc.tx == null
    ensures finished ==> canBlock && http.handled && http.contentLength == None
    ensures !finished ==> unchanged(http)
  {
    rsc.bodyEvaluated := true;
    rsc.tx.Call(ProcessResponseBody);
    var outcome := ApplyIntervention(rsc, http, canBlock, false);
    finished := outcome == Blocked;
  }

  method RunBodyPhase(rsc: RequestContext, http: HttpContext, n: Notification, cap: nat) returns (status: Status)
    requires rsc.Valid() && rsc.tx != null && n.raw.Some?
    requires http.contentLength == n.raw.value.contentLength
    modifies rsc`tx, rsc`rules, rsc`bodyBlock, rsc`bodyEvaluated, rsc.installed, http
    ensures rsc.Valid()
    ensures var rules, c := rsc.installed.rules, BodyInspected(old(rsc.View(http)), n.raw.value, cap);
            && rsc.View(http) == ModeB(rules, ModeA(rules, c, n.moreData), n.moreData)
            && status == (if rsc.tx == null then FinishRequest else Continue)
            && http.contentLength == (if rsc.tx == null then None
                                      else if SetsContentLength(rules, cap, c, n)
                                      then Some(ContentLength.Decimal(Inspect(n.raw.value.chunks, cap).count))
                                      else n.raw.value.contentLength)
  {
    var respInspected := InspectChunks(rsc.tx, n.raw.value.chunks, cap);
    ghost var c := rsc.View(http);
    var blocking := rsc.ResponseBodyBlockingEnabled();
    assert blocking == BlockingEnabled(rsc.installed.rules, c);
    if blocking && !rsc.bodyEvaluated {
      if n.moreData {
        rsc.bodyBlock := false;
      } else {
        if respInspected > 0 && n.headersBeingSent && respInspected < cap && http.contentLength == None {
          http.contentLength := Some(ContentLength.Decimal(respInspected));
        }
        var finished := EvaluateBody(rsc, http, true);
        if finished {
          return FinishRequest;
        }
      }
    }
    ghost var a := rsc.View(http);
    blocking := rsc.ResponseBodyBlockingEnabled();
    assert blocking == BlockingEnabled(rsc.installed.rules, a);
    if !blocking && !rsc.bodyEvaluated && !n.moreData {
      var _ := EvaluateBody(rsc, http, false);
    }
    return Continue;
  }

  method OnSendResponse(rsc: RequestContext, http: HttpContext, n: Notification, cap: nat) returns (status: Status)
    requires rsc.Valid()
    requires n.raw.Some? ==> http.contentLength == n.raw.value.contentLength
    modifies rsc`tx, rsc`rules, rsc`headersFed, rsc`bodyBlock, rsc`bodyEvaluated, rsc.installed, http
    ensures rsc.Valid()
    ensures rsc.View(http) == SendResponse(rsc.installed.rules, cap, old(rsc.View(http)), n)
    ensures status == (if old(rsc.tx) != null && rsc.tx == null then FinishRequest else Continue)
    ensures http.contentLength == LengthAfter(rsc.installed.rules, cap, old(rsc.View(http)), n, old(http.contentLength))
  {
    if rsc.tx == null {
      return Continue;
    }
    if n.raw.None? {
      return Continue;
    }
    var finished := RunHeaderPhase(rsc, http, n.raw.value);
    if finished {
      return FinishRequest;
    }
    status := RunBodyPhase(rsc, http, n, cap);
  }

  /** After an exception: nothing of the response has been committed yet. */
  predicate PolicyStops(c: Ctx) {
    c.live && !c.headersFed && !c.bodyEvaluated
  }

  /** The context after the exception policy: a replaced response that is stopped goes
      out with 500 instead of its own status. */
  function AfterPolicy(c: Ctx): Ctx {
    var n := |c.replacements|;
    if PolicyStops(c) && n > 0
    then c.(replacements := c.replacements[..n - 1] + [c.replacements[n - 1].(sent := 500)])
    else c
  }

  method SendResponseExceptionPolicy(rsc: RequestContext, http: HttpContext) returns (status: Status)
    requires rsc.Valid()
    modifies http`status, http`replacements
    ensures status == (if PolicyStops(old(rsc.View(http))) then FinishRequest else Continue)
    ensures if status == FinishRequest then http.status == 500 else http.status == old(http.status)
    ensures rsc.View(http) == AfterPolicy(old(rsc.View(http)))
  {
    if rsc.tx != null && !rsc.headersFed && !rsc.bodyEvaluated {
      http.SetStatus(500);
      ghost var n := |http.replacements|;
      if n > 0 {
        http.replacements := http.replacements[..n - 1] + [http.replacements[n - 1].(sent := 500)];
      }
      return FinishRequest;
    }
    return Continue;
  }

  /** A Content-Length that OnSendResponse sets is never larger than the body, and parses
      back to its exact length if and only if no byte of a chunk was skipped or could not
      be read. */
  lemma ContentLengthIsExact(rules: Rules, cap: nat, inspected: Ctx, n: Notification)
    requires cap < DWORD_MODULUS && SetsContentLength(rules, cap, inspected, n)
    ensures var chunks := n.raw.value.chunks;
            var declared := ContentLength.DeclaredLength(ContentLength.Decimal(Inspect(chunks, cap).count));
            && declared.Some? && declared.value <= BodyLength(chunks)
            && (declared.value == BodyLength(chunks) <==> AllFullyRead(chunks))
  {
    BelowCapIsTotal(n.raw.value.chunks, cap);
    ContentLength.PrintedLengthIsReported(Inspect(n.raw.value.chunks, cap).count);
    assert ContentLength.Kept(ContentLength.Decimal(Inspect(n.raw.value.chunks, cap).count))
           == ContentLength.Decimal(Inspect(n.raw.value.chunks, cap).count);
  }
}
