/** OnBeginRequest: install the transaction, run the request phases in order, and
    enter the body phase unless a rule blocks. */
module RequestPhase {
  import opened Common
  import opened Engine
  import opened StoredContext
  import opened ContentLength
  import opened BodyDrain
  import opened BodyReader
  import opened Lifecycle
  import opened RequestTheorems

  /** Whatever the outcome, the transaction was given the request's headers, once and
      first. */
  method OnBeginRequest(site: Site, http: HttpContext, src: EntityStream, rawRequest: bool, headers: seq<Header>,
                        async: bool, env: FinishEnv)
    returns (rsc: RequestContext, status: Status)
    requires 1 <= site.cap < DWORD_MODULUS && http.replacements == []
    requires src.history == [] && !src.inFlight
    modifies http, src
    ensures fresh(rsc) && fresh(rsc.installed) && rsc.installed.rules == site.rules
    ensures var r := Step(site, Request(Starting, Installed(site.bodyBlock)), Begin(rawRequest, headers));
            if r.stage == Serving then
              && rsc.Valid() && rsc.View(http) == r.ctx && src.unread == old(src.unread)
              && status == (if rawRequest then FinishRequest else Continue)
            else if status == Pending then
              && Drained(rsc, http, src, site.cap, r.ctx, old(src.unread))
              && EntityBodyInfo(rsc.hasBody, rsc.declared) == Announced(src.raw)
              && rsc.bodyReadState == BrsReadPending && src.inFlight
            else
              && Ended(rsc, http, src, site.cap, r.ctx, old(src.unread), env, status)
              && EntityBodyInfo(rsc.hasBody, rsc.declared) == Announced(src.raw)
              && (if rsc.hasBody then CompleteDrain(src.history, LimitsOf(rsc, site.cap)) else src.history == [])
    ensures rawRequest ==> RequestOpening(headers) <= rsc.installed.trace
    ensures RequestHeaders(rsc.installed.trace) == if rawRequest then headers else []
  {
    var tx := new Transaction(site.rules);
    rsc := new RequestContext(tx, site.bodyBlock);
    assert rsc.View(http) == Installed(site.bodyBlock);
    if !rawRequest {
      return rsc, Continue;
    }
    tx.Call(ProcessConnection);
    tx.Call(ProcessUri);
    tx.Call(AddRequestHeaders(headers));
    tx.Call(ProcessRequestHeaders);
    assert rsc.View(http).trace == [] + BeginCalls(headers);
    BeginOpens(site, headers);
    var outcome := ApplyIntervention(rsc, http, true, false);
    HeadersStay(headers, rsc.installed.trace);
    if outcome == Blocked {
      return rsc, FinishRequest;
    }
    ghost var c := rsc.View(http);
    status := BeginBodyRead(rsc, http, src, async, site.cap, env, c, src.unread);
    if status != Pending {
      AddsBody(site, c, rsc.body, old(src.unread)[|rsc.body|..], env);
      HeadersStay(headers, rsc.installed.trace);
    }
  }
}
