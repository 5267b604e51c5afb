/** The entity-body reader as the module runs it on one thread at a time:
    BeginBodyRead, PumpBodyRead, ConsumeBodyChunk, FinishBodyRead and
    OnAsyncCompletion over the stored context, in both read modes. */
module BodyReader {
  import opened Common
  import opened Engine
  import opened StoredContext
  import opened BodyDrain
  import opened ContentLength

  /** The entity-body side of IHttpRequest. Reads deliver any number of bytes that
      fits the buffer, with any HRESULT, at once or later. */
  class EntityStream {
    var unread: Bytes
    const raw: Option<RawRequest>
    ghost var history: seq<ReadResult>
    ghost var inFlight: bool

    constructor (entity: Bytes, raw: Option<RawRequest>)
      ensures unread == entity && this.raw == raw && history == [] && !inFlight
    {
      unread, this.raw := entity, raw;
      history, inFlight := [], false;
    }

    /** The completed reads and the unread remainder make up the entity. */
    ghost predicate Conserves(entity: Bytes)
      reads this
    {
      Chunked(history) && Total(history) + unread == entity
    }

    /** A read completes: its bytes move from the front of the stream into the buffer. */
    method Deliver(buf: array<Byte>, ghost entity: Bytes) returns (read: nat, hr: HResult)
      requires buf.Length == READ_CHUNK && Conserves(entity)
      modifies this, buf
      ensures read <= buf.Length && history == old(history) + [ReadResult(buf[..read], hr)]
      ensures Conserves(entity) && !inFlight
    {
      read :| 0 <= read <= |unread| && read <= buf.Length;
      hr := *;
      forall i | 0 <= i < read {
        buf[i] := unread[i];
      }
      assert buf[..read] == unread[..read];
      ghost var result := ReadResult(buf[..read], hr);
      TakenFromFront(history, unread, result);
      unread, history, inFlight := unread[read..], history + [result], false;
    }

    method ReadEntityBody(buf: array<Byte>, async: bool, ghost entity: Bytes)
      returns (read: nat, hr: HResult, pending: bool)
      requires buf.Length == READ_CHUNK && Conserves(entity) && !inFlight
      modifies this, buf
      ensures Conserves(entity)
      ensures pending ==> async && inFlight && unread == old(unread) && history == old(history)
      ensures !pending ==> !inFlight && read <= buf.Length && history == old(history) + [ReadResult(buf[..read], hr)]
    {
      read, hr, pending := 0, S_OK, *;
      pending := pending && async;
      if pending {
        inFlight := true;
      } else {
        read, hr := Deliver(buf, entity);
      }
    }

    method InsertEntityBody(bytes: Bytes)
      modifies this`unread
      ensures unread == bytes + old(unread)
    {
      unread := bytes + unread;
    }
  }

  function LimitsOf(rsc: RequestContext, cap: nat): Limits
    reads rsc
  {
    Limits(rsc.declared, cap)
  }

  /** All completed reads are in m_Body, what is left is unread, and the context
      still has the value c it had when the body phase began. */
  ghost predicate Drained(rsc: RequestContext, http: HttpContext, src: EntityStream, cap: nat, c: Ctx, entity: Bytes)
    reads rsc, rsc.installed, http, src
  {
    && rsc.Valid() && c.live && rsc.View(http) == c
    && ValidLimits(LimitsOf(rsc, cap))
    && rsc.readBuf.Length == READ_CHUNK
    && rsc.body == Total(src.history) && src.Conserves(entity)
    && Continues(src.history, LimitsOf(rsc, cap))
  }

  /** The last completed read is still in m_ReadBuf. */
  ghost predicate Arrived(rsc: RequestContext, http: HttpContext, src: EntityStream, cap: nat, c: Ctx, entity: Bytes,
                          read: nat, hr: HResult)
    reads rsc, rsc.installed, rsc.readBuf, http, src
  {
    && rsc.Valid() && c.live && rsc.View(http) == c
    && ValidLimits(LimitsOf(rsc, cap))
    && rsc.readBuf.Length == READ_CHUNK
    && src.history != [] && read <= READ_CHUNK
    && src.history[|src.history| - 1] == ReadResult(rsc.readBuf[..read], hr)
    && var front := src.history[..|src.history| - 1];
    && rsc.body == Total(front) && src.Conserves(entity)
    && Continues(front, LimitsOf(rsc, cap))
  }

  /** FinishBodyRead has run on exactly the drained bytes. */
  ghost predicate Ended(rsc: RequestContext, http: HttpContext, src: EntityStream, cap: nat, c: Ctx, entity: Bytes,
                        env: FinishEnv, status: Status)
    reads rsc, rsc.installed, http, src
  {
    && rsc.Valid()
    && Feasible(entity, src.history)
    && rsc.body == Total(src.history)
    && var e := Finish(rsc.installed.rules, c, rsc.body, entity[|rsc.body|..], cap, env);
       rsc.View(http) == e.ctx && src.unread == e.stream && status == e.status
  }

  method FinishBodyRead(rsc: RequestContext, http: HttpContext, src: EntityStream, cap: nat, env: FinishEnv)
    returns (status: Status)
    requires rsc.Valid() && rsc.tx != null
    modifies rsc`tx, rsc`rules, rsc.installed, http, src`unread
    ensures rsc.Valid()
    ensures var e := Finish(rsc.installed.rules, old(rsc.View(http)), rsc.body, old(src.unread), cap, env);
            rsc.View(http) == e.ctx && src.unread == e.stream && status == e.status
    ensures status != Pending
    ensures http.replacements == old(http.replacements) ==>
              http.status == if rsc.body != [] && !env.memoryOk
                                && EngineAllows(rsc.installed.rules, old(rsc.View(http)), rsc.body, cap, env)
                             then 500 else old(http.status)
  {
    var restoreFailed := false;
    if rsc.body != [] {
      if env.memoryOk {
        if !env.insertOk {
          return FinishRequest;
        }
        src.InsertEntityBody(Reinserted(rsc.body));
      } else {
        restoreFailed := true;
      }
    }
    var take := |rsc.body|;
    if take > cap {
      take := cap;
    }
    if take > 0 {
      rsc.tx.Call(AppendRequestBody(rsc.body[..take]));
      if env.throws == AtAppend {
        return FinishRequest;
      }
    }
    ghost var fed := Fed(old(rsc.View(http)), rsc.body, cap);
    assert rsc.View(http) == fed;
    rsc.tx.Call(ProcessRequestBody);
    assert rsc.View(http) == Log(fed, ProcessRequestBody);
    if env.throws == AtProcess {
      return FinishRequest;
    }
    if env.throws == AtIntervention {
      rsc.tx.Call(TakeIntervention);
      return FinishRequest;
    }
    status := RuleOnBody(rsc, http, restoreFailed, env.throws == AtReport);
  }

  /** What follows the engine calls of FinishBodyRead: the rules decide, and a request
      they allow is failed if its body could not be restored. */
  method RuleOnBody(rsc: RequestContext, http: HttpContext, restoreFailed: bool, reportThrows: bool)
    returns (status: Status)
    requires rsc.Valid() && rsc.tx != null
    modifies rsc`tx, rsc`rules, rsc.installed, http
    ensures rsc.Valid()
    ensures var rules, p := rsc.installed.rules, old(rsc.View(http));
            var it := Honoured(rules, p, true);
            && rsc.View(http) == (if it.Some? && reportThrows then Replaced(p, ReplacementFor(it.value))
                                  else Intervened(rules, p, true))
            && status == (if it.Some? || restoreFailed then FinishRequest else Continue)
            && (it.None? ==> http.status == if restoreFailed then 500 else old(http.status))
            && (it.Some? ==> |http.replacements| == |old(http.replacements)| + 1)
  {
    var outcome := ApplyIntervention(rsc, http, true, reportThrows);
    if outcome != LetPass {
      return FinishRequest;
    }
    if restoreFailed {
      http.SetStatus(500);
      return FinishRequest;
    }
    return Continue;
  }

  /** Publish BRS_DONE, then run the body phase on what was drained. */
  method EndBody(rsc: RequestContext, http: HttpContext, src: EntityStream, cap: nat, env: FinishEnv,
                 ghost c: Ctx, ghost entity: Bytes)
    returns (status: Status)
    requires rsc.Valid() && c.live && rsc.View(http) == c
    requires rsc.body == Total(src.history) && src.Conserves(entity)
    modifies rsc`tx, rsc`rules, rsc`bodyReadState, rsc.installed, http, src`unread
    ensures Ended(rsc, http, src, cap, c, entity, env, status)
    ensures rsc.bodyReadState == BrsDone && status != Pending
  {
    assert entity[|rsc.body|..] == src.unread;
    rsc.bodyReadState := BrsDone;
    status := FinishBodyRead(rsc, http, src, cap, env);
  }

  method ConsumeBodyChunk(rsc: RequestContext, http: HttpContext, src: EntityStream, read: nat, hr: HResult,
                          cap: nat, env: FinishEnv, ghost c: Ctx, ghost entity: Bytes)
    returns (more: bool, status: Status)
    requires Arrived(rsc, http, src, cap, c, entity, read, hr)
    modifies rsc`tx, rsc`rules, rsc`body, rsc`bodyReadState, rsc.installed, http, src`unread
    ensures more ==> Drained(rsc, http, src, cap, c, entity) && rsc.bodyReadState == old(rsc.bodyReadState)
    ensures !more ==> Ended(rsc, http, src, cap, c, entity, env, status)
    ensures !more ==> CompleteDrain(src.history, LimitsOf(rsc, cap)) && rsc.bodyReadState == BrsDone && status != Pending
  {
    status := Continue;
    OneMoreRead(src.history, LimitsOf(rsc, cap));
    if read > 0 {
      rsc.body := rsc.body + rsc.readBuf[..read];
    }
    var eof := read == 0 || IsEofCode(hr);
    if eof {
      status := EndBody(rsc, http, src, cap, env, c, entity);
      return false, status;
    }
    if Failed(hr) {
      status := EndBody(rsc, http, src, cap, env, c, entity);
      return false, status;
    }
    if rsc.declared > 0 && |rsc.body| >= rsc.declared {
      status := EndBody(rsc, http, src, cap, env, c, entity);
      return false, status;
    }
    if |rsc.body| >= cap {
      status := EndBody(rsc, http, src, cap, env, c, entity);
      return false, status;
    }
    return true, status;
  }

  /** The top of the pump loop: publish BRS_READ_PENDING before the read is issued,
      and take it back when the read completed inline. */
  method IssueRead(rsc: RequestContext, http: HttpContext, src: EntityStream, async: bool,
                   cap: nat, ghost c: Ctx, ghost entity: Bytes)
    returns (read: nat, hr: HResult, pending: bool)
    requires Drained(rsc, http, src, cap, c, entity)
    requires rsc.bodyReadState == BrsIdle && !src.inFlight
    modifies rsc`bodyReadState, rsc.readBuf, src
    ensures pending ==> async && src.inFlight && rsc.bodyReadState == BrsReadPending && src.history == old(src.history)
    ensures pending ==> Drained(rsc, http, src, cap, c, entity)
    ensures !pending ==> !src.inFlight && rsc.bodyReadState == BrsIdle
    ensures !pending ==> Arrived(rsc, http, src, cap, c, entity, read, hr)
    ensures !pending ==> |src.history| == |old(src.history)| + 1 && old(src.history) <= src.history
  {
    if async {
      rsc.bodyReadState := BrsReadPending;
    }
    read, hr, pending := src.ReadEntityBody(rsc.readBuf, async, entity);
    if async && pending {
      return;
    }
    if async {
      rsc.bodyReadState := BrsIdle;
    }
    assert src.history[..|src.history| - 1] == old(src.history);
  }

  method PumpBodyRead(rsc: RequestContext, http: HttpContext, src: EntityStream, async: bool,
                      cap: nat, env: FinishEnv, ghost c: Ctx, ghost entity: Bytes)
    returns (status: Status)
    requires Drained(rsc, http, src, cap, c, entity)
    requires rsc.bodyReadState == BrsIdle && !src.inFlight
    modifies rsc`tx, rsc`rules, rsc`body, rsc`bodyReadState, rsc.readBuf, rsc.installed, http, src
    ensures |old(src.history)| <= |src.history|
    ensures status == Pending ==> |src.history| < Mark(LimitsOf(rsc, cap))
    ensures status == Pending ==> async && src.inFlight && rsc.bodyReadState == BrsReadPending
    ensures status == Pending ==> Drained(rsc, http, src, cap, c, entity)
    ensures status != Pending ==> Ended(rsc, http, src, cap, c, entity, env, status) && !src.inFlight
    ensures status != Pending ==> CompleteDrain(src.history, LimitsOf(rsc, cap)) && rsc.bodyReadState == BrsDone
  {
    ContinuesBounds(src.history, LimitsOf(rsc, cap));
    while true
      invariant Drained(rsc, http, src, cap, c, entity)
      invariant rsc.bodyReadState == BrsIdle && !src.inFlight
      invariant |old(src.history)| <= |src.history| < Mark(LimitsOf(rsc, cap))
      decreases Mark(LimitsOf(rsc, cap)) - |src.history|
    {
      var read, hr, pending := IssueRead(rsc, http, src, async, cap, c, entity);
      if pending {
        return Pending;
      }
      var more;
      more, status := ConsumeBodyChunk(rsc, http, src, read, hr, cap, env, c, entity);
      if !more {
        return;
      }
      ContinuesBounds(src.history, LimitsOf(rsc, cap));
    }
  }

  method BeginBodyRead(rsc: RequestContext, http: HttpContext, src: EntityStream, async: bool,
                       cap: nat, env: FinishEnv, ghost c: Ctx, ghost entity: Bytes)
    returns (status: Status)
    requires rsc.Valid() && rsc.tx != null && rsc.View(http) == c && 1 <= cap < DWORD_MODULUS
    requires rsc.body == [] && rsc.bodyReadState == BrsIdle && !rsc.hasBody && rsc.declared == 0
    requires src.unread == entity && src.history == [] && !src.inFlight
    modifies rsc, rsc.installed, http, src
    ensures EntityBodyInfo(rsc.hasBody, rsc.declared) == Announced(src.raw)
    ensures status == Pending ==> async && src.inFlight && rsc.bodyReadState == BrsReadPending && rsc.hasBody
    ensures status == Pending ==> Drained(rsc, http, src, cap, c, entity) && fresh(rsc.readBuf)
    ensures status == Pending ==> |src.history| < Mark(LimitsOf(rsc, cap))
    ensures status != Pending ==> Ended(rsc, http, src, cap, c, entity, env, status) && !src.inFlight
    ensures status != Pending ==> rsc.bodyReadState != BrsReadPending
    ensures status != Pending ==>
              if rsc.hasBody then CompleteDrain(src.history, LimitsOf(rsc, cap)) else src.history == []
  {
    var info := GetEntityBodyInfo(src.raw);
    if !info.hasBody {
      assert entity[|rsc.body|..] == entity;
      status := FinishBodyRead(rsc, http, src, cap, env);
      return;
    }
    rsc.hasBody := true;
    rsc.declared := info.length;
    rsc.readBuf := new Byte[READ_CHUNK];
    assert Total(src.history) + src.unread == entity;
    status := PumpBodyRead(rsc, http, src, async, cap, env, c, entity);
  }

  method OnAsyncCompletion(rsc: RequestContext, http: HttpContext, src: EntityStream, async: bool,
                           cb: nat, ch: HResult, cap: nat, env: FinishEnv, ghost c: Ctx, ghost entity: Bytes)
    returns (status: Status)
    requires rsc.Valid() && !src.inFlight
    requires rsc.tx != null && rsc.bodyReadState == BrsReadPending ==> Arrived(rsc, http, src, cap, c, entity, cb, ch)
    modifies rsc`tx, rsc`rules, rsc`body, rsc`bodyReadState, rsc.readBuf, rsc.installed, http, src
    ensures old(rsc.tx) == null || old(rsc.bodyReadState) != BrsReadPending ==>
              status == Continue && unchanged(rsc) && unchanged(rsc.readBuf) && unchanged(rsc.installed)
              && unchanged(http) && unchanged(src)
    ensures old(rsc.tx) != null && old(rsc.bodyReadState) == BrsReadPending ==>
              |old(src.history)| <= |src.history|
    ensures old(rsc.tx) != null && old(rsc.bodyReadState) == BrsReadPending && status == Pending ==>
              Drained(rsc, http, src, cap, c, entity) && async && src.inFlight && rsc.bodyReadState == BrsReadPending
    ensures old(rsc.tx) != null && old(rsc.bodyReadState) == BrsReadPending && status != Pending ==>
              && Ended(rsc, http, src, cap, c, entity, env, status) && !src.inFlight
              && CompleteDrain(src.history, LimitsOf(rsc, cap)) && rsc.bodyReadState == BrsDone
  {
    if rsc.tx == null {
      return Continue;
    }
    if rsc.bodyReadState != BrsReadPending {
      return Continue;
    }
    rsc.bodyReadState := BrsIdle;
    var more;
    more, status := ConsumeBodyChunk(rsc, http, src, cb, ch, cap, env, c, entity);
    if !more {
      return;
    }
    status := PumpBodyRead(rsc, http, src, async, cap, env, c, entity);
  }

  /** IIS completes the read in flight and delivers it to OnAsyncCompletion. */
  method CompleteRead(rsc: RequestContext, http: HttpContext, src: EntityStream, async: bool,
                      cap: nat, env: FinishEnv, ghost c: Ctx, ghost entity: Bytes)
    returns (status: Status)
    requires Drained(rsc, http, src, cap, c, entity)
    requires src.inFlight && rsc.bodyReadState == BrsReadPending
    modifies rsc`tx, rsc`rules, rsc`body, rsc`bodyReadState, rsc.readBuf, rsc.installed, http, src
    ensures |old(src.history)| < |src.history|
    ensures status == Pending ==> async && src.inFlight && rsc.bodyReadState == BrsReadPending
    ensures status == Pending ==> Drained(rsc, http, src, cap, c, entity)
    ensures status != Pending ==> Ended(rsc, http, src, cap, c, entity, env, status) && !src.inFlight
    ensures status != Pending ==> CompleteDrain(src.history, LimitsOf(rsc, cap)) && rsc.bodyReadState == BrsDone
  {
    ghost var front := src.history;
    var cb, ch := src.Deliver(rsc.readBuf, entity);
    assert src.history[..|src.history| - 1] == front;
    status := OnAsyncCompletion(rsc, http, src, async, cb, ch, cap, env, c, entity);
  }

  /** A whole body phase as IIS drives it: begin, then deliver the completion of each
      pended read. It always ends, in either read mode, with the same result: the body
      phase applied to a complete drain of the entity. */
  method ServeBody(rsc: RequestContext, http: HttpContext, src: EntityStream, async: bool, cap: nat, env: FinishEnv)
    returns (status: Status)
    requires rsc.Valid() && rsc.tx != null && 1 <= cap < DWORD_MODULUS
    requires rsc.body == [] && rsc.bodyReadState == BrsIdle && !rsc.hasBody && rsc.declared == 0
    requires src.history == [] && !src.inFlight
    modifies rsc, rsc.installed, http, src
    ensures Ended(rsc, http, src, cap, old(rsc.View(http)), old(src.unread), env, status)
    ensures EntityBodyInfo(rsc.hasBody, rsc.declared) == Announced(src.raw)
    ensures if rsc.hasBody then CompleteDrain(src.history, LimitsOf(rsc, cap)) else src.history == []
    ensures rsc.bodyReadState != BrsReadPending
  {
    ghost var c, entity := rsc.View(http), src.unread;
    status := BeginBodyRead(rsc, http, src, async, cap, env, c, entity);
    while status == Pending
      invariant EntityBodyInfo(rsc.hasBody, rsc.declared) == Announced(src.raw)
      invariant status == Pending ==> fresh(rsc.readBuf) && rsc.hasBody
      invariant status == Pending ==> src.inFlight && rsc.bodyReadState == BrsReadPending
      invariant status == Pending ==> Drained(rsc, http, src, cap, c, entity)
      invariant status == Pending ==> |src.history| < Mark(LimitsOf(rsc, cap))
      invariant status != Pending ==> Ended(rsc, http, src, cap, c, entity, env, status)
      invariant status != Pending ==> rsc.bodyReadState != BrsReadPending
      invariant status != Pending ==>
                  if rsc.hasBody then CompleteDrain(src.history, LimitsOf(rsc, cap)) else src.history == []
      decreases status == Pending, Mark(LimitsOf(rsc, cap)) - |src.history|
    {
      status := CompleteRead(rsc, http, src, async, cap, env, c, entity);
      if status == Pending {
        ContinuesBounds(src.history, LimitsOf(rsc, cap));
      }
    }
  }
}
