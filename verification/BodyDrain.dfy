/** What draining an entity body means, read result by read result, independent of
    how the reads are issued: the stop conditions, the completed drain, and what is
    done with the drained bytes. */
module BodyDrain {
  import opened Common
  import opened Engine
  import opened StoredContext

  const READ_CHUNK: nat := 65536

  /** One completed ReadEntityBody: the bytes it delivered and its HRESULT. */
  datatype ReadResult = ReadResult(bytes: Bytes, hr: HResult)

  /** The declared Content-Length (0 when unknown) and the inspection cap. */
  datatype Limits = Limits(declared: nat, cap: nat)

  /** Caps that GetMaxInspectBodyBytes can return. */
  predicate ValidLimits(lim: Limits) {
    1 <= lim.cap < DWORD_MODULUS
  }

  /** All bytes delivered by a list of reads. */
  function Total(results: seq<ReadResult>): Bytes {
    if results == [] then [] else Total(results[..|results| - 1]) + results[|results| - 1].bytes
  }

  /** Whether the pump stops after a read that left this accumulated body. */
  predicate Stops(bodySize: nat, read: nat, hr: HResult, lim: Limits) {
    || read == 0
    || IsEofCode(hr)
    || Failed(hr)
    || (lim.declared > 0 && bodySize >= lim.declared)
    || bodySize >= lim.cap
  }

  /** None of these reads stopped the pump. */
  predicate Continues(results: seq<ReadResult>, lim: Limits) {
    results == [] ||
    var front, last := results[..|results| - 1], results[|results| - 1];
    Continues(front, lim) && !Stops(|Total(results)|, |last.bytes|, last.hr, lim)
  }

  /** The pump stopped at the last of these reads and at no earlier one. */
  predicate CompleteDrain(results: seq<ReadResult>, lim: Limits) {
    && results != []
    && Continues(results[..|results| - 1], lim)
    && var last := results[|results| - 1]; Stops(|Total(results)|, |last.bytes|, last.hr, lim)
  }

  /** No read delivered more than the staging buffer holds. */
  predicate Chunked(results: seq<ReadResult>) {
    forall i :: 0 <= i < |results| ==> |results[i].bytes| <= READ_CHUNK
  }

  /** The reads took their bytes off the front of this entity. */
  predicate Feasible(entity: Bytes, results: seq<ReadResult>) {
    Chunked(results) && Total(results) <= entity
  }

  /** Accumulated bytes at which the pump stops asking for more. */
  function Mark(lim: Limits): nat {
    if lim.declared == 0 then lim.cap else Min(lim.cap, lim.declared)
  }

  lemma TotalSnoc(results: seq<ReadResult>, r: ReadResult)
    ensures Total(results + [r]) == Total(results) + r.bytes
  {
    assert (results + [r])[..|results|] == results;
  }

  lemma TakenFromFront(results: seq<ReadResult>, unread: Bytes, r: ReadResult)
    requires Chunked(results) && |r.bytes| <= READ_CHUNK && r.bytes <= unread
    ensures Chunked(results + [r])
    ensures Total(results + [r]) + unread[|r.bytes|..] == Total(results) + unread
  {
    TotalSnoc(results, r);
    assert unread == r.bytes + unread[|r.bytes|..];
    assert Total(results) + (r.bytes + unread[|r.bytes|..]) == (Total(results) + r.bytes) + unread[|r.bytes|..];
  }

  /** One more read either stops the pump or lets it continue. */
  lemma OneMoreRead(results: seq<ReadResult>, lim: Limits)
    requires results != [] && Continues(results[..|results| - 1], lim)
    ensures var last := results[|results| - 1];
            && Total(results) == Total(results[..|results| - 1]) + last.bytes
            && (CompleteDrain(results, lim) <==> Stops(|Total(results)|, |last.bytes|, last.hr, lim))
            && (Continues(results, lim) <==> !Stops(|Total(results)|, |last.bytes|, last.hr, lim))
  {
  }

  // ---- FinishBodyRead as a function of the drained bytes ----

  /** The engine call that throws: the first one to do so, if it is made. */
  datatype Throw = NoThrow | AtAppend | AtProcess | AtIntervention | AtReport

  /** Everything outside the module that FinishBodyRead depends on. */
  datatype FinishEnv = FinishEnv(memoryOk: bool, insertOk: bool, throws: Throw)

  /** The bytes InsertEntityBody puts in front of the unread remainder: its length
      parameter is a DWORD. */
  function Reinserted(body: Bytes): Bytes {
    body[..|body| % DWORD_MODULUS]
  }

  predicate CastIsExact(size: nat) {
    size % DWORD_MODULUS == size
  }

  /** The prefix of the drained body the engine is given. */
  function Inspected(body: Bytes, cap: nat): Bytes {
    body[..Min(|body|, cap)]
  }

  /** How FinishBodyRead ends: the context, the stream the downstream handler reads,
      and the status handed back to IIS. */
  datatype Ending = Ending(ctx: Ctx, stream: Bytes, status: Status)

  /** The context once the engine has been fed. */
  function Fed(c: Ctx, body: Bytes, cap: nat): Ctx {
    if Inspected(body, cap) == [] then c else Log(c, AppendRequestBody(Inspected(body, cap)))
  }

  /** No engine call throws and no rule blocks. */
  predicate EngineAllows(rules: Rules, c: Ctx, body: Bytes, cap: nat, env: FinishEnv) {
    && (env.throws == NoThrow || env.throws == AtReport || (env.throws == AtAppend && Inspected(body, cap) == []))
    && Honoured(rules, Log(Fed(c, body, cap), ProcessRequestBody), true).None?
  }

  function Finish(rules: Rules, c: Ctx, body: Bytes, rest: Bytes, cap: nat, env: FinishEnv): Ending {
    if body != [] && env.memoryOk && !env.insertOk then
      Ending(c, rest, FinishRequest)
    else
      var stream := if body != [] && env.memoryOk then Reinserted(body) + rest else rest;
      var fed := Fed(c, body, cap);
      if Inspected(body, cap) != [] && env.throws == AtAppend then Ending(fed, stream, FinishRequest)
      else
        var processed := Log(fed, ProcessRequestBody);
        if env.throws == AtProcess then Ending(processed, stream, FinishRequest)
        else if env.throws == AtIntervention then
          Ending(Log(processed, TakeIntervention), stream, FinishRequest)
        else
          var honoured := Honoured(rules, processed, true);
          if env.throws == AtReport && honoured.Some? then
            Ending(Replaced(processed, ReplacementFor(honoured.value)), stream, FinishRequest)
          else
            var restoreFailed := body != [] && !env.memoryOk;
            Ending(Intervened(rules, processed, true), stream,
                   if honoured.Some? || restoreFailed then FinishRequest else Continue)
  }

  /** What checking for an intervention can make of a context, complete or cut short. */
  predicate Checked(rules: Rules, p: Ctx, after: Ctx) {
    || after == p || after == Log(p, TakeIntervention) || after == Intervened(rules, p, true)
    || (Honoured(rules, p, true).Some? && after == Replaced(p, ReplacementFor(Honoured(rules, p, true).value)))
  }

  /** The contexts the body phase can end with. */
  lemma FinishContexts(rules: Rules, c: Ctx, body: Bytes, rest: Bytes, cap: nat, env: FinishEnv)
    ensures var ctx, fed := Finish(rules, c, body, rest, cap, env).ctx, Fed(c, body, cap);
            if body != [] && env.memoryOk && !env.insertOk then ctx == c
            else ctx == fed || Checked(rules, Log(fed, ProcessRequestBody), ctx)
  {
  }

  // ---- Bounds ----

  /** A pump that has not stopped has at least one byte per read and has not reached
      the mark. */
  lemma {:induction false} ContinuesBounds(results: seq<ReadResult>, lim: Limits)
    requires ValidLimits(lim) && Continues(results, lim)
    ensures |results| <= |Total(results)| < Mark(lim)
  {
    if results != [] {
      ContinuesBounds(results[..|results| - 1], lim);
    }
  }

  /** However long the stream is, a drain issues at most Mark reads and accumulates
      less than one chunk beyond Mark. */
  lemma DrainBounds(results: seq<ReadResult>, lim: Limits)
    requires ValidLimits(lim) && CompleteDrain(results, lim) && Chunked(results)
    ensures |results| <= Mark(lim)
    ensures |Total(results)| <= Mark(lim) - 1 + READ_CHUNK
  {
    ContinuesBounds(results[..|results| - 1], lim);
  }

  /** n one-byte reads from the front of an entity. */
  function OneByteReads(entity: Bytes, n: nat): (results: seq<ReadResult>)
    requires n <= |entity|
    ensures |results| == n && Chunked(results)
  {
    seq(n, i requires 0 <= i < n => ReadResult([entity[i]], S_OK))
  }

  lemma {:induction false} OneByteReadsTotal(entity: Bytes, n: nat)
    requires n <= |entity|
    ensures Total(OneByteReads(entity, n)) == entity[..n]
  {
    if n > 0 {
      OneByteReadsTotal(entity, n - 1);
      var r := ReadResult([entity[n - 1]], S_OK);
      assert OneByteReads(entity, n) == OneByteReads(entity, n - 1) + [r];
      TotalSnoc(OneByteReads(entity, n - 1), r);
      assert entity[..n] == entity[..n - 1] + [entity[n - 1]];
    }
  }

  lemma {:induction false} OneByteReadsContinue(entity: Bytes, n: nat, lim: Limits)
    requires ValidLimits(lim) && n <= |entity|
    ensures n < Mark(lim) ==> Continues(OneByteReads(entity, n), lim)
    ensures n == Mark(lim) ==> CompleteDrain(OneByteReads(entity, n), lim)
  {
    if 0 < n <= Mark(lim) {
      OneByteReadsContinue(entity, n - 1, lim);
      OneByteReadsTotal(entity, n);
      var results := OneByteReads(entity, n);
      assert results[..|results| - 1] == OneByteReads(entity, n - 1);
      assert results[n - 1] == ReadResult([entity[n - 1]], S_OK);
      OneMoreRead(results, lim);
      OneByteStops(n, lim);
    }
  }

  lemma OneByteStops(size: nat, lim: Limits)
    requires ValidLimits(lim) && size >= 1
    ensures Stops(size, 1, S_OK, lim) <==> size >= Mark(lim)
  {
  }

  /** The slowest start followed by one full chunk: the largest drain there is. */
  lemma LargestDrain(lim: Limits) returns (results: seq<ReadResult>)
    requires ValidLimits(lim)
    ensures Chunked(results) && CompleteDrain(results, lim)
    ensures |Total(results)| == Mark(lim) - 1 + READ_CHUNK
  {
    var ones: Bytes := seq(Mark(lim) - 1, i => 0);
    var chunk := ReadResult(seq(READ_CHUNK, i => 0), S_OK);
    OneByteReadsContinue(ones, |ones|, lim);
    OneByteReadsTotal(ones, |ones|);
    var front := OneByteReads(ones, |ones|);
    results := front + [chunk];
    TotalSnoc(front, chunk);
    assert results[..|results| - 1] == front;
  }

  const LARGEST_EXACT_MARK: nat := 0xFFFF_0000

  /** The DWORD casts of the body size are exact in every drain if and only if the
      mark is at most 0xFFFF0000: clamping the cap to 0xFFFFFFFF does not suffice,
      because the last read may overshoot it. */
  lemma CastsExactIff(lim: Limits)
    requires ValidLimits(lim)
    ensures (forall results :: Chunked(results) && CompleteDrain(results, lim) ==> CastIsExact(|Total(results)|))
            <==> Mark(lim) <= 0xFFFF_0000
  {
    if Mark(lim) <= LARGEST_EXACT_MARK {
      forall results | Chunked(results) && CompleteDrain(results, lim)
        ensures CastIsExact(|Total(results)|)
      {
        DrainBounds(results, lim);
      }
    } else {
      var results := LargestDrain(lim);
      assert !CastIsExact(|Total(results)|);
    }
  }

  // ---- What the downstream handler receives ----

  /** CONTINUE is returned exactly when nothing had to be restored or the restoring
      worked, the engine did not throw, and it did not block. */
  lemma ContinueIff(rules: Rules, c: Ctx, body: Bytes, rest: Bytes, cap: nat, env: FinishEnv)
    ensures Finish(rules, c, body, rest, cap, env).status == Continue <==>
              && (body == [] || (env.memoryOk && env.insertOk))
              && EngineAllows(rules, c, body, cap, env)
    ensures Finish(rules, c, body, rest, cap, env).status != Pending
  {
  }

  /** When the body phase continues, the handler reads the drained bytes followed by
      the unread remainder, exactly when the drained size fits a DWORD. */
  lemma ContinueForwardsIff(rules: Rules, c: Ctx, body: Bytes, rest: Bytes, cap: nat, env: FinishEnv)
    requires Finish(rules, c, body, rest, cap, env).status == Continue
    ensures Finish(rules, c, body, rest, cap, env).stream == body + rest <==> CastIsExact(|body|)
  {
    assert body == [] ==> body + rest == rest;
    if CastIsExact(|body|) {
      assert Reinserted(body) == body;
    } else {
      assert |Reinserted(body) + rest| < |body + rest|;
    }
  }

  // ---- What the engine receives ----

  /** All request-body bytes handed to the engine. */
  function RequestBytes(trace: Trace): Bytes {
    if trace == [] then []
    else
      var front, last := RequestBytes(trace[..|trace| - 1]), trace[|trace| - 1];
      if last.AppendRequestBody? then front + last.requestBytes else front
  }

  lemma RequestBytesLog(c: Ctx, call: EngineCall)
    ensures RequestBytes(Log(c, call).trace) ==
              if call.AppendRequestBody? then RequestBytes(c.trace) + call.requestBytes else RequestBytes(c.trace)
  {
    assert Log(c, call).trace[..|c.trace|] == c.trace;
  }

  lemma RequestBytesFed(c: Ctx, body: Bytes, cap: nat)
    ensures RequestBytes(Fed(c, body, cap).trace) == RequestBytes(c.trace) + Inspected(body, cap)
  {
    RequestBytesLog(c, AppendRequestBody(Inspected(body, cap)));
  }

  /** Unless re-insertion failed, the engine was given exactly the inspected prefix. */
  lemma EngineReceivesInspected(rules: Rules, c: Ctx, body: Bytes, rest: Bytes, cap: nat, env: FinishEnv)
    ensures RequestBytes(Finish(rules, c, body, rest, cap, env).ctx.trace)
            == RequestBytes(c.trace)
               + if body != [] && env.memoryOk && !env.insertOk then [] else Inspected(body, cap)
  {
    FinishContexts(rules, c, body, rest, cap, env);
    if !(body != [] && env.memoryOk && !env.insertOk) {
      RequestBytesAfterFeeding(rules, c, body, cap, Finish(rules, c, body, rest, cap, env).ctx);
    }
  }

  lemma RequestBytesAfterFeeding(rules: Rules, c: Ctx, body: Bytes, cap: nat, after: Ctx)
    requires after == Fed(c, body, cap) || Checked(rules, Log(Fed(c, body, cap), ProcessRequestBody), after)
    ensures RequestBytes(after.trace) == RequestBytes(c.trace) + Inspected(body, cap)
  {
    var fed := Fed(c, body, cap);
    RequestBytesFed(c, body, cap);
    if after != fed {
      RequestBytesChecked(rules, Log(fed, ProcessRequestBody), after);
      RequestBytesLog(fed, ProcessRequestBody);
    }
  }

  lemma RequestBytesChecked(rules: Rules, p: Ctx, after: Ctx)
    requires Checked(rules, p, after)
    ensures RequestBytes(after.trace) == RequestBytes(p.trace)
  {
    RequestBytesLog(p, TakeIntervention);
    RequestBytesIntervened(rules, p, true);
    if Honoured(rules, p, true).Some? {
      RequestBytesReplaced(p, ReplacementFor(Honoured(rules, p, true).value));
    }
  }

  lemma RequestBytesReplaced(c: Ctx, r: Replacement)
    ensures RequestBytes(Replaced(c, r).trace) == RequestBytes(c.trace)
  {
    RequestBytesLog(c, TakeIntervention);
    RequestBytesLog(Log(c, TakeIntervention), UpdateStatusCode(r.reported));
  }

  lemma RequestBytesIntervened(rules: Rules, c: Ctx, canBlock: bool)
    ensures RequestBytes(Intervened(rules, c, canBlock).trace) == RequestBytes(c.trace)
  {
    if c.live {
      RequestBytesLog(c, TakeIntervention);
      if Honoured(rules, c, canBlock).Some? {
        var r := ReplacementFor(Honoured(rules, c, canBlock).value);
        RequestBytesReplaced(c, r);
        RequestBytesLog(Replaced(c, r), ProcessLogging);
      }
    }
  }

  /** The drain ended without a hard error, and an end-of-body signal came only at
      the true end of the entity. */
  predicate HonestEnd(entity: Bytes, results: seq<ReadResult>) {
    results != [] &&
    var last := results[|results| - 1];
    && (Failed(last.hr) ==> IsEofCode(last.hr))
    && (|last.bytes| == 0 || IsEofCode(last.hr) ==> Total(results) == entity)
  }

  /** Inspection does not depend on how the reads split the body, exactly when the
      declared length is unknown or covers everything up to the cap. */
  lemma InspectionIndependentOfChunkingIff(entity: Bytes, lim: Limits)
    requires ValidLimits(lim)
    ensures (forall results :: Feasible(entity, results) && CompleteDrain(results, lim) && HonestEnd(entity, results)
               ==> Inspected(Total(results), lim.cap) == entity[..Min(|entity|, lim.cap)])
            <==> lim.declared == 0 || lim.declared >= Min(|entity|, lim.cap)
  {
    if lim.declared == 0 || lim.declared >= Min(|entity|, lim.cap) {
      forall results | Feasible(entity, results) && CompleteDrain(results, lim) && HonestEnd(entity, results)
        ensures Inspected(Total(results), lim.cap) == entity[..Min(|entity|, lim.cap)]
      {
        assert Total(results) == entity[..|Total(results)|];
        assert |Total(results)| >= Min(|entity|, lim.cap);
      }
    } else {
      var results := OneByteReads(entity, lim.declared);
      OneByteReadsContinue(entity, lim.declared, lim);
      OneByteReadsTotal(entity, lim.declared);
      assert HonestEnd(entity, results);
      assert Feasible(entity, results) && CompleteDrain(results, lim);
      assert |Inspected(Total(results), lim.cap)| == lim.declared;
    }
  }
}
