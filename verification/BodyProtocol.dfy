/** The body reader under concurrency: every thread that runs module code for one
    request, interleaved action by action. Each action is one access to shared state
    or one call into IIS, except for three that group what only the owner of the body
    phase writes: EnterBody (the declared length, m_ReadBuf and the room in m_Body),
    ApplyStopConditions (the tests on m_Body and the store of BRS_DONE) and FinishBody
    (all of FinishBodyRead: allocation, InsertEntityBody, the engine calls, the
    replacement of the response). Other threads only test the transaction pointer and
    try the compare-and-swap. The state is not BRS_READ_PENDING before, during or
    after these actions, so the swap fails whenever it is tried, and a test made in
    their middle leads where one made before or after them leads. */
module BodyProtocol {
  import opened Common
  import opened Engine
  import opened StoredContext
  import opened BodyDrain

  /** Where a thread stands in BeginBodyRead, PumpBodyRead, ConsumeBodyChunk,
      FinishBodyRead or OnAsyncCompletion. The flag `own` only tells the environment
      whose operation completed; no action of the module looks at it. */
  datatype Pc =
    | Begin                                      // entering BeginBodyRead
    | Publish                                    // top of the pump loop
    | Issue                                      // BRS_READ_PENDING stored, read not yet issued
    | ReturnPending                              // the read pended; about to return PENDING
    | StoreIdle(read: nat, hr: HResult)          // the read completed inline
    | Append(read: nat, hr: HResult)             // entering ConsumeBodyChunk
    | Decide(read: nat, hr: HResult)             // chunk appended; stop conditions next
    | Finishing                                  // entering FinishBodyRead
    | TestTransaction(own: bool, read: nat, hr: HResult)  // entering OnAsyncCompletion
    | Claim(own: bool, read: nat, hr: HResult)   // about to compare-and-swap
    | Returned(status: Status)

  /** What is fixed for one request. `pipelineHeld` is the assumption the design rests
      on: while our read is pending, IIS runs no foreign operation of this request. */
  datatype Config = Config(
    rules: Rules,
    entity: Bytes,
    announced: bool,
    limits: Limits,
    context: Ctx,
    env: FinishEnv,
    pipelineHeld: bool)

  datatype Sys = Sys(
    threads: seq<Pc>,
    brs: BodyReadState,
    body: Bytes,                 // m_Body
    buffer: Bytes,               // what the last completed read left in m_ReadBuf
    rest: Bytes,                 // what ReadEntityBody would still deliver
    outstanding: nat,            // our pended reads that have not completed
    history: seq<ReadResult>,    // our completed reads
    issued: nat,                 // ReadEntityBody calls made
    ctx: Ctx,
    finishes: nat,               // FinishBodyRead runs
    threw: bool,
    final: Option<Status>)       // the status that ends RQ_BEGIN_REQUEST

  function Init(cfg: Config): Sys {
    Sys([Begin], BrsIdle, [], [], cfg.entity, 0, [], 0, cfg.context, 0, false, None)
  }

  datatype Action =
    | EnterBody(i: nat, throws: bool)
    | StorePending(i: nat)
    | ReadInline(i: nat, n: nat, result: HResult)
    | ReadPends(i: nat)
    | ReturnFromPump(i: nat)
    | TakeBackPending(i: nat)
    | AppendChunk(i: nat, throws: bool)
    | ApplyStopConditions(i: nat)
    | FinishBody(i: nat)
    | CompleteOwn(n: nat, result: HResult)       // IIS completes our pended read on a new thread
    | CompleteForeign(n: nat, result: HResult)   // IIS multicasts a foreign completion
    | CheckTransaction(i: nat)
    | CompareExchange(i: nat)

  predicate IsThread(s: Sys, i: nat) {
    i < |s.threads|
  }

  predicate Enabled(cfg: Config, s: Sys, a: Action) {
    match a
    case EnterBody(i, _) => IsThread(s, i) && s.threads[i].Begin?
    case StorePending(i) => IsThread(s, i) && s.threads[i].Publish?
    case ReadInline(i, n, _) => IsThread(s, i) && s.threads[i].Issue? && n <= READ_CHUNK && n <= |s.rest|
    case ReadPends(i) => IsThread(s, i) && s.threads[i].Issue?
    case ReturnFromPump(i) => IsThread(s, i) && s.threads[i].ReturnPending?
    case TakeBackPending(i) => IsThread(s, i) && s.threads[i].StoreIdle?
    case AppendChunk(i, _) => IsThread(s, i) && s.threads[i].Append?
    case ApplyStopConditions(i) => IsThread(s, i) && s.threads[i].Decide?
    case FinishBody(i) => IsThread(s, i) && s.threads[i].Finishing?
    case CompleteOwn(n, _) => s.outstanding > 0 && n <= READ_CHUNK && n <= |s.rest|
    case CompleteForeign(_, _) => true
    case CheckTransaction(i) => IsThread(s, i) && s.threads[i].TestTransaction?
    case CompareExchange(i) =>
      && IsThread(s, i) && s.threads[i].Claim?
      && (!s.threads[i].own && cfg.pipelineHeld ==> s.brs != BrsReadPending)
  }

  function Go(s: Sys, i: nat, pc: Pc): Sys
    requires IsThread(s, i)
  {
    s.(threads := s.threads[i := pc])
  }

  function Spawn(s: Sys, pc: Pc): Sys {
    s.(threads := s.threads + [pc])
  }

  /** A read completes: its bytes go from the front of the entity into m_ReadBuf. */
  function Deliver(s: Sys, n: nat, hr: HResult): Sys
    requires n <= |s.rest|
  {
    s.(buffer := s.rest[..n], rest := s.rest[n..], history := s.history + [ReadResult(s.rest[..n], hr)])
  }

  /** A thread leaves with the status that ends the notification. */
  function End(s: Sys, i: nat, status: Status): Sys
    requires IsThread(s, i)
  {
    Go(s, i, Returned(status)).(final := Some(status))
  }

  function Apply(cfg: Config, s: Sys, a: Action): Sys
    requires Enabled(cfg, s, a)
  {
    match a
    case EnterBody(i, throws) =>
      if !cfg.announced then Go(s, i, Finishing)
      else if throws then End(s, i, FinishRequest).(threw := true)
      else Go(s, i, Publish)
    case StorePending(i) => Go(s, i, Issue).(brs := BrsReadPending)
    case ReadInline(i, n, hr) => Go(Deliver(s, n, hr), i, StoreIdle(n, hr)).(issued := s.issued + 1)
    case ReadPends(i) => Go(s, i, ReturnPending).(outstanding := s.outstanding + 1, issued := s.issued + 1)
    case ReturnFromPump(i) => Go(s, i, Returned(Pending))
    case TakeBackPending(i) => Go(s, i, Append(s.threads[i].read, s.threads[i].hr)).(brs := BrsIdle)
    case AppendChunk(i, throws) =>
      var read, hr := s.threads[i].read, s.threads[i].hr;
      if throws && read > 0 then End(s, i, FinishRequest).(threw := true)
      else Go(s, i, Decide(read, hr)).(body := s.body + s.buffer[..Min(read, |s.buffer|)])
    case ApplyStopConditions(i) =>
      if Stops(|s.body|, s.threads[i].read, s.threads[i].hr, cfg.limits)
      then Go(s, i, Finishing).(brs := BrsDone)
      else Go(s, i, Publish)
    case FinishBody(i) =>
      var e := Finish(cfg.rules, s.ctx, s.body, s.rest, cfg.limits.cap, cfg.env);
      End(s, i, e.status).(ctx := e.ctx, rest := e.stream, finishes := s.finishes + 1)
    case CompleteOwn(n, hr) =>
      Spawn(Deliver(s, n, hr), TestTransaction(true, n, hr)).(outstanding := s.outstanding - 1)
    case CompleteForeign(n, hr) => Spawn(s, TestTransaction(false, n, hr))
    case CheckTransaction(i) =>
      var pc := s.threads[i];
      if !s.ctx.live then Go(s, i, Returned(Continue)) else Go(s, i, Claim(pc.own, pc.read, pc.hr))
    case CompareExchange(i) =>
      var pc := s.threads[i];
      if s.brs != BrsReadPending then Go(s, i, Returned(Continue))
      else Go(s, i, Append(pc.read, pc.hr)).(brs := BrsIdle)
  }

  /** The state a sequence of actions leads to, if every action was possible. */
  function Exec(cfg: Config, acts: seq<Action>): Option<Sys> {
    if acts == [] then Some(Init(cfg))
    else
      match Exec(cfg, acts[..|acts| - 1])
      case None => None
      case Some(s) =>
        var a := acts[|acts| - 1];
        if Enabled(cfg, s, a) then Some(Apply(cfg, s, a)) else None
  }

  /** The requests the properties are about: a live context, a cap the module can
      have, and the pipeline assumption. */
  predicate Proper(cfg: Config) {
    cfg.context.live && ValidLimits(cfg.limits) && cfg.pipelineHeld
  }

  // ---- Ownership ----

  /** The thread owns the body phase: it may go on to touch m_Body and m_ReadBuf. */
  predicate Active(pc: Pc) {
    match pc
    case ReturnPending => false
    case TestTransaction(own, _, _) => own
    case Claim(own, _, _) => own
    case Returned(_) => false
    case _ => true
  }

  /** The thread's next action prepares, reads or writes m_Body or m_ReadBuf, or hands
      m_ReadBuf to IIS. */
  predicate TouchesBody(pc: Pc) {
    pc.Begin? || pc.Issue? || pc.StoreIdle? || pc.Append? || pc.Decide? || pc.Finishing?
  }

  // ---- The invariant ----

  /** Between reads: everything delivered is in m_Body. */
  ghost predicate Open(cfg: Config, s: Sys) {
    && cfg.announced
    && s.body == Total(s.history) && s.body + s.rest == cfg.entity
    && Chunked(s.history) && Continues(s.history, cfg.limits)
  }

  /** The last delivered bytes are still in m_ReadBuf. */
  ghost predicate Carrying(cfg: Config, s: Sys, read: nat, hr: HResult) {
    && cfg.announced && s.issued == |s.history|
    && s.history != []
    && var front := s.history[..|s.history| - 1];
    && s.history[|s.history| - 1] == ReadResult(s.buffer, hr) && |s.buffer| == read
    && s.body == Total(front) && s.body + s.buffer + s.rest == cfg.entity
    && Chunked(s.history) && Continues(front, cfg.limits)
  }

  /** The last delivered bytes were just appended. */
  ghost predicate Absorbed(cfg: Config, s: Sys, read: nat, hr: HResult) {
    && cfg.announced && s.issued == |s.history|
    && s.history != []
    && var front := s.history[..|s.history| - 1];
    && s.history[|s.history| - 1].hr == hr && |s.history[|s.history| - 1].bytes| == read
    && s.body == Total(s.history) && s.body + s.rest == cfg.entity
    && Chunked(s.history) && Continues(front, cfg.limits)
  }

  /** The drain is over; only FinishBodyRead is left. */
  ghost predicate Ready(cfg: Config, s: Sys) {
    && s.issued == |s.history|
    && s.body == Total(s.history) && s.body + s.rest == cfg.entity
    && Chunked(s.history)
    && if cfg.announced then CompleteDrain(s.history, cfg.limits) else s.history == []
  }

  /** The read state when FinishBodyRead runs: BRS_DONE, or untouched when no body was
      announced. */
  function Rest(cfg: Config): BodyReadState {
    if cfg.announced then BrsDone else BrsIdle
  }

  /** What holds when the owner of the body phase stands at pc. */
  ghost predicate At(cfg: Config, s: Sys, pc: Pc) {
    match pc
    case Begin => s.brs == BrsIdle && s == Init(cfg).(threads := s.threads)
    case Publish => s.brs == BrsIdle && Open(cfg, s) && s.issued == |s.history|
    case Issue => s.brs == BrsReadPending && Open(cfg, s) && s.issued == |s.history|
    case StoreIdle(read, hr) => s.brs == BrsReadPending && Carrying(cfg, s, read, hr)
    case Append(read, hr) => s.brs == BrsIdle && Carrying(cfg, s, read, hr)
    case Decide(read, hr) => s.brs == BrsIdle && Absorbed(cfg, s, read, hr)
    case Finishing => s.brs == Rest(cfg) && Ready(cfg, s)
    case TestTransaction(_, read, hr) => s.brs == BrsReadPending && Carrying(cfg, s, read, hr)
    case Claim(_, read, hr) => s.brs == BrsReadPending && Carrying(cfg, s, read, hr)
    case _ => false
  }

  /** Everything that can be said about a request whose body phase has ended. */
  ghost predicate Over(cfg: Config, s: Sys) {
    && s.brs != BrsReadPending && s.outstanding == 0
    && s.issued == |s.history| && Chunked(s.history)
    && (forall i :: 0 <= i < |s.threads| ==> !Active(s.threads[i]))
    && if s.threw
       then
         && s.finishes == 0 && s.ctx == cfg.context && s.final == Some(FinishRequest)
         && (s.history != [] ==> Continues(s.history[..|s.history| - 1], cfg.limits))
       else
         && s.finishes == 1 && s.brs == Rest(cfg)
         && s.body == Total(s.history) && s.body <= cfg.entity
         && (if cfg.announced then CompleteDrain(s.history, cfg.limits) else s.history == [])
         && var e := Finish(cfg.rules, cfg.context, s.body, cfg.entity[|s.body|..], cfg.limits.cap, cfg.env);
            s.ctx == e.ctx && s.rest == e.stream && s.final == Some(e.status)
  }

  /** The request is still in its body phase. */
  ghost predicate Running(cfg: Config, s: Sys) {
    && s.ctx == cfg.context && s.finishes == 0 && !s.threw
    && s.outstanding <= 1
    && (s.outstanding == 1 ==>
          && (forall i :: 0 <= i < |s.threads| ==> !Active(s.threads[i]))
          && s.brs == BrsReadPending && Open(cfg, s) && s.issued == |s.history| + 1)
    && (s.outstanding == 0 ==> exists i :: 0 <= i < |s.threads| && Active(s.threads[i]))
    && (forall i, j :: (0 <= i < |s.threads| && 0 <= j < |s.threads|
                        && Active(s.threads[i]) && Active(s.threads[j])) ==> i == j)
    && (forall i :: 0 <= i < |s.threads| && Active(s.threads[i]) ==> At(cfg, s, s.threads[i]))
  }

  ghost predicate Inv(cfg: Config, s: Sys) {
    if s.final.Some? then Over(cfg, s) else Running(cfg, s)
  }

  // ---- Every action keeps the invariant ----

  lemma InvInit(cfg: Config)
    requires Proper(cfg)
    ensures Inv(cfg, Init(cfg))
  {
    assert Active(Init(cfg).threads[0]);
  }

  /** A thread of the body phase moves on within it. */
  lemma OwnerMoves(cfg: Config, s: Sys, s': Sys, i: nat, pc: Pc)
    requires Running(cfg, s) && s.final.None? && IsThread(s, i) && Active(s.threads[i])
    requires s'.threads == s.threads[i := pc] && Active(pc) && At(cfg, s', pc)
    requires s'.ctx == s.ctx && s'.finishes == s.finishes && s'.threw == s.threw && s'.outstanding == s.outstanding
    requires s'.final.None?
    ensures Inv(cfg, s')
  {
    assert s.outstanding == 0;
    assert Active(s'.threads[i]);
    assert forall j :: 0 <= j < |s.threads| && j != i ==> s'.threads[j] == s.threads[j];
  }

  /** A thread outside the body phase changes nothing but itself. */
  lemma BystanderMoves(cfg: Config, s: Sys, i: nat, pc: Pc)
    requires Inv(cfg, s) && IsThread(s, i) && !Active(s.threads[i]) && !Active(pc)
    ensures Inv(cfg, Go(s, i, pc))
  {
    var s' := Go(s, i, pc);
    assert forall j :: 0 <= j < |s'.threads| && j != i ==> s'.threads[j] == s.threads[j];
    if s.final.None? {
      forall j | 0 <= j < |s'.threads| && Active(s'.threads[j])
        ensures At(cfg, s', s'.threads[j])
      {
        AtIgnoresThreads(cfg, s, s', s.threads[j]);
      }
      if s.outstanding == 0 {
        var k :| 0 <= k < |s.threads| && Active(s.threads[k]);
        assert Active(s'.threads[k]);
      }
    }
  }

  lemma AtIgnoresThreads(cfg: Config, s: Sys, s': Sys, pc: Pc)
    requires At(cfg, s, pc) && s' == s.(threads := s'.threads)
    ensures At(cfg, s', pc)
  {
  }

  /** A new thread that does not own the body phase changes nothing else. */
  lemma BystanderArrives(cfg: Config, s: Sys, pc: Pc)
    requires Inv(cfg, s) && !Active(pc)
    ensures Inv(cfg, Spawn(s, pc))
  {
    var s' := Spawn(s, pc);
    assert forall j :: 0 <= j < |s.threads| ==> s'.threads[j] == s.threads[j];
    if s.final.None? {
      forall j | 0 <= j < |s'.threads| && Active(s'.threads[j])
        ensures At(cfg, s', s'.threads[j])
      {
        AtIgnoresThreads(cfg, s, s', s.threads[j]);
      }
      if s.outstanding == 0 {
        var k :| 0 <= k < |s.threads| && Active(s.threads[k]);
        assert Active(s'.threads[k]);
      }
    }
  }

  /** The owner leaves for good, ending the notification. */
  lemma OwnerEnds(cfg: Config, s: Sys, s': Sys, i: nat, status: Status)
    requires Running(cfg, s) && s.final.None? && IsThread(s, i) && Active(s.threads[i])
    requires s'.threads == s.threads[i := Returned(status)]
    ensures forall j :: 0 <= j < |s'.threads| ==> !Active(s'.threads[j])
    ensures s.outstanding == 0
  {
    assert forall j :: 0 <= j < |s.threads| && j != i ==> s'.threads[j] == s.threads[j];
  }

  lemma KeepsEnterBody(cfg: Config, s: Sys, a: Action)
    requires Proper(cfg) && Inv(cfg, s) && a.EnterBody? && Enabled(cfg, s, a)
    ensures Inv(cfg, Apply(cfg, s, a))
  {
    var s' := Apply(cfg, s, a);
    if s'.final.Some? {
      OwnerEnds(cfg, s, s', a.i, FinishRequest);
    } else {
      assert [] + cfg.entity == cfg.entity;
      OwnerMoves(cfg, s, s', a.i, s'.threads[a.i]);
    }
  }

  lemma KeepsReadInline(cfg: Config, s: Sys, a: Action)
    requires Proper(cfg) && Inv(cfg, s) && Enabled(cfg, s, a) && a.ReadInline?
    ensures Inv(cfg, Apply(cfg, s, a))
  {
    var s' := Apply(cfg, s, a);
    assert s.final.None? && At(cfg, s, Issue);
    DeliveredIsCarried(cfg, s, s', a.n, a.result);
    OwnerMoves(cfg, s, s', a.i, StoreIdle(a.n, a.result));
  }

  lemma KeepsReadPends(cfg: Config, s: Sys, a: Action)
    requires Proper(cfg) && Inv(cfg, s) && Enabled(cfg, s, a) && a.ReadPends?
    ensures Inv(cfg, Apply(cfg, s, a))
  {
    var s' := Apply(cfg, s, a);
    assert s.final.None? && At(cfg, s, Issue);
    OwnerLetsGo(cfg, s, s', a.i);
  }

  /** The owner hands the body phase to the read it issued. */
  lemma OwnerLetsGo(cfg: Config, s: Sys, s': Sys, i: nat)
    requires Running(cfg, s) && s.final.None? && IsThread(s, i) && s.threads[i] == Issue && At(cfg, s, Issue)
    requires s' == s.(threads := s.threads[i := ReturnPending], outstanding := s.outstanding + 1, issued := s.issued + 1)
    ensures Running(cfg, s')
  {
    assert Active(s.threads[i]);
    assert forall j :: 0 <= j < |s.threads| && j != i ==> s'.threads[j] == s.threads[j];
    assert Open(cfg, s');
  }

  /** Delivering the next read of an open drain leaves its bytes in the buffer. */
  lemma DeliveredIsCarried(cfg: Config, s: Sys, s': Sys, n: nat, hr: HResult)
    requires Open(cfg, s) && n <= READ_CHUNK && n <= |s.rest|
    requires var d := Deliver(s, n, hr);
             s'.body == d.body && s'.buffer == d.buffer && s'.rest == d.rest && s'.history == d.history
    requires s'.issued == |s'.history|
    ensures Carrying(cfg, s', n, hr)
  {
    assert s'.history == s.history + [ReadResult(s'.buffer, hr)];
    assert s'.history[..|s'.history| - 1] == s.history;
    assert |s'.buffer| == n;
    ChunkedSnoc(s.history, ReadResult(s'.buffer, hr));
    CutAnywhere(s.body, s.rest, n);
  }

  lemma ChunkedSnoc(results: seq<ReadResult>, r: ReadResult)
    requires Chunked(results) && |r.bytes| <= READ_CHUNK
    ensures Chunked(results + [r])
  {
  }

  lemma CutAnywhere(front: Bytes, back: Bytes, n: nat)
    requires n <= |back|
    ensures front + back[..n] + back[n..] == front + back
  {
    assert back[..n] + back[n..] == back;
  }

  lemma KeepsAppend(cfg: Config, s: Sys, a: Action)
    requires Proper(cfg) && Inv(cfg, s) && a.AppendChunk? && Enabled(cfg, s, a)
    ensures Inv(cfg, Apply(cfg, s, a))
  {
    var s' := Apply(cfg, s, a);
    var read, hr := s.threads[a.i].read, s.threads[a.i].hr;
    assert s.final.None? && At(cfg, s, s.threads[a.i]);
    if s'.final.Some? {
      OwnerEnds(cfg, s, s', a.i, FinishRequest);
    } else {
      assert s.buffer[..Min(read, |s.buffer|)] == s.buffer;
      assert Absorbed(cfg, s', read, hr);
      OwnerMoves(cfg, s, s', a.i, s'.threads[a.i]);
    }
  }

  lemma KeepsDecide(cfg: Config, s: Sys, a: Action)
    requires Proper(cfg) && Inv(cfg, s) && a.ApplyStopConditions? && Enabled(cfg, s, a)
    ensures Inv(cfg, Apply(cfg, s, a))
  {
    var s' := Apply(cfg, s, a);
    assert s.final.None? && At(cfg, s, s.threads[a.i]);
    OneMoreRead(s.history, cfg.limits);
    OwnerMoves(cfg, s, s', a.i, s'.threads[a.i]);
  }

  lemma KeepsFinish(cfg: Config, s: Sys, a: Action)
    requires Proper(cfg) && Inv(cfg, s) && a.FinishBody? && Enabled(cfg, s, a)
    ensures Inv(cfg, Apply(cfg, s, a))
  {
    var s' := Apply(cfg, s, a);
    assert s.final.None? && At(cfg, s, s.threads[a.i]);
    assert s.rest == cfg.entity[|s.body|..];
    OwnerEnds(cfg, s, s', a.i, s'.final.value);
  }

  lemma KeepsCompleteOwn(cfg: Config, s: Sys, a: Action)
    requires Proper(cfg) && Inv(cfg, s) && a.CompleteOwn? && Enabled(cfg, s, a)
    ensures Inv(cfg, Apply(cfg, s, a))
  {
    var s' := Apply(cfg, s, a);
    assert s.final.None?;
    DeliveredIsCarried(cfg, s, s', a.n, a.result);
    var k := |s.threads|;
    assert s'.threads[k] == TestTransaction(true, a.n, a.result);
    assert Active(s'.threads[k]);
    assert forall j :: 0 <= j < k ==> s'.threads[j] == s.threads[j];
  }

  lemma KeepsCompletion(cfg: Config, s: Sys, a: Action)
    requires Proper(cfg) && Inv(cfg, s) && Enabled(cfg, s, a) && (a.CheckTransaction? || a.CompareExchange?)
    ensures Inv(cfg, Apply(cfg, s, a))
  {
    var s' := Apply(cfg, s, a);
    var pc := s.threads[a.i];
    if pc.own {
      assert s.final.None? && At(cfg, s, pc);
      OwnerMoves(cfg, s, s', a.i, s'.threads[a.i]);
    } else {
      assert s' == Go(s, a.i, s'.threads[a.i]);
      BystanderMoves(cfg, s, a.i, s'.threads[a.i]);
    }
  }

  lemma ApplyKeepsInv(cfg: Config, s: Sys, a: Action)
    requires Proper(cfg) && Inv(cfg, s) && Enabled(cfg, s, a)
    ensures Inv(cfg, Apply(cfg, s, a))
  {
    match a
    case EnterBody(_, _) => KeepsEnterBody(cfg, s, a);
    case StorePending(i) => OwnerMoves(cfg, s, Apply(cfg, s, a), i, Issue);
    case ReadInline(_, _, _) => KeepsReadInline(cfg, s, a);
    case ReadPends(_) => KeepsReadPends(cfg, s, a);
    case ReturnFromPump(i) => BystanderMoves(cfg, s, i, Returned(Pending));
    case TakeBackPending(i) =>
      OwnerMoves(cfg, s, Apply(cfg, s, a), i, Append(s.threads[i].read, s.threads[i].hr));
    case AppendChunk(_, _) => KeepsAppend(cfg, s, a);
    case ApplyStopConditions(_) => KeepsDecide(cfg, s, a);
    case FinishBody(_) => KeepsFinish(cfg, s, a);
    case CompleteOwn(_, _) => KeepsCompleteOwn(cfg, s, a);
    case CompleteForeign(n, hr) => BystanderArrives(cfg, s, TestTransaction(false, n, hr));
    case CheckTransaction(_) => KeepsCompletion(cfg, s, a);
    case CompareExchange(_) => KeepsCompletion(cfg, s, a);
  }

  lemma {:induction false} ReachableInv(cfg: Config, acts: seq<Action>)
    requires Proper(cfg) && Exec(cfg, acts).Some?
    ensures Inv(cfg, Exec(cfg, acts).value)
  {
    if acts == [] {
      InvInit(cfg);
    } else {
      var front := acts[..|acts| - 1];
      ReachableInv(cfg, front);
      ApplyKeepsInv(cfg, Exec(cfg, front).value, acts[|acts| - 1]);
    }
  }
}
