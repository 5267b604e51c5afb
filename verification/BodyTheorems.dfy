/** What every interleaved run of the body reader guarantees. */
module BodyTheorems {
  import opened Common
  import opened Engine
  import opened StoredContext
  import opened BodyDrain
  import opened BodyProtocol

  // ---- Ownership ----

  /** One read outstanding at most; one thread at most at m_Body or m_ReadBuf, and
      none while a read is outstanding. */
  ghost predicate Exclusive(s: Sys) {
    && s.outstanding <= 1
    && (forall i, j :: (0 <= i < |s.threads| && 0 <= j < |s.threads|
                        && TouchesBody(s.threads[i]) && TouchesBody(s.threads[j])) ==> i == j)
    && (s.outstanding > 0 ==> forall i :: 0 <= i < |s.threads| ==> !TouchesBody(s.threads[i]))
  }

  lemma ExclusiveOwnership(cfg: Config, acts: seq<Action>)
    requires Proper(cfg) && Exec(cfg, acts).Some?
    ensures Exclusive(Exec(cfg, acts).value)
  {
    ReachableInv(cfg, acts);
    assert forall pc :: TouchesBody(pc) ==> Active(pc);
  }

  lemma ExecSnoc(cfg: Config, acts: seq<Action>, a: Action)
    requires Exec(cfg, acts).Some? && Enabled(cfg, Exec(cfg, acts).value, a)
    ensures Exec(cfg, acts + [a]) == Some(Apply(cfg, Exec(cfg, acts).value, a))
  {
    assert (acts + [a])[..|acts|] == acts;
  }

  /** A foreign completion that is swapped in while our read is pending reaches
      m_Body while IIS still writes m_ReadBuf. */
  lemma ForeignCompletionIntrudes(cfg: Config) returns (acts: seq<Action>)
    requires cfg.context.live && cfg.announced && !cfg.pipelineHeld
    ensures Exec(cfg, acts).Some? && !Exclusive(Exec(cfg, acts).value)
  {
    acts := [];
    ExecSnoc(cfg, acts, EnterBody(0, false));
    acts := acts + [EnterBody(0, false)];
    ExecSnoc(cfg, acts, StorePending(0));
    acts := acts + [StorePending(0)];
    ExecSnoc(cfg, acts, ReadPends(0));
    acts := acts + [ReadPends(0)];
    ExecSnoc(cfg, acts, CompleteForeign(1, S_OK));
    acts := acts + [CompleteForeign(1, S_OK)];
    ExecSnoc(cfg, acts, CheckTransaction(1));
    acts := acts + [CheckTransaction(1)];
    ExecSnoc(cfg, acts, CompareExchange(1));
    acts := acts + [CompareExchange(1)];
    var s := Exec(cfg, acts).value;
    assert s.outstanding == 1 && TouchesBody(s.threads[1]);
  }

  /** Exclusive ownership over all interleavings rests exactly on the pipeline being
      held while our read is pending: the compare-and-swap alone cannot tell a
      foreign completion from our own. */
  lemma ExclusiveIffPipelineHeld(cfg: Config)
    requires cfg.context.live && cfg.announced && ValidLimits(cfg.limits)
    ensures (forall acts :: Exec(cfg, acts).Some? ==> Exclusive(Exec(cfg, acts).value)) <==> cfg.pipelineHeld
  {
    if cfg.pipelineHeld {
      forall acts | Exec(cfg, acts).Some?
        ensures Exclusive(Exec(cfg, acts).value)
      {
        ExclusiveOwnership(cfg, acts);
      }
    } else {
      var acts := ForeignCompletionIntrudes(cfg);
    }
  }

  // ---- No lost completion, no stall ----

  /** While the body phase runs it is owned by exactly one thread or by exactly one
      outstanding read, never by both. */
  lemma OwnedByOne(cfg: Config, acts: seq<Action>)
    requires Proper(cfg) && Exec(cfg, acts).Some? && Exec(cfg, acts).value.final.None?
    ensures var s := Exec(cfg, acts).value;
            if s.outstanding == 0
            then exists i :: 0 <= i < |s.threads| && Active(s.threads[i])
                             && forall j :: 0 <= j < |s.threads| && Active(s.threads[j]) ==> j == i
            else s.outstanding == 1 && forall j :: 0 <= j < |s.threads| ==> !Active(s.threads[j])
  {
    ReachableInv(cfg, acts);
    var s := Exec(cfg, acts).value;
    if s.outstanding == 0 {
      var i :| 0 <= i < |s.threads| && Active(s.threads[i]);
    }
  }

  /** Our completion always finds the transaction and BRS_READ_PENDING, so it is
      claimed and its chunk consumed; a foreign one changes nothing but the thread
      that carries it. */
  lemma ClaimsAreSound(cfg: Config, acts: seq<Action>, s: Sys, a: Action)
    requires Proper(cfg) && Exec(cfg, acts) == Some(s) && Enabled(cfg, s, a)
    requires a.CheckTransaction? || a.CompareExchange?
    ensures var pc := s.threads[a.i];
            if pc.own then
              && s.brs == BrsReadPending
              && Apply(cfg, s, a).threads[a.i]
                 == (if a.CheckTransaction? then Claim(true, pc.read, pc.hr) else Append(pc.read, pc.hr))
            else
              && Apply(cfg, s, a) == s.(threads := Apply(cfg, s, a).threads)
              && !Active(Apply(cfg, s, a).threads[a.i])
  {
    ReachableInv(cfg, acts);
    if s.threads[a.i].own {
      assert s.final.None? && At(cfg, s, s.threads[a.i]);
    }
  }

  /** While a read is outstanding the state is BRS_READ_PENDING. */
  lemma OutstandingIsPublished(cfg: Config, acts: seq<Action>)
    requires Proper(cfg) && Exec(cfg, acts).Some?
    ensures var s := Exec(cfg, acts).value; s.outstanding > 0 ==> s.brs == BrsReadPending && s.ctx.live
  {
    ReachableInv(cfg, acts);
  }

  /** An unfinished body phase can always go on without help from foreign completions. */
  lemma NeverStalls(cfg: Config, acts: seq<Action>) returns (a: Action)
    requires Proper(cfg) && Exec(cfg, acts).Some? && Exec(cfg, acts).value.final.None?
    ensures Enabled(cfg, Exec(cfg, acts).value, a) && !a.CompleteForeign?
    ensures !a.ReturnFromPump? && ((a.CheckTransaction? || a.CompareExchange?) ==> Exec(cfg, acts).value.threads[a.i].own)
  {
    ReachableInv(cfg, acts);
    var s := Exec(cfg, acts).value;
    if s.outstanding == 1 {
      return CompleteOwn(0, S_OK);
    }
    var i :| 0 <= i < |s.threads| && Active(s.threads[i]);
    match s.threads[i] {
      case Begin => return EnterBody(i, false);
      case Publish => return StorePending(i);
      case Issue => return ReadInline(i, 0, S_OK);
      case StoreIdle(_, _) => return TakeBackPending(i);
      case Append(_, _) => return AppendChunk(i, false);
      case Decide(_, _) => return ApplyStopConditions(i);
      case Finishing => return FinishBody(i);
      case TestTransaction(_, _, _) => return CheckTransaction(i);
      case Claim(_, _, _) => return CompareExchange(i);
    }
  }

  // ---- FinishBodyRead runs once ----

  lemma FinishRunsOnce(cfg: Config, acts: seq<Action>)
    requires Proper(cfg) && Exec(cfg, acts).Some?
    ensures var s := Exec(cfg, acts).value;
            && s.finishes <= 1
            && (s.finishes == 1 <==> s.final.Some? && !s.threw)
  {
    ReachableInv(cfg, acts);
  }

  lemma BystanderStep(cfg: Config, s: Sys, a: Action)
    requires Proper(cfg) && Enabled(cfg, s, a)
    requires forall i :: 0 <= i < |s.threads| ==> !Active(s.threads[i])
    requires s.outstanding == 0 && s.brs != BrsReadPending
    ensures Apply(cfg, s, a) == s.(threads := Apply(cfg, s, a).threads)
  {
    if !a.CompleteForeign? && !a.CompleteOwn? {
      assert !Active(s.threads[a.i]);
    }
  }

  lemma NothingMore(cfg: Config, acts: seq<Action>, s: Sys, a: Action)
    requires Proper(cfg) && Exec(cfg, acts) == Some(s) && Enabled(cfg, s, a) && s.final.Some?
    ensures Apply(cfg, s, a) == s.(threads := Apply(cfg, s, a).threads)
  {
    ReachableInv(cfg, acts);
    BystanderStep(cfg, s, a);
  }

  /** Once the notification has its final status, no continuation of the run issues a
      read, publishes BRS_READ_PENDING, runs FinishBodyRead, calls the engine or
      touches the body again. */
  lemma {:induction false} NothingAfterTheEnd(cfg: Config, acts: seq<Action>, more: seq<Action>)
    requires Proper(cfg) && Exec(cfg, acts).Some? && Exec(cfg, acts).value.final.Some?
    requires Exec(cfg, acts + more).Some?
    ensures var s, t := Exec(cfg, acts).value, Exec(cfg, acts + more).value;
            t == s.(threads := t.threads) && t.brs != BrsReadPending
  {
    ReachableInv(cfg, acts);
    if more == [] {
      assert acts + more == acts;
    } else {
      var front := more[..|more| - 1];
      assert (acts + more)[..|acts + more| - 1] == acts + front;
      NothingAfterTheEnd(cfg, acts, front);
      NothingMore(cfg, acts + front, Exec(cfg, acts + front).value, more[|more| - 1]);
    }
  }

  // ---- Refinement of the synchronous loop ----

  /** The fAsync=FALSE pump on a script of read results: the body it stops with and
      the reads it did not make, or None when the script ends before it stops. */
  function SyncLoop(lim: Limits, body: Bytes, script: seq<ReadResult>): Option<(Bytes, seq<ReadResult>)>
    decreases |script|
  {
    if script == [] then None
    else
      var body' := body + script[0].bytes;
      if Stops(|body'|, |script[0].bytes|, script[0].hr, lim) then Some((body', script[1..]))
      else SyncLoop(lim, body', script[1..])
  }

  /** The synchronous body phase on those read results. */
  function SyncBodyPhase(cfg: Config, script: seq<ReadResult>): Option<(Bytes, Ending)> {
    if !cfg.announced then
      if script == [] then Some(([], Finish(cfg.rules, cfg.context, [], cfg.entity, cfg.limits.cap, cfg.env))) else None
    else
      match SyncLoop(cfg.limits, [], script)
      case None => None
      case Some((body, left)) =>
        if left == [] && body <= cfg.entity
        then Some((body, Finish(cfg.rules, cfg.context, body, cfg.entity[|body|..], cfg.limits.cap, cfg.env)))
        else None
  }

  /** The synchronous loop stops at the last read of a script exactly when the script
      is a complete drain. */
  lemma {:induction false} SyncLoopDrains(lim: Limits, done: seq<ReadResult>, script: seq<ReadResult>)
    requires Continues(done, lim)
    ensures SyncLoop(lim, Total(done), script) == Some((Total(done + script), []))
            <==> CompleteDrain(done + script, lim)
    ensures SyncLoop(lim, Total(done), script).Some? && SyncLoop(lim, Total(done), script).value.1 == []
            ==> CompleteDrain(done + script, lim)
    decreases |script|
  {
    if script == [] {
      assert done + script == done;
    } else {
      var next := done + [script[0]];
      TotalSnoc(done, script[0]);
      assert next[..|next| - 1] == done;
      OneMoreRead(next, lim);
      assert done + script == next + script[1..];
      if Stops(|Total(next)|, |script[0].bytes|, script[0].hr, lim) {
        if script[1..] == [] {
          assert done + script == next;
        } else {
          StopsEarly(next, script[1..], lim);
        }
      } else {
        SyncLoopDrains(lim, next, script[1..]);
      }
    }
  }

  /** Reads after a stopping one cannot be part of a complete drain. */
  lemma {:induction false} StopsEarly(results: seq<ReadResult>, more: seq<ReadResult>, lim: Limits)
    requires !Continues(results, lim)
    ensures !Continues(results + more, lim)
    ensures more != [] ==> !CompleteDrain(results + more, lim)
    decreases |more|
  {
    if more == [] {
      assert results + more == results;
    } else {
      StopsEarly(results, more[..|more| - 1], lim);
      assert (results + more)[..|results + more| - 1] == results + more[..|more| - 1];
    }
  }

  /** Every exception-free interleaved run that ends does so with the m_Body, the
      engine calls, the downstream stream and the status of the synchronous loop on
      the same read results, whichever reads pended. */
  lemma AsyncRefinesSync(cfg: Config, acts: seq<Action>)
    requires Proper(cfg) && Exec(cfg, acts).Some?
    requires Exec(cfg, acts).value.final.Some? && !Exec(cfg, acts).value.threw
    ensures var s := Exec(cfg, acts).value;
            SyncBodyPhase(cfg, s.history) == Some((s.body, Ending(s.ctx, s.rest, s.final.value)))
  {
    ReachableInv(cfg, acts);
    var s := Exec(cfg, acts).value;
    if cfg.announced {
      SyncLoopDrains(cfg.limits, [], s.history);
      assert [] + s.history == s.history;
    } else {
      assert cfg.entity[0..] == cfg.entity;
    }
  }

  // ---- Conservation ----

  /** The bytes delivered into m_ReadBuf and not yet appended. */
  ghost function InFlight(s: Sys): Bytes {
    if exists i :: 0 <= i < |s.threads| && Active(s.threads[i]) && HoldsChunk(s.threads[i]) then s.buffer else []
  }

  predicate HoldsChunk(pc: Pc) {
    pc.StoreIdle? || pc.Append? || pc.TestTransaction? || pc.Claim?
  }

  /** Until the body phase ends no byte of the entity is lost, added or reordered. */
  lemma BytesConserved(cfg: Config, acts: seq<Action>)
    requires Proper(cfg) && Exec(cfg, acts).Some? && Exec(cfg, acts).value.final.None?
    ensures var s := Exec(cfg, acts).value; s.body + InFlight(s) + s.rest == cfg.entity
  {
    ReachableInv(cfg, acts);
    var s := Exec(cfg, acts).value;
    if s.outstanding == 0 {
      var i :| 0 <= i < |s.threads| && Active(s.threads[i]);
      AtConserves(cfg, s, s.threads[i]);
      assert InFlight(s) == if HoldsChunk(s.threads[i]) then s.buffer else [];
    } else {
      assert InFlight(s) == [];
      assert s.body + [] == s.body;
    }
  }

  lemma AtConserves(cfg: Config, s: Sys, pc: Pc)
    requires At(cfg, s, pc)
    ensures s.body + (if HoldsChunk(pc) then s.buffer else []) + s.rest == cfg.entity
  {
    assert s.body + [] == s.body;
    assert [] + cfg.entity == cfg.entity;
  }

  /** A body phase that ended without an exception is FinishBodyRead on what was drained. */
  lemma FinalOutcome(cfg: Config, acts: seq<Action>)
    requires Proper(cfg) && Exec(cfg, acts).Some? && Exec(cfg, acts).value.final.Some?
    ensures var s := Exec(cfg, acts).value;
            if s.threw then s.final == Some(FinishRequest) && s.ctx == cfg.context
            else
              && s.brs == Rest(cfg)
              && s.body <= cfg.entity
              && Finish(cfg.rules, cfg.context, s.body, cfg.entity[|s.body|..], cfg.limits.cap, cfg.env)
                 == Ending(s.ctx, s.rest, s.final.value)
  {
    ReachableInv(cfg, acts);
  }

  lemma ForwardedEntity(cfg: Config, s: Sys)
    requires s.body <= cfg.entity
    requires Finish(cfg.rules, cfg.context, s.body, cfg.entity[|s.body|..], cfg.limits.cap, cfg.env)
             == Ending(s.ctx, s.rest, Continue)
    ensures s.rest == cfg.entity <==> CastIsExact(|s.body|)
    ensures s.body == [] || (cfg.env.memoryOk && cfg.env.insertOk)
  {
    var unread := cfg.entity[|s.body|..];
    assert s.body + unread == cfg.entity;
    ContinueForwardsIff(cfg.rules, cfg.context, s.body, unread, cfg.limits.cap, cfg.env);
    ContinueIff(cfg.rules, cfg.context, s.body, unread, cfg.limits.cap, cfg.env);
  }

  lemma SmallSizesAreExact(size: nat, lim: Limits)
    requires size <= Mark(lim) - 1 + READ_CHUNK && Mark(lim) <= LARGEST_EXACT_MARK
    ensures CastIsExact(size)
  {
  }

  /** When the body phase lets the request continue, the downstream handler reads the
      whole original entity, exactly when the drained size fits a DWORD -- which it
      always does when the mark is at most 0xFFFF0000. Nothing that could not be
      restored ever continues. */
  lemma HandlerReadsWholeEntity(cfg: Config, acts: seq<Action>)
    requires Proper(cfg) && Exec(cfg, acts).Some? && Exec(cfg, acts).value.final == Some(Continue)
    ensures var s := Exec(cfg, acts).value;
            && (s.rest == cfg.entity <==> CastIsExact(|s.body|))
            && (Mark(cfg.limits) <= 0xFFFF_0000 ==> s.rest == cfg.entity)
            && (s.body == [] || (cfg.env.memoryOk && cfg.env.insertOk))
  {
    var s := Exec(cfg, acts).value;
    FinalOutcome(cfg, acts);
    ForwardedEntity(cfg, s);
    ReadsAreBounded(cfg, acts);
    if Mark(cfg.limits) <= LARGEST_EXACT_MARK {
      SmallSizesAreExact(|s.body|, cfg.limits);
    }
  }

  /** An engine that objects to nothing. */
  function Lenient(): Rules {
    Rules(t => None, t => EngineOn, true)
  }

  /** A request with this body, under an engine that objects to nothing. */
  function EasyConfig(entity: Bytes, lim: Limits): Config {
    Config(Lenient(), entity, true, lim, Installed(false), FinishEnv(true, true, NoThrow), true)
  }

  /** For every mark above 0xFFFF0000 some run lets the request continue and gives the
      handler another body. */
  lemma LargeMarkDamages(lim: Limits) returns (cfg: Config, acts: seq<Action>)
    requires ValidLimits(lim) && Mark(lim) > LARGEST_EXACT_MARK
    ensures Proper(cfg) && cfg.limits == lim && Exec(cfg, acts).Some?
    ensures var s := Exec(cfg, acts).value; s.final == Some(Continue) && s.rest != cfg.entity
  {
    var results := LargestDrain(lim);
    cfg := EasyConfig(Total(results), lim);
    acts := EveryDrainIsRealised(cfg, results, seq(|results|, i => false));
    ReachableInv(cfg, acts);
    var s := Exec(cfg, acts).value;
    FinalOutcome(cfg, acts);
    ContinueIff(cfg.rules, cfg.context, s.body, cfg.entity[|s.body|..], lim.cap, cfg.env);
    ForwardedEntity(cfg, s);
  }

  /** The guarantee is exact: for these limits the handler reads the whole entity after
      every run, on every entity, that lets the request continue, if and only if the mark
      is at most 0xFFFF0000. */
  lemma HandlerReadsWholeEntityIff(lim: Limits)
    requires ValidLimits(lim)
    ensures (forall cfg, acts ::
               Proper(cfg) && cfg.limits == lim && Exec(cfg, acts).Some? && Exec(cfg, acts).value.final == Some(Continue)
               ==> Exec(cfg, acts).value.rest == cfg.entity)
            <==> Mark(lim) <= 0xFFFF_0000
  {
    if Mark(lim) <= LARGEST_EXACT_MARK {
      forall cfg, acts |
        Proper(cfg) && cfg.limits == lim && Exec(cfg, acts).Some? && Exec(cfg, acts).value.final == Some(Continue)
        ensures Exec(cfg, acts).value.rest == cfg.entity
      {
        HandlerReadsWholeEntity(cfg, acts);
      }
    } else {
      var cfg, acts := LargeMarkDamages(lim);
    }
  }

  // ---- What is inspected ----

  /** If the drain ended honestly and the declared length is unknown or covers
      everything up to the cap, the engine is given exactly the first
      min(|entity|, cap) bytes, however the reads split them and whichever pended. */
  lemma EngineReceivesPrefix(cfg: Config, acts: seq<Action>, s: Sys)
    requires Proper(cfg) && Exec(cfg, acts) == Some(s)
    requires s.final.Some? && !s.threw
    requires if cfg.announced then HonestEnd(cfg.entity, s.history) else cfg.entity == []
    requires cfg.limits.declared == 0 || cfg.limits.declared >= Min(|cfg.entity|, cfg.limits.cap)
    requires cfg.env.memoryOk ==> cfg.env.insertOk
    ensures RequestBytes(s.ctx.trace)
            == RequestBytes(cfg.context.trace) + cfg.entity[..Min(|cfg.entity|, cfg.limits.cap)]
  {
    ReachableInv(cfg, acts);
    EngineReceivesInspected(cfg.rules, cfg.context, s.body, cfg.entity[|s.body|..], cfg.limits.cap, cfg.env);
    if cfg.announced {
      InspectionIndependentOfChunkingIff(cfg.entity, cfg.limits);
      assert Feasible(cfg.entity, s.history);
    }
  }

  // ---- Bounds and termination ----

  /** However long the entity, at most Mark reads are issued, and m_Body stays less
      than one chunk above Mark. */
  lemma ReadsAreBounded(cfg: Config, acts: seq<Action>)
    requires Proper(cfg) && Exec(cfg, acts).Some?
    ensures Exec(cfg, acts).value.issued <= Mark(cfg.limits)
    ensures !Exec(cfg, acts).value.threw ==> |Exec(cfg, acts).value.body| <= Mark(cfg.limits) - 1 + READ_CHUNK
  {
    ReachableInv(cfg, acts);
    BoundsFromInv(cfg, Exec(cfg, acts).value);
  }

  lemma BoundsFromInv(cfg: Config, s: Sys)
    requires Proper(cfg) && Inv(cfg, s)
    ensures s.issued <= Mark(cfg.limits)
    ensures !s.threw ==> |s.body| <= Mark(cfg.limits) - 1 + READ_CHUNK
  {
    if s.final.Some? {
      BoundsOfHistory(cfg, s);
    } else if s.outstanding == 1 {
      ContinuesBounds(s.history, cfg.limits);
    } else {
      var i :| 0 <= i < |s.threads| && Active(s.threads[i]);
      assert At(cfg, s, s.threads[i]);
      if s.threads[i].Publish? || s.threads[i].Issue? {
        ContinuesBounds(s.history, cfg.limits);
      } else if !s.threads[i].Begin? && cfg.announced {
        BoundsOfHistory(cfg, s);
      }
    }
  }

  lemma BoundsOfHistory(cfg: Config, s: Sys)
    requires Proper(cfg) && Chunked(s.history)
    requires s.history != [] ==> Continues(s.history[..|s.history| - 1], cfg.limits)
    ensures |s.history| <= Mark(cfg.limits)
    ensures |Total(s.history)| <= Mark(cfg.limits) - 1 + READ_CHUNK
    ensures s.history != [] ==> |Total(s.history[..|s.history| - 1])| <= |Total(s.history)|
  {
    if s.history != [] {
      ContinuesBounds(s.history[..|s.history| - 1], cfg.limits);
    }
  }

  /** Actions a thread can still take before it issues another read. */
  function Weight(pc: Pc): nat {
    match pc
    case Begin => 3
    case Publish => 2
    case Issue => 1
    case ReturnPending => 1
    case StoreIdle(_, _) => 5
    case Append(_, _) => 4
    case Decide(_, _) => 3
    case Finishing => 1
    case TestTransaction(own, _, _) => if own then 6 else 2
    case Claim(own, _, _) => if own then 5 else 1
    case Returned(_) => 0
  }

  function Weights(threads: seq<Pc>): nat {
    if threads == [] then 0 else Weights(threads[..|threads| - 1]) + Weight(threads[|threads| - 1])
  }

  /** What every action but a foreign completion uses up. */
  function Work(cfg: Config, s: Sys): int {
    9 * (Mark(cfg.limits) - s.issued) + 7 * s.outstanding + Weights(s.threads)
  }

  lemma {:induction false} WeightsMove(threads: seq<Pc>, i: nat, pc: Pc)
    requires i < |threads|
    ensures Weights(threads[i := pc]) == Weights(threads) - Weight(threads[i]) + Weight(pc)
  {
    var n := |threads| - 1;
    if i == n {
      assert threads[i := pc][..n] == threads[..n];
    } else {
      WeightsMove(threads[..n], i, pc);
      assert threads[i := pc][..n] == threads[..n][i := pc];
    }
  }

  lemma WeightsSpawn(threads: seq<Pc>, pc: Pc)
    ensures Weights(threads + [pc]) == Weights(threads) + Weight(pc)
  {
    assert (threads + [pc])[..|threads|] == threads;
  }

  lemma ThreadMoves(cfg: Config, s: Sys, a: Action)
    requires Proper(cfg) && Enabled(cfg, s, a) && !a.CompleteForeign? && !a.CompleteOwn?
    ensures var s' := Apply(cfg, s, a);
            && IsThread(s, a.i) && |s'.threads| == |s.threads|
            && s'.threads == s.threads[a.i := s'.threads[a.i]]
            && Weight(s.threads[a.i]) + 7 * s.outstanding - 9 * s.issued
               > Weight(s'.threads[a.i]) + 7 * s'.outstanding - 9 * s'.issued
  {
  }

  lemma WorkAfterMove(cfg: Config, s: Sys, s': Sys, i: nat, pc: Pc)
    requires IsThread(s, i) && s'.threads == s.threads[i := pc]
    requires Weight(s.threads[i]) + 7 * s.outstanding - 9 * s.issued > Weight(pc) + 7 * s'.outstanding - 9 * s'.issued
    ensures Work(cfg, s') < Work(cfg, s)
  {
    WeightsMove(s.threads, i, pc);
  }

  lemma WorkAfterSpawn(cfg: Config, s: Sys, s': Sys, pc: Pc)
    requires s'.threads == s.threads + [pc] && s'.issued == s.issued
    ensures Work(cfg, s') == Work(cfg, s) + Weight(pc) + 7 * (s'.outstanding - s.outstanding)
  {
    WeightsSpawn(s.threads, pc);
  }

  lemma WorkShrinks(cfg: Config, s: Sys, a: Action)
    requires Proper(cfg) && Enabled(cfg, s, a)
    ensures if a.CompleteForeign? then Work(cfg, Apply(cfg, s, a)) == Work(cfg, s) + 2
            else Work(cfg, Apply(cfg, s, a)) < Work(cfg, s)
  {
    var s' := Apply(cfg, s, a);
    if a.CompleteForeign? {
      WorkAfterSpawn(cfg, s, s', TestTransaction(false, a.n, a.result));
    } else if a.CompleteOwn? {
      WorkAfterSpawn(cfg, s, s', TestTransaction(true, a.n, a.result));
    } else {
      ThreadMoves(cfg, s, a);
      WorkAfterMove(cfg, s, s', a.i, s'.threads[a.i]);
    }
  }

  function ForeignCount(acts: seq<Action>): nat {
    if acts == [] then 0
    else ForeignCount(acts[..|acts| - 1]) + if acts[|acts| - 1].CompleteForeign? then 1 else 0
  }

  lemma {:induction false} WorkAccount(cfg: Config, acts: seq<Action>)
    requires Proper(cfg) && Exec(cfg, acts).Some?
    ensures Work(cfg, Exec(cfg, acts).value) + |acts| <= 9 * Mark(cfg.limits) + 3 + 3 * ForeignCount(acts)
  {
    if acts == [] {
      assert Weights([Begin]) == Weights([Begin][..0]) + 3;
    } else {
      var front := acts[..|acts| - 1];
      WorkAccount(cfg, front);
      WorkShrinks(cfg, Exec(cfg, front).value, acts[|acts| - 1]);
    }
  }

  /** Every run is finite: it has at most 9 * Mark + 3 actions beside three for each
      foreign completion, whatever the entity, the reads and the schedule. */
  lemma RunsAreFinite(cfg: Config, acts: seq<Action>)
    requires Proper(cfg) && Exec(cfg, acts).Some?
    ensures |acts| <= 9 * Mark(cfg.limits) + 3 + 3 * ForeignCount(acts)
  {
    WorkAccount(cfg, acts);
    ReadsAreBounded(cfg, acts);
  }

  /** The run `all` goes on from acts to a final status, without foreign completions. */
  ghost predicate EndsFrom(cfg: Config, acts: seq<Action>, all: seq<Action>) {
    && acts <= all && Exec(cfg, all).Some? && Exec(cfg, all).value.final.Some?
    && forall i :: |acts| <= i < |all| ==> !all[i].CompleteForeign?
  }

  lemma EndsFromStep(cfg: Config, acts: seq<Action>, a: Action, all: seq<Action>)
    requires EndsFrom(cfg, acts + [a], all) && !a.CompleteForeign?
    ensures EndsFrom(cfg, acts, all)
  {
    assert all[|acts|] == (acts + [a])[|acts|] == a;
  }

  lemma GoesOn(cfg: Config, acts: seq<Action>, s: Sys) returns (a: Action, s': Sys)
    requires Proper(cfg) && Exec(cfg, acts) == Some(s) && s.final.None?
    ensures !a.CompleteForeign? && Exec(cfg, acts + [a]) == Some(s') && 0 <= Work(cfg, s') < Work(cfg, s)
  {
    a := NeverStalls(cfg, acts);
    ExecSnoc(cfg, acts, a);
    s' := Apply(cfg, s, a);
    WorkShrinks(cfg, s, a);
    ReadsAreBounded(cfg, acts + [a]);
  }

  /** Every body phase can end: any run that has no final status yet goes on to one
      without foreign completions, in no more actions than the work that is left. */
  lemma {:induction false} BodyPhaseCanEnd(cfg: Config, acts: seq<Action>, s: Sys) returns (all: seq<Action>)
    requires Proper(cfg) && Exec(cfg, acts) == Some(s)
    ensures EndsFrom(cfg, acts, all)
    ensures |all| <= |acts| + if s.final.Some? then 0 else Work(cfg, s)
    decreases Work(cfg, s)
  {
    if s.final.Some? {
      all := acts;
    } else {
      var a, s' := GoesOn(cfg, acts, s);
      all := BodyPhaseCanEnd(cfg, acts + [a], s');
      EndsFromStep(cfg, acts, a, all);
    }
  }

  // ---- Every drain happens ----

  /** Which reads of a run pended. */
  function PendPattern(acts: seq<Action>): seq<bool> {
    if acts == [] then []
    else
      var front, a := PendPattern(acts[..|acts| - 1]), acts[|acts| - 1];
      if a.ReadPends? then front + [true] else if a.ReadInline? then front + [false] else front
  }

  /** The run leads to this state and made its reads pend in this pattern. */
  ghost predicate Reaches(cfg: Config, acts: seq<Action>, s: Sys, pends: seq<bool>) {
    Exec(cfg, acts) == Some(s) && PendPattern(acts) == pends
  }

  lemma Extend(cfg: Config, acts: seq<Action>, s: Sys, pends: seq<bool>, a: Action)
    returns (acts': seq<Action>, s': Sys, pends': seq<bool>)
    requires Reaches(cfg, acts, s, pends) && Enabled(cfg, s, a)
    ensures Reaches(cfg, acts', s', pends') && s' == Apply(cfg, s, a)
    ensures pends' == pends + if a.ReadPends? then [true] else if a.ReadInline? then [false] else []
  {
    acts' := acts + [a];
    assert acts'[..|acts|] == acts;
    s', pends' := Apply(cfg, s, a), PendPattern(acts');
  }

  /** The newest thread stands at pc, and the body phase is not over. */
  predicate NewestAt(s: Sys, pc: Pc) {
    s.threads != [] && s.threads[|s.threads| - 1] == pc && s.final.None? && !s.threw
  }

  /** A read that completes inline, until its chunk is handed to ConsumeBodyChunk. */
  lemma InlineRead(cfg: Config, acts: seq<Action>, s: Sys, pends: seq<bool>, n: nat, hr: HResult)
    returns (acts': seq<Action>, s': Sys)
    requires Reaches(cfg, acts, s, pends)
    requires NewestAt(s, Issue) && n <= |s.rest| && n <= READ_CHUNK
    ensures Reaches(cfg, acts', s', pends + [false])
    ensures NewestAt(s', Append(n, hr))
    ensures s' == Deliver(s, n, hr).(threads := s'.threads, issued := s'.issued, brs := s'.brs)
  {
    var t, pends' := |s.threads| - 1, pends;
    acts', s', pends' := Extend(cfg, acts, s, pends, ReadInline(t, n, hr));
    acts', s', pends' := Extend(cfg, acts', s', pends', TakeBackPending(t));
  }

  /** A read that pends, until its completion is claimed. The thread that issued it
      never gets to return here: the completion overtakes it. */
  lemma PendedRead(cfg: Config, acts: seq<Action>, s: Sys, pends: seq<bool>, n: nat, hr: HResult)
    returns (acts': seq<Action>, s': Sys)
    requires Reaches(cfg, acts, s, pends)
    requires NewestAt(s, Issue) && s.brs == BrsReadPending && s.ctx.live && s.outstanding == 0
    requires n <= |s.rest| && n <= READ_CHUNK
    ensures Reaches(cfg, acts', s', pends + [true])
    ensures NewestAt(s', Append(n, hr))
    ensures s' == Deliver(s, n, hr).(threads := s'.threads, issued := s'.issued, brs := s'.brs)
  {
    var t, pends' := |s.threads|, pends;
    acts', s', pends' := Extend(cfg, acts, s, pends, ReadPends(t - 1));
    acts', s', pends' := Extend(cfg, acts', s', pends', CompleteOwn(n, hr));
    acts', s', pends' := Extend(cfg, acts', s', pends', CheckTransaction(t));
    acts', s', pends' := Extend(cfg, acts', s', pends', CompareExchange(t));
  }

  /** One read, pended or inline as asked. */
  lemma OneRead(cfg: Config, acts: seq<Action>, s: Sys, pends: seq<bool>, n: nat, hr: HResult, pend: bool)
    returns (acts': seq<Action>, s': Sys)
    requires Reaches(cfg, acts, s, pends)
    requires NewestAt(s, Publish) && s.ctx.live && s.outstanding == 0 && n <= |s.rest| && n <= READ_CHUNK
    ensures Reaches(cfg, acts', s', pends + [pend])
    ensures NewestAt(s', Append(n, hr))
    ensures s' == Deliver(s, n, hr).(threads := s'.threads, issued := s'.issued, brs := s'.brs)
  {
    var pends';
    acts', s', pends' := Extend(cfg, acts, s, pends, StorePending(|s.threads| - 1));
    assert pends' == pends;
    if pend {
      acts', s' := PendedRead(cfg, acts', s', pends, n, hr);
    } else {
      acts', s' := InlineRead(cfg, acts', s', pends, n, hr);
    }
  }

  /** A claimed chunk is appended and the stop conditions decide. */
  lemma OneDecision(cfg: Config, acts: seq<Action>, s: Sys, pends: seq<bool>, read: nat, hr: HResult)
    returns (acts': seq<Action>, s': Sys)
    requires Reaches(cfg, acts, s, pends)
    requires NewestAt(s, Append(read, hr)) && |s.buffer| == read
    ensures Reaches(cfg, acts', s', pends)
    ensures && s'.body == s.body + s.buffer
            && s'.history == s.history && s'.rest == s.rest && s'.ctx == s.ctx && s'.outstanding == s.outstanding
            && NewestAt(s', if Stops(|s'.body|, read, hr, cfg.limits) then Finishing else Publish)
  {
    var t := |s.threads| - 1;
    assert s.buffer[..Min(read, |s.buffer|)] == s.buffer;
    var pends';
    acts', s', pends' := Extend(cfg, acts, s, pends, AppendChunk(t, false));
    acts', s', pends' := Extend(cfg, acts', s', pends', ApplyStopConditions(t));
  }

  /** What the k-th read of a drain takes: the next bytes of the entity. It stops the
      pump only if it is the last. */
  lemma KthRead(entity: Bytes, results: seq<ReadResult>, k: nat, lim: Limits)
    requires Feasible(entity, results) && CompleteDrain(results, lim) && 1 <= k <= |results|
    ensures var before, after, r := Total(results[..k - 1]), Total(results[..k]), results[k - 1];
            && results[..k] == results[..k - 1] + [r]
            && after == before + r.bytes && |r.bytes| <= READ_CHUNK && |after| <= |entity|
            && |r.bytes| <= |entity[|before|..]| && entity[|before|..][..|r.bytes|] == r.bytes
            && entity[|before|..][|r.bytes|..] == entity[|after|..]
            && (Stops(|after|, |r.bytes|, r.hr, lim) <==> k == |results|)
  {
    var r := results[k - 1];
    assert results[..k] == results[..k - 1] + [r];
    TotalSnoc(results[..k - 1], r);
    TotalIsPrefix(results, k);
    ContinuesPrefix(results, k, lim);
    var after := Total(results[..k]);
    assert after == entity[..|after|];
  }

  /** The state after the first k of these reads of the entity. */
  ghost predicate Consumed(cfg: Config, s: Sys, results: seq<ReadResult>, k: nat)
    requires k <= |results|
  {
    && s.history == results[..k] && s.ctx == cfg.context && s.outstanding == 0
    && s.body == Total(results[..k])
    && |s.body| <= |cfg.entity| && s.rest == cfg.entity[|s.body|..]
    && NewestAt(s, if k == |results| then Finishing else Publish)
  }

  lemma RealiseStart(cfg: Config, results: seq<ReadResult>) returns (acts: seq<Action>, s: Sys)
    requires cfg.announced && results != []
    ensures Reaches(cfg, acts, s, []) && Consumed(cfg, s, results, 0)
  {
    var pends;
    acts, s, pends := Extend(cfg, [], Init(cfg), [], EnterBody(0, false));
  }

  lemma RealiseNext(cfg: Config, acts: seq<Action>, s: Sys, pends: seq<bool>,
                    results: seq<ReadResult>, k: nat)
    returns (acts': seq<Action>, s': Sys)
    requires cfg.context.live && 1 <= k <= |results| == |pends|
    requires Feasible(cfg.entity, results) && CompleteDrain(results, cfg.limits)
    requires Reaches(cfg, acts, s, pends[..k - 1]) && Consumed(cfg, s, results, k - 1)
    ensures Reaches(cfg, acts', s', pends[..k]) && Consumed(cfg, s', results, k)
  {
    var r := results[k - 1];
    KthRead(cfg.entity, results, k, cfg.limits);
    assert pends[..k] == pends[..k - 1] + [pends[k - 1]];
    acts', s' := OneRead(cfg, acts, s, pends[..k - 1], |r.bytes|, r.hr, pends[k - 1]);
    acts', s' := OneDecision(cfg, acts', s', pends[..k], |r.bytes|, r.hr);
  }

  /** The first k reads of a drain, each pended or inline as asked. */
  lemma {:induction false} RealisePrefix(cfg: Config, results: seq<ReadResult>, pends: seq<bool>, k: nat)
    returns (acts: seq<Action>, s: Sys)
    requires Proper(cfg) && cfg.announced && k <= |results| == |pends|
    requires Feasible(cfg.entity, results) && CompleteDrain(results, cfg.limits)
    ensures Reaches(cfg, acts, s, pends[..k]) && Consumed(cfg, s, results, k)
  {
    if k == 0 {
      acts, s := RealiseStart(cfg, results);
      assert pends[..0] == [];
    } else {
      acts, s := RealisePrefix(cfg, results, pends, k - 1);
      acts, s := RealiseNext(cfg, acts, s, pends, results, k);
    }
  }

  lemma {:induction false} TotalIsPrefix(results: seq<ReadResult>, k: nat)
    requires k <= |results|
    ensures Total(results[..k]) <= Total(results)
  {
    if k == |results| {
      assert results[..k] == results;
    } else {
      var front := results[..|results| - 1];
      TotalIsPrefix(front, k);
      assert front[..k] == results[..k];
    }
  }

  /** Inside a complete drain only the last read stops. */
  lemma {:induction false} ContinuesPrefix(results: seq<ReadResult>, k: nat, lim: Limits)
    requires CompleteDrain(results, lim) && 1 <= k <= |results|
    ensures Stops(|Total(results[..k])|, |results[k - 1].bytes|, results[k - 1].hr, lim) <==> k == |results|
    ensures Continues(results[..k - 1], lim)
  {
    if k == |results| {
      assert results[..k] == results;
    } else {
      ContinuesDown(results[..|results| - 1], k, lim);
      assert results[..|results| - 1][..k] == results[..k];
      assert results[..k][..k - 1] == results[..k - 1];
    }
  }

  lemma {:induction false} ContinuesDown(results: seq<ReadResult>, k: nat, lim: Limits)
    requires Continues(results, lim) && k <= |results|
    ensures Continues(results[..k], lim)
  {
    if k == |results| {
      assert results[..k] == results;
    } else {
      ContinuesDown(results[..|results| - 1], k, lim);
      assert results[..|results| - 1][..k] == results[..k];
    }
  }

  /** The converse of the refinement: every synchronous drain of the entity is the
      outcome of some interleaved run, for every choice of the reads that pend. */
  lemma EveryDrainIsRealised(cfg: Config, results: seq<ReadResult>, pends: seq<bool>) returns (acts: seq<Action>)
    requires Proper(cfg) && cfg.announced && |pends| == |results|
    requires Feasible(cfg.entity, results) && CompleteDrain(results, cfg.limits)
    ensures Exec(cfg, acts).Some? && PendPattern(acts) == pends
    ensures var s := Exec(cfg, acts).value; s.history == results && s.final.Some? && !s.threw
  {
    var s;
    acts, s := RealisePrefix(cfg, results, pends, |results|);
    assert results[..|results|] == results && pends[..|pends|] == pends;
    var pends';
    acts, s, pends' := Extend(cfg, acts, s, pends, FinishBody(|s.threads| - 1));
  }
}
