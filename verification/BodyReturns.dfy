/** What every thread of the body reader hands back to IIS, and when reads are issued,
    over every interleaved run. */
module BodyReturns {
  import opened Common
  import opened StoredContext
  import opened BodyDrain
  import opened BodyProtocol
  import opened BodyTheorems

  // ---- The roles threads have played ----

  /** The thread's read pended. */
  predicate Issuer(acts: seq<Action>, i: nat) {
    exists k :: 0 <= k < |acts| && acts[k] == ReadPends(i)
  }

  /** The thread whose action gave the notification its final status. */
  ghost function Ender(cfg: Config, acts: seq<Action>): Option<nat>
    requires Exec(cfg, acts).Some?
  {
    if acts == [] then None
    else
      var front, a := acts[..|acts| - 1], acts[|acts| - 1];
      if Exec(cfg, front).value.final.None? && Exec(cfg, acts).value.final.Some? then Some(ActorOf(a))
      else Ender(cfg, front)
  }

  /** The thread that takes an action; completions are IIS's own. */
  function ActorOf(a: Action): nat {
    if a.CompleteOwn? || a.CompleteForeign? then 0 else a.i
  }

  /** A thread that has returned did so with the final status if it ended the
      notification, with PENDING if its read pended, and otherwise -- a completion that
      was not claimed -- with CONTINUE. */
  ghost predicate Returns(acts: seq<Action>, s: Sys, ender: Option<nat>) {
    && (s.final.Some? <==> ender.Some?)
    && (ender.Some? ==>
          && ender.value < |s.threads| && !Issuer(acts, ender.value)
          && s.threads[ender.value] == Returned(s.final.value))
    && s.final != Some(Pending)
    && (forall i: nat :: i < |s.threads| ==>
          (Issuer(acts, i) <==> s.threads[i] == ReturnPending || s.threads[i] == Returned(Pending)))
    && (forall i: nat :: Issuer(acts, i) ==> i < |s.threads|)
    && (forall i: nat :: i < |s.threads| && s.threads[i].Returned? && ender != Some(i) && !Issuer(acts, i) ==>
          s.threads[i] == Returned(Continue))
  }

  lemma IssuerSnoc(acts: seq<Action>, a: Action)
    ensures forall i: nat :: Issuer(acts + [a], i) <==> Issuer(acts, i) || a == ReadPends(i)
  {
    var all := acts + [a];
    assert all[|acts|] == a;
    forall i: nat
      ensures Issuer(all, i) <==> Issuer(acts, i) || a == ReadPends(i)
    {
      assert forall k :: 0 <= k < |acts| ==> all[k] == acts[k];
    }
  }

  /** A thread that moves while the notification has no final status. */
  lemma EarlyMove(cfg: Config, s: Sys, a: Action)
    requires Enabled(cfg, s, a) && !a.CompleteOwn? && !a.CompleteForeign? && s.final.None?
    ensures var pc, pc', s' := s.threads[a.i], Apply(cfg, s, a).threads[a.i], Apply(cfg, s, a);
            && !pc.Returned? && (pc'.ReturnPending? <==> a.ReadPends?)
            && (pc.ReturnPending? ==> pc' == Returned(Pending) && s'.final.None?)
            && (if s'.final.Some? then pc' == Returned(s'.final.value) && s'.final != Some(Pending)
                else pc'.Returned? ==> pc' == Returned(if pc.ReturnPending? then Pending else Continue))
  {
    if a.FinishBody? {
      ContinueIff(cfg.rules, s.ctx, s.body, s.rest, cfg.limits.cap, cfg.env);
    }
  }

  /** A thread that moves after that. */
  lemma LateMove(cfg: Config, s: Sys, a: Action)
    requires Proper(cfg) && Inv(cfg, s) && s.final.Some?
    requires Enabled(cfg, s, a) && !a.CompleteOwn? && !a.CompleteForeign?
    ensures var pc, pc', s' := s.threads[a.i], Apply(cfg, s, a).threads[a.i], Apply(cfg, s, a);
            && !pc.Returned? && !pc'.ReturnPending? && !a.ReadPends? && s'.final == s.final
            && (pc.ReturnPending? ==> pc' == Returned(Pending))
            && (pc'.Returned? ==> pc' == Returned(if pc.ReturnPending? then Pending else Continue))
  {
    assert !Active(s.threads[a.i]);
    BystanderStep(cfg, s, a);
  }

  lemma SpawnKeepsReturns(acts: seq<Action>, s: Sys, s': Sys, a: Action, pc: Pc, ender: Option<nat>)
    requires Returns(acts, s, ender) && !a.ReadPends?
    requires pc.TestTransaction? && s'.threads == s.threads + [pc] && s'.final == s.final
    ensures Returns(acts + [a], s', ender)
  {
    IssuerSnoc(acts, a);
  }

  lemma MoveKeepsReturns(acts: seq<Action>, s: Sys, s': Sys, a: Action, i: nat, pc: Pc, ender: Option<nat>)
    requires Returns(acts, s, ender) && i < |s.threads| && s'.threads == s.threads[i := pc]
    requires !s.threads[i].Returned? && (a.ReadPends? ==> a.i == i) && (pc.ReturnPending? <==> a.ReadPends?)
    requires s.threads[i].ReturnPending? ==> pc == Returned(Pending)
    requires s'.final == s.final && (pc.Returned? ==> pc == Returned(if s.threads[i].ReturnPending? then Pending else Continue))
    ensures Returns(acts + [a], s', ender)
  {
    IssuerSnoc(acts, a);
  }

  lemma EndKeepsReturns(acts: seq<Action>, s: Sys, s': Sys, a: Action, i: nat, ender: Option<nat>)
    requires Returns(acts, s, ender) && i < |s.threads| && s.final.None? && !a.ReadPends?
    requires s'.final.Some? && s'.final != Some(Pending)
    requires s'.threads == s.threads[i := Returned(s'.final.value)]
    requires !s.threads[i].Returned? && !s.threads[i].ReturnPending?
    ensures Returns(acts + [a], s', Some(i))
  {
    IssuerSnoc(acts, a);
  }

  lemma StepReturns(cfg: Config, acts: seq<Action>, s: Sys, a: Action, ender: Option<nat>)
    requires Proper(cfg) && Inv(cfg, s) && Enabled(cfg, s, a) && Returns(acts, s, ender)
    ensures var s' := Apply(cfg, s, a);
            Returns(acts + [a], s', if s.final.None? && s'.final.Some? then Some(ActorOf(a)) else ender)
  {
    var s' := Apply(cfg, s, a);
    if a.CompleteOwn? || a.CompleteForeign? {
      SpawnKeepsReturns(acts, s, s', a, TestTransaction(a.CompleteOwn?, a.n, a.result), ender);
    } else {
      ThreadMoves(cfg, s, a);
      if s.final.None? {
        EarlyMove(cfg, s, a);
      } else {
        LateMove(cfg, s, a);
      }
      if s.final.None? && s'.final.Some? {
        EndKeepsReturns(acts, s, s', a, a.i, ender);
      } else {
        MoveKeepsReturns(acts, s, s', a, a.i, s'.threads[a.i], ender);
      }
    }
  }

  lemma {:induction false} EveryThreadReturns(cfg: Config, acts: seq<Action>)
    requires Proper(cfg) && Exec(cfg, acts).Some?
    ensures Returns(acts, Exec(cfg, acts).value, Ender(cfg, acts))
  {
    if acts == [] {
      NothingReturned(cfg);
    } else {
      var front, a := acts[..|acts| - 1], acts[|acts| - 1];
      EveryThreadReturns(cfg, front);
      assert front + [a] == acts;
      OneMoreReturns(cfg, front, Exec(cfg, front).value, a);
    }
  }

  lemma OneMoreReturns(cfg: Config, acts: seq<Action>, s: Sys, a: Action)
    requires Proper(cfg) && Exec(cfg, acts) == Some(s) && Enabled(cfg, s, a)
    requires Returns(acts, s, Ender(cfg, acts))
    ensures Exec(cfg, acts + [a]) == Some(Apply(cfg, s, a))
    ensures Returns(acts + [a], Apply(cfg, s, a), Ender(cfg, acts + [a]))
  {
    ReachableInv(cfg, acts);
    ExecSnoc(cfg, acts, a);
    StepReturns(cfg, acts, s, a, Ender(cfg, acts));
    assert (acts + [a])[..|acts|] == acts;
  }

  lemma NothingReturned(cfg: Config)
    ensures Returns([], Init(cfg), None)
  {
  }

  /** Over every run: the thread that ends the notification returns the final status to
      IIS, which is never PENDING; a thread whose read pended returns PENDING; and any
      other thread that returns was a completion nobody claimed, and returns CONTINUE.
      So FINISH_REQUEST is returned by no thread but the one that ends it. */
  lemma StatusesReturned(cfg: Config, acts: seq<Action>, s: Sys, i: nat, status: Status)
    requires Proper(cfg) && Exec(cfg, acts) == Some(s)
    requires i < |s.threads| && s.threads[i] == Returned(status)
    ensures if Ender(cfg, acts) == Some(i) then s.final == Some(status) && status != Pending
            else status == if Issuer(acts, i) then Pending else Continue
  {
    EveryThreadReturns(cfg, acts);
  }

  /** Every exception-free run that ended has one thread that returned the status of the
      synchronous loop on the same read results. */
  lemma LoopStatusIsReturned(cfg: Config, acts: seq<Action>)
    requires Proper(cfg) && Exec(cfg, acts).Some?
    requires Exec(cfg, acts).value.final.Some? && !Exec(cfg, acts).value.threw
    ensures var s := Exec(cfg, acts).value;
            var loop := SyncBodyPhase(cfg, s.history);
            && Ender(cfg, acts).Some? && Ender(cfg, acts).value < |s.threads|
            && loop.Some? && loop.value.1.status != Pending
            && s.threads[Ender(cfg, acts).value] == Returned(loop.value.1.status)
  {
    EveryThreadReturns(cfg, acts);
    AsyncRefinesSync(cfg, acts);
  }

  // ---- When reads are issued ----

  /** A read that leaves the pump something to ask for: it delivered bytes, neither failed
      nor carried ERROR_HANDLE_EOF, and reached neither the declared length nor the cap. */
  predicate AsksOn(r: ReadResult, size: nat, lim: Limits) {
    && r.bytes != []
    && r.hr < 0x8000_0000 && r.hr % 0x1_0000 != 38
    && (lim.declared == 0 || size < lim.declared)
    && size < lim.cap
  }

  predicate AsksOnAt(results: seq<ReadResult>, k: nat, lim: Limits)
    requires k < |results|
  {
    AsksOn(results[k], |Total(results[..k + 1])|, lim)
  }

  ghost predicate AskOn(results: seq<ReadResult>, lim: Limits) {
    forall k: nat :: k < |results| ==> AsksOnAt(results, k, lim)
  }

  lemma SameAsksOnAt(results: seq<ReadResult>, k: nat, n: nat, lim: Limits)
    requires k < n <= |results|
    ensures AsksOnAt(results[..n], k, lim) == AsksOnAt(results, k, lim)
  {
    assert results[..n][..k + 1] == results[..k + 1];
  }

  lemma AskOnLast(results: seq<ReadResult>, lim: Limits)
    requires results != []
    ensures var last := |results| - 1;
            AskOn(results, lim) <==> AskOn(results[..last], lim) && AsksOn(results[last], |Total(results)|, lim)
  {
    var last := |results| - 1;
    assert results[..last + 1] == results;
    assert AsksOnAt(results, last, lim) == AsksOn(results[last], |Total(results)|, lim);
    forall k: nat | k < last
      ensures AsksOnAt(results[..last], k, lim) == AsksOnAt(results, k, lim)
    {
      SameAsksOnAt(results, k, last, lim);
    }
  }

  lemma {:induction false} ContinuesAskOn(results: seq<ReadResult>, lim: Limits)
    ensures Continues(results, lim) <==> AskOn(results, lim)
  {
    if results != [] {
      ContinuesAskOn(results[..|results| - 1], lim);
      AskOnLast(results, lim);
    }
  }

  /** Over every run: each read that another one follows left the pump something to ask
      for; and when a phase with a body ended without an exception, its last read did not.
      So no read follows one that failed, was empty, carried the end-of-file code or
      reached a limit, and the pump stops for no other reason. */
  lemma ReadsFollowOnlyOpenReads(cfg: Config, acts: seq<Action>, s: Sys)
    requires Proper(cfg) && Exec(cfg, acts) == Some(s)
    ensures s.issued - 1 <= |s.history| <= s.issued
    ensures s.issued > 0 ==> AskOn(s.history[..s.issued - 1], cfg.limits)
    ensures s.final.Some? && !s.threw && cfg.announced ==>
              s.history != [] && !AsksOn(s.history[|s.history| - 1], |Total(s.history)|, cfg.limits)
  {
    ReachableInv(cfg, acts);
    HistoryContinues(cfg, s);
    if s.issued > 0 {
      ContinuesAskOn(s.history[..s.issued - 1], cfg.limits);
    }
  }

  lemma HistoryContinues(cfg: Config, s: Sys)
    requires Proper(cfg) && Inv(cfg, s)
    ensures s.issued - 1 <= |s.history| <= s.issued
    ensures s.issued > 0 ==> Continues(s.history[..s.issued - 1], cfg.limits)
  {
    assert s.history[..|s.history|] == s.history;
    if s.final.None? && s.outstanding == 0 {
      var i :| 0 <= i < |s.threads| && Active(s.threads[i]);
      assert At(cfg, s, s.threads[i]);
      if s.history != [] && (s.threads[i].Publish? || s.threads[i].Issue?) {
        assert Continues(s.history[..|s.history| - 1], cfg.limits);
      }
    }
  }
}
