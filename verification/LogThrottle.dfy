/** The server-log throttle: a tumbling window of one second that lets one hundred
    messages through. */
module LogThrottle {
  import opened Common

  const WINDOW: nat := 1000
  const MAX_PER_WINDOW: nat := 100

  /** g_logWindowStart and g_logCount. */
  datatype Window = Window(start: nat, count: nat)

  const INITIAL := Window(0, 0)

  /** Ticks are unsigned 64-bit milliseconds and so is their difference. */
  function Elapsed(w: Window, now: nat): nat {
    (now - w.start) % QWORD_MODULUS
  }

  /** The window a message at `now` falls into. */
  function Rolled(w: Window, now: nat): Window {
    if Elapsed(w, now) >= WINDOW then Window(now, 0) else w
  }

  predicate Accepts(w: Window, now: nat) {
    Rolled(w, now).count < MAX_PER_WINDOW
  }

  function After(w: Window, now: nat): Window {
    var r := Rolled(w, now);
    if Accepts(w, now) then r.(count := r.count + 1) else r
  }

  class Throttle {
    var windowStart: nat
    var logCount: nat
    ghost var written: seq<string>

    constructor ()
      ensures Value() == INITIAL && written == []
    {
      windowStart, logCount := 0, 0;
      written := [];
    }

    function Value(): Window
      reads this
    {
      Window(windowStart, logCount)
    }

    /** The callback; `message` None is a null message. */
    method ServerLogCallback(message: Option<string>, now: nat)
      modifies this
      ensures message.None? ==> Value() == old(Value()) && written == old(written)
      ensures message.Some? ==> Value() == After(old(Value()), now)
      ensures message.Some? ==>
                written == if Accepts(old(Value()), now) then old(written) + [message.value] else old(written)
    {
      if message.None? {
        return;
      }
      if (now - windowStart) % QWORD_MODULUS >= WINDOW {
        windowStart := now;
        logCount := 0;
      }
      if logCount >= MAX_PER_WINDOW {
        return;
      }
      logCount := logCount + 1;
      written := written + [message.value];
    }
  }

  // ---- Any sequence of messages ----

  /** Ticks a machine can read: they fit 64 bits and never go back. */
  ghost predicate Clock(ticks: seq<nat>) {
    && (forall i :: 0 <= i < |ticks| ==> ticks[i] < QWORD_MODULUS)
    && (forall i, j :: 0 <= i < j < |ticks| ==> ticks[i] <= ticks[j])
  }

  function Play(ticks: seq<nat>): Window {
    if ticks == [] then INITIAL else After(Play(ticks[..|ticks| - 1]), ticks[|ticks| - 1])
  }

  /** Whether the i-th message is written. */
  predicate Written(ticks: seq<nat>, i: nat)
    requires i < |ticks|
  {
    Accepts(Play(ticks[..i]), ticks[i])
  }

  /** How many messages are written with a tick in [from, to]. */
  function WrittenIn(ticks: seq<nat>, from: nat, to: nat): nat {
    if ticks == [] then 0
    else
      var n := |ticks| - 1;
      WrittenIn(ticks[..n], from, to)
      + if from <= ticks[n] <= to && Accepts(Play(ticks[..n]), ticks[n]) then 1 else 0
  }

  function CeilSeconds(length: nat): nat {
    (length + WINDOW - 1) / WINDOW
  }

  /** The window began at or before the last tick and less than a second before it, and
      at most its quota was written in it. */
  lemma {:induction false} WindowIsCurrent(ticks: seq<nat>)
    requires Clock(ticks)
    ensures var w := Play(ticks);
            && w.count <= MAX_PER_WINDOW
            && (ticks == [] ==> w == INITIAL)
            && (ticks != [] ==> w.start <= ticks[|ticks| - 1] < w.start + WINDOW)
  {
    if ticks != [] {
      var front, now := ticks[..|ticks| - 1], ticks[|ticks| - 1];
      WindowIsCurrent(front);
      assert Elapsed(Play(front), now) == now - Play(front).start;
    }
  }

  /** Messages written since `from`, by the window the last of them fell into. */
  lemma {:induction false} WrittenSince(ticks: seq<nat>, from: nat, to: nat)
    requires Clock(ticks)
    requires ticks != [] ==> ticks[|ticks| - 1] <= to
    ensures var w, n := Play(ticks), WrittenIn(ticks, from, to);
            if w.start <= from then n <= w.count
            else n <= MAX_PER_WINDOW * (1 + (w.start - from - 1) / WINDOW) + w.count
    ensures ticks != [] && ticks[|ticks| - 1] < from ==> WrittenIn(ticks, from, to) == 0
  {
    if ticks != [] {
      var front, now := ticks[..|ticks| - 1], ticks[|ticks| - 1];
      WrittenSince(front, from, to);
      WindowIsCurrent(front);
      var w := Play(front);
      assert Elapsed(w, now) == now - w.start;
      if now - w.start >= WINDOW && w.start > from {
        assert (now - from - 1) / WINDOW >= 1 + (w.start - from - 1) / WINDOW;
      }
    }
  }

  /** Messages after the interval are not counted. */
  lemma {:induction false} LaterTicksDoNotCount(ticks: seq<nat>, from: nat, to: nat, k: nat)
    requires Clock(ticks) && k <= |ticks|
    requires forall i :: k <= i < |ticks| ==> ticks[i] > to
    ensures WrittenIn(ticks, from, to) == WrittenIn(ticks[..k], from, to)
  {
    if k == |ticks| {
      assert ticks[..k] == ticks;
    } else {
      LaterTicksDoNotCount(ticks[..|ticks| - 1], from, to, k);
      assert ticks[..|ticks| - 1][..k] == ticks[..k];
    }
  }

  lemma {:induction false} SplitAt(ticks: seq<nat>, to: nat) returns (k: nat)
    requires Clock(ticks)
    ensures k <= |ticks|
    ensures forall i :: 0 <= i < k ==> ticks[i] <= to
    ensures forall i :: k <= i < |ticks| ==> ticks[i] > to
  {
    if ticks == [] || ticks[|ticks| - 1] <= to {
      k := |ticks|;
    } else {
      k := SplitAt(ticks[..|ticks| - 1], to);
    }
  }

  /** Over any call sequence, at most 100 * (1 + ceil(length / 1000)) messages are
      written with ticks in any interval of that length. */
  lemma IntervalBound(ticks: seq<nat>, from: nat, length: nat)
    requires Clock(ticks)
    ensures WrittenIn(ticks, from, from + length) <= 100 * (1 + (length + 999) / 1000)
  {
    var k := SplitAt(ticks, from + length);
    LaterTicksDoNotCount(ticks, from, from + length, k);
    var seen := ticks[..k];
    WrittenSince(seen, from, from + length);
    WindowIsCurrent(seen);
    var w := Play(seen);
    if w.start > from {
      assert (w.start - from - 1) / WINDOW <= (length - 1) / WINDOW;
      assert (length - 1) / WINDOW + 1 == CeilSeconds(length);
    }
  }

  /** The window's count is exactly what was written since its start. */
  lemma {:induction false} CountSinceStart(ticks: seq<nat>, to: nat)
    requires Clock(ticks)
    requires ticks != [] ==> ticks[|ticks| - 1] <= to
    ensures WrittenIn(ticks, Play(ticks).start, to) == Play(ticks).count
  {
    if ticks != [] {
      var front, now := ticks[..|ticks| - 1], ticks[|ticks| - 1];
      CountSinceStart(front, to);
      WindowIsCurrent(front);
      var w := Play(front);
      assert Elapsed(w, now) == now - w.start;
      if now - w.start >= WINDOW {
        WrittenSince(front, now, to);
        assert front != [] ==> front[|front| - 1] < now;
        assert WrittenIn(front, now, to) == 0;
      }
    }
  }

  /** A message is dropped exactly when one hundred were already written since the
      start of the current window, which began less than a second before it. */
  lemma DroppedIff(ticks: seq<nat>, i: nat)
    requires Clock(ticks) && i < |ticks|
    ensures !Written(ticks, i) <==>
              var start := Play(ticks[..i]).start;
              && start <= ticks[i] < start + 1000
              && WrittenIn(ticks[..i], start, ticks[i]) == 100
  {
    var before := ticks[..i];
    WindowIsCurrent(before);
    CountSinceStart(before, ticks[i]);
    assert Elapsed(Play(before), ticks[i]) == ticks[i] - Play(before).start;
  }
}
