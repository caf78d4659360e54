/**
  The five-second Select hold: a timed one-shot machine, and the exact condition under which it
  fires, over every history of button samples.
 */
module MenuActivation {

  const HOLD_MS: nat := 5000
  const UINT64_RANGE: nat := 0x1_0000_0000_0000_0000

  type Millis = t: nat | t < UINT64_RANGE witness 0

  datatype Sample = Sample(down: bool, now: Millis)

  datatype Value = Value(pressedSince: Millis, lastTimestamp: Millis, pressed: bool, latched: bool)

  const RESET: Value := Value(0, 0, false, false)

  /** Unsigned 64-bit subtraction. */
  function Minus(a: Millis, b: Millis): Millis { if b <= a then a - b else a + UINT64_RANGE - b }

  /** The start of the hold interval when a pressed sample arrives. */
  function Since(v: Value, now: Millis): Millis {
    if !v.pressed || (now < v.lastTimestamp && !v.latched) then now else v.pressedSince
  }

  /** One sample: the state it leaves, and whether it triggers. */
  function Next(v: Value, s: Sample): (Value, bool) {
    if !s.down then (Value(0, s.now, false, false), false)
    else
      var since := Since(v, s.now);
      var latched := v.pressed && v.latched;
      var triggers := !latched && Minus(s.now, since) >= HOLD_MS;
      (Value(since, s.now, true, latched || triggers), triggers)
  }

  class State {
    var pressedSinceMs: Millis
    var lastTimestampMs: Millis
    var pressed: bool
    var latched: bool

    function Current(): Value
      reads this
    {
      Value(pressedSinceMs, lastTimestampMs, pressed, latched)
    }

    constructor ()
      ensures Current() == RESET
    {
      pressedSinceMs, lastTimestampMs, pressed, latched := 0, 0, false, false;
    }

    /** Models `vc_menu_activation_reset`. */
    method Reset()
      modifies this
      ensures Current() == RESET
    {
      pressedSinceMs, lastTimestampMs, pressed, latched := 0, 0, false, false;
    }

    /** Models `vc_menu_activation_update`. */
    method Update(selectDown: bool, nowMs: Millis) returns (triggered: bool)
      modifies this
      ensures (Current(), triggered) == Next(old(Current()), Sample(selectDown, nowMs))
    {
      if !selectDown {
        pressedSinceMs, lastTimestampMs, pressed, latched := 0, nowMs, false, false;
        return false;
      }
      if !pressed {
        pressedSinceMs, pressed, latched := nowMs, true, false;
      } else if nowMs < lastTimestampMs && !latched {
        pressedSinceMs := nowMs;
      }
      lastTimestampMs := nowMs;
      if !latched && Minus(nowMs, pressedSinceMs) >= HOLD_MS {
        latched := true;
        return true;
      }
      return false;
    }
  }

  // ----- histories --------------------------------------------------------------------------

  /** The state after the first `n` samples. */
  function After(h: seq<Sample>, n: nat): Value
    requires n <= |h|
  {
    if n == 0 then RESET else Next(After(h, n - 1), h[n - 1]).0
  }

  /** Whether the machine triggers at sample `j`. */
  predicate Fires(h: seq<Sample>, j: nat)
    requires j < |h|
  {
    Next(After(h, j), h[j]).1
  }

  // ----- what a history says on its own -----------------------------------------------------

  /** The first sample of the maximal pressed run that contains `j`. */
  function RunStart(h: seq<Sample>, j: nat): (r: nat)
    requires j < |h|
    ensures r <= j
  {
    if j > 0 && h[j - 1].down then RunStart(h, j - 1) else j
  }

  /** The clock went backwards between two pressed samples. */
  predicate IsRollback(h: seq<Sample>, i: nat)
    requires i < |h|
  {
    i > 0 && h[i].down && h[i - 1].down && h[i].now < h[i - 1].now
  }

  /** Where the hold interval that reaches `j` starts: the run's start or its latest clock rollback. */
  function HoldStart(h: seq<Sample>, j: nat): (b: nat)
    requires j < |h|
    ensures RunStart(h, j) <= b <= j
  {
    if RunStart(h, j) == j || IsRollback(h, j) then j else HoldStart(h, j - 1)
  }

  function Held(h: seq<Sample>, j: nat): int
    requires j < |h|
  {
    h[j].now - h[HoldStart(h, j)].now
  }

  /** Sample `j` is the first of its pressed run at which the button has been held long enough. */
  predicate Triggers(h: seq<Sample>, j: nat)
    requires j < |h|
  {
    && h[j].down && Held(h, j) >= 5000
    && forall i :: RunStart(h, j) <= i < j ==> Held(h, i) < 5000
  }

  lemma {:induction false} RunIsPressed(h: seq<Sample>, j: nat)
    requires j < |h| && h[j].down
    ensures var r := RunStart(h, j);
            && (r == 0 || !h[r - 1].down)
            && forall i :: r <= i <= j ==> h[i].down && RunStart(h, i) == r
    decreases j
  {
    if j > 0 && h[j - 1].down { RunIsPressed(h, j - 1); }
  }

  /** The hold start is the last rollback of the run so far, or its start; the clock has not run backwards since. */
  lemma {:induction false} HoldStartIsLatest(h: seq<Sample>, j: nat)
    requires j < |h| && h[j].down
    ensures var b := HoldStart(h, j);
            && (b == RunStart(h, j) || IsRollback(h, b))
            && (forall i :: b < i <= j ==> !IsRollback(h, i))
            && h[b].now <= h[j].now
    decreases j
  {
    if RunStart(h, j) != j && !IsRollback(h, j) {
      RunIsPressed(h, j);
      HoldStartIsLatest(h, j - 1);
    }
  }

  /** Some sample of the run up to `j` has reached the hold time. */
  ghost predicate Reached(h: seq<Sample>, j: nat)
    requires j < |h|
  {
    exists i :: RunStart(h, j) <= i <= j && Held(h, i) >= HOLD_MS
  }

  lemma ReachedNext(h: seq<Sample>, j: nat)
    requires j < |h| && h[j].down
    ensures Reached(h, j) <==>
            Held(h, j) >= HOLD_MS || (RunStart(h, j) != j && Reached(h, j - 1))
  {
    RunIsPressed(h, j);
    if RunStart(h, j) != j && Reached(h, j - 1) {
      var i :| RunStart(h, j - 1) <= i <= j - 1 && Held(h, i) >= HOLD_MS;
      assert RunStart(h, j) <= i <= j && Held(h, i) >= HOLD_MS;
    }
  }

  lemma HoldStartNext(h: seq<Sample>, j: nat)
    requires j < |h| && h[j].down
    ensures RunStart(h, j) == j <==> j == 0 || !h[j - 1].down
    ensures HoldStart(h, j) ==
            if j == 0 || !h[j - 1].down || h[j].now < h[j - 1].now then j else HoldStart(h, j - 1)
  {
  }

  /** The machine's state, in terms of the history alone. */
  lemma {:induction false} StateAfter(h: seq<Sample>, j: nat)
    requires j < |h|
    ensures var v := After(h, j + 1);
            && v.pressed == h[j].down && v.lastTimestamp == h[j].now
            && (h[j].down ==> v.latched == Reached(h, j))
            && (h[j].down && !v.latched ==> v.pressedSince == h[HoldStart(h, j)].now)
    decreases j
  {
    hide RunStart, HoldStart, Reached;
    if h[j].down {
      HoldStartNext(h, j);
      HoldStartIsLatest(h, j);
      ReachedNext(h, j);
      if j > 0 { StateAfter(h, j - 1); }
    }
  }

  /**
    The machine triggers at a sample exactly when it is the first of its pressed run whose time since
    the run's start, or since its latest clock rollback, is at least five seconds.
   */
  lemma TriggerExact(h: seq<Sample>, j: nat)
    requires j < |h|
    ensures Fires(h, j) == Triggers(h, j)
  {
    if h[j].down {
      RunIsPressed(h, j);
      HoldStartIsLatest(h, j);
      if j > 0 { StateAfter(h, j - 1); }
    }
  }

  /** One press triggers at most once. */
  lemma OncePerPress(h: seq<Sample>, i: nat, j: nat)
    requires i < j < |h| && h[j].down && RunStart(h, j) <= i
    ensures !(Fires(h, i) && Fires(h, j))
  {
    TriggerExact(h, i);
    TriggerExact(h, j);
  }

  /** While a hold is being timed the unsigned subtraction never wraps. */
  lemma NoUnderflow(h: seq<Sample>, j: nat)
    requires j < |h| && h[j].down && !(After(h, j).pressed && After(h, j).latched)
    ensures Since(After(h, j), h[j].now) <= h[j].now
    ensures Minus(h[j].now, Since(After(h, j), h[j].now)) == Held(h, j)
  {
    HoldStartIsLatest(h, j);
    RunIsPressed(h, j);
    if j > 0 { StateAfter(h, j - 1); }
  }

  // ----- clock rollbacks --------------------------------------------------------------------

  /**
    A clock rollback within a press restarts the hold interval exactly while the press has not fired;
    afterwards it changes nothing.
   */
  lemma RollbackRestartsExactly(h: seq<Sample>, j: nat)
    requires j < |h| && IsRollback(h, j)
    ensures After(h, j).latched == Reached(h, j - 1)
    ensures After(h, j + 1).pressedSince == if Reached(h, j - 1) then After(h, j).pressedSince else h[j].now
    ensures h[j].now != After(h, j).pressedSince ==>
              (After(h, j + 1).pressedSince == h[j].now <==> !Reached(h, j - 1))
  {
    StateAfter(h, j - 1);
  }

  /** A rollback after the event: the interval still starts at the press. */
  lemma RollbackAfterTrigger()
    ensures var h := [Sample(true, 1000), Sample(true, 6000), Sample(true, 0)];
            Fires(h, 1) && IsRollback(h, 2) && After(h, 2).pressedSince == After(h, 3).pressedSince == 1000
  {
    var h := [Sample(true, 1000), Sample(true, 6000), Sample(true, 0)];
    assert After(h, 1) == Value(1000, 1000, true, false);
    assert After(h, 2) == Value(1000, 6000, true, true);
  }
}
