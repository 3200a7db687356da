/**
 * The door sweeps of `D O` and `D S`: the positions written to the servo and
 * the pauses between them, as a trace, and whether the loop ends.
 *
 * The loop variable is a `uint16_t`: `pos += step` and `pos -= step` wrap
 * modulo 2^16. A sweep whose position wraps is followed up to the wrap and
 * no further.
 */
module Door {
  import opened Prelude

  /** An actuator call: `door.write(position)` or `delay(ms)`, whose argument is an `unsigned long`. */
  datatype Effect = Write(position: u16) | Delay(ms: nat)

  /** A sweep is made in this many steps. */
  const MovementSteps: nat := 100

  /**
   * The step of a sweep, `(open - closed) / 100.0` converted to `uint16_t`:
   * the largest number of positions that fits 100 times into the distance.
   * When open < closed neither loop runs and the step is not used.
   */
  function Step(closed: u16, open: u16): (step: u16)
    ensures closed <= open ==> step * MovementSteps <= open - closed < (step + 1) * MovementSteps
    ensures closed > open ==> step == 0
  {
    if closed <= open then (open - closed) / MovementSteps else 0
  }

  /** The pause between two positions, `ms / 100.0` converted to `long`: truncated toward zero. */
  function Pause(ms: int): (pause: int)
    ensures ms >= 0 ==> 0 <= pause * 100 <= ms < (pause + 1) * 100
    ensures ms < 0 ==> (pause - 1) * 100 < ms <= pause * 100 <= 0
  {
    if ms >= 0 then ms / 100 else -((-ms) / 100)
  }

  /** How a sweep loop finishes. */
  datatype End =
    | Reached     // the loop condition failed and the final write was made
    | NeverEnds   // the loop condition can never fail: a zero step, or a closing loop down to 0
    | Wraps       // the position wrapped past the `uint16_t` range; the loop is not followed further

  /** The calls a sweep makes, and how it finishes. */
  datatype Sweep = Sweep(trace: seq<Effect>, end: End)

  /** The positions a loop writes, and how it finishes. */
  datatype Run = Run(positions: seq<u16>, end: End)

  /**
   * The loop body's calls for a list of positions: each write is followed by
   * `delay(pause)`, which receives the `long` pause converted to `unsigned long`.
   */
  function Pace(positions: seq<u16>, pause: int): (t: seq<Effect>)
    ensures |t| == 2 * |positions|
  {
    if positions == [] then [] else [Write(positions[0]), Delay(ULong(pause))] + Pace(positions[1..], pause)
  }

  /** The opening loop from `pos` on: the positions written while the position is at most `open`. */
  function Climb(pos: u16, open: u16, step: u16): Run
    requires step > 0 || pos > open
    decreases 0x1_0000 - pos
  {
    if pos > open then Run([], Reached)
    else if pos + step > 0xFFFF then Run([pos], Wraps)
    else
      var rest := Climb(pos + step, open, step);
      Run([pos] + rest.positions, rest.end)
  }

  /** The closing loop from `pos` on: the positions written while the position is at least `closed`. */
  function Descend(pos: u16, closed: u16, step: u16): Run
    requires step > 0 || pos < closed
    decreases pos
  {
    if pos < closed then Run([], Reached)
    else if pos < step then Run([pos], Wraps)
    else
      var rest := Descend(pos - step, closed, step);
      Run([pos] + rest.positions, rest.end)
  }

  /** `D O`: the opening loop from the closed position, then one more write of the open position. */
  function Open(closed: u16, open: u16, ms: int): Sweep
  {
    var step := Step(closed, open);
    if closed <= open && step == 0 then Sweep([], NeverEnds)
    else
      var loop := Climb(closed, open, step);
      var trace := Pace(loop.positions, Pause(ms));
      if loop.end == Reached then Sweep(trace + [Write(open)], Reached) else Sweep(trace, loop.end)
  }

  /** `D S`: the closing loop from the open position, then one more write of the closed position. */
  function Shut(closed: u16, open: u16, ms: int): Sweep
  {
    var step := Step(closed, open);
    if closed <= open && (step == 0 || closed == 0) then Sweep([], NeverEnds)
    else
      var loop := Descend(open, closed, step);
      var trace := Pace(loop.positions, Pause(ms));
      if loop.end == Reached then Sweep(trace + [Write(closed)], Reached) else Sweep(trace, loop.end)
  }

  // ---------------------------------------------------------------------------
  // The shape of the traces

  /** The k-th position is written at index 2k of the trace and followed by the pause. */
  lemma {:induction false} PaceShape(positions: seq<u16>, pause: int, k: nat)
    requires k < |positions|
    ensures Pace(positions, pause)[2 * k] == Write(positions[k])
    ensures Pace(positions, pause)[2 * k + 1] == Delay(ULong(pause))
  {
    if k > 0 {
      PaceShape(positions[1..], pause, k - 1);
    }
  }

  /**
   * The opening loop from `pos`: the first write at `pos`, each write one
   * step above the one before, all at most `open`; the last is the first whose
   * next step passes `open`, and the loop wraps exactly when that next step
   * passes 65535.
   */
  lemma {:induction false} ClimbShape(pos: u16, open: u16, step: u16)
    requires step > 0 && pos <= open
    ensures var r := Climb(pos, open, step); var ps := r.positions;
      && |ps| >= 1 && ps[0] == pos
      && (forall k :: 0 <= k < |ps| ==> ps[k] <= open)
      && (forall k :: 0 <= k < |ps| - 1 ==> ps[k + 1] == ps[k] + step)
      && ps[|ps| - 1] + step > open
      && (r.end == Wraps <==> ps[|ps| - 1] + step > 0xFFFF)
      && r.end != NeverEnds
    decreases 0x1_0000 - pos
  {
    if pos + step <= open {
      ClimbShape(pos + step, open, step);
    } else if pos + step <= 0xFFFF {
      assert Climb(pos + step, open, step) == Run([], Reached);
    }
  }

  /** The closing loop, the mirror image of `ClimbShape`: each write one step below the one before, all at least `closed`. */
  lemma {:induction false} DescendShape(pos: u16, closed: u16, step: u16)
    requires step > 0 && closed <= pos
    ensures var r := Descend(pos, closed, step); var ps := r.positions;
      && |ps| >= 1 && ps[0] == pos
      && (forall k :: 0 <= k < |ps| ==> ps[k] >= closed)
      && (forall k :: 0 <= k < |ps| - 1 ==> ps[k + 1] == ps[k] - step)
      && ps[|ps| - 1] < closed + step
      && (r.end == Wraps <==> ps[|ps| - 1] < step)
      && r.end != NeverEnds
    decreases pos
  {
    if pos >= closed + step {
      DescendShape(pos - step, closed, step);
    } else if pos >= step {
      assert Descend(pos - step, closed, step) == Run([], Reached);
    }
  }

  /** In a list of positions each one step above the one before, the k-th is first + k*step. */
  lemma {:induction false} ArithmeticPositions(ps: seq<u16>, step: int, k: nat)
    requires k < |ps|
    requires forall j :: 0 <= j < |ps| - 1 ==> ps[j + 1] == ps[j] + step
    ensures ps[k] == ps[0] + k * step
  {
    if k > 0 {
      ArithmeticPositions(ps, step, k - 1);
      assert (k - 1) * step + step == k * step;
    }
  }

  /** In a list of positions each one step below the one before, the k-th is first - k*step. */
  lemma {:induction false} DescendingPositions(ps: seq<u16>, step: int, k: nat)
    requires k < |ps|
    requires forall j :: 0 <= j < |ps| - 1 ==> ps[j + 1] == ps[j] - step
    ensures ps[k] == ps[0] - k * step
  {
    if k > 0 {
      DescendingPositions(ps, step, k - 1);
      assert (k - 1) * step + step == k * step;
    }
  }

  /** The opening loop from `pos` makes (open - pos) / step + 1 writes, the k-th at pos + k*step. */
  lemma ClimbCount(pos: u16, open: u16, step: u16)
    requires step > 0 && pos <= open
    ensures var ps := Climb(pos, open, step).positions;
      && |ps| == (open - pos) / step + 1
      && forall k :: 0 <= k < |ps| ==> ps[k] == pos + k * step
  {
    var ps := Climb(pos, open, step).positions;
    ClimbShape(pos, open, step);
    var L := |ps|;
    forall k | 0 <= k < L
      ensures ps[k] == pos + k * step
    {
      ArithmeticPositions(ps, step, k);
    }
    var last := ps[L - 1];
    assert last == pos + (L - 1) * step;
    CountFromLast(open - pos, step, L - 1, open - last);
  }

  /** The closing loop from `pos` makes (pos - closed) / step + 1 writes, the k-th at pos - k*step. */
  lemma DescendCount(pos: u16, closed: u16, step: u16)
    requires step > 0 && closed <= pos
    ensures var ps := Descend(pos, closed, step).positions;
      && |ps| == (pos - closed) / step + 1
      && forall k :: 0 <= k < |ps| ==> ps[k] == pos - k * step
  {
    var ps := Descend(pos, closed, step).positions;
    DescendShape(pos, closed, step);
    var L := |ps|;
    forall k | 0 <= k < L
      ensures ps[k] == pos - k * step
    {
      DescendingPositions(ps, step, k);
    }
    var last := ps[L - 1];
    assert last == pos - (L - 1) * step;
    CountFromLast(pos - closed, step, L - 1, last - closed);
  }

  /** A run whose last position lies less than one step past the bound has `d / step + 1` positions. */
  lemma CountFromLast(d: int, step: int, q: int, r: int)
    requires step > 0 && q >= 0 && d == q * step + r && 0 <= r < step
    ensures d / step + 1 == q + 1
  {
    DivUnique(d, step, q, r);
  }

  // ---------------------------------------------------------------------------
  // Termination

  /** The opening loop never ends exactly when the positions are less than 100 apart (the step is 0). */
  lemma OpenNeverEnds(closed: u16, open: u16, ms: int)
    ensures Open(closed, open, ms).end == NeverEnds <==> closed <= open && open - closed < 100
  {
    if closed <= open && Step(closed, open) > 0 {
      ClimbShape(closed, open, Step(closed, open));
    }
  }

  /**
   * The closing loop never ends when the step is 0, and also when the closed
   * position is 0, because a `uint16_t` is never below 0.
   */
  lemma ShutNeverEnds(closed: u16, open: u16, ms: int)
    ensures Shut(closed, open, ms).end == NeverEnds
      <==> closed <= open && (open - closed < 100 || closed == 0)
  {
    if closed <= open && Step(closed, open) > 0 && closed > 0 {
      DescendShape(open, closed, Step(closed, open));
    }
  }

  /** With the closed position above the open one neither loop runs: each sweep is its final write alone. */
  lemma ReversedPositions(closed: u16, open: u16, ms: int)
    requires closed > open
    ensures Open(closed, open, ms) == Sweep([Write(open)], Reached)
    ensures Shut(closed, open, ms) == Sweep([Write(closed)], Reached)
  {
  }

  /**
   * When the step after the open position stays within range the opening
   * loop cannot wrap: it ends, and the open position is written once more
   * after the loop's last write.
   */
  lemma OpenReached(closed: u16, open: u16, ms: int)
    requires closed <= open && open - closed >= 100
    requires open + Step(closed, open) <= 0xFFFF
    ensures var s := Open(closed, open, ms); var loop := Climb(closed, open, Step(closed, open));
      && s.end == Reached
      && s.trace == Pace(loop.positions, Pause(ms)) + [Write(open)]
  {
    ClimbShape(closed, open, Step(closed, open));
  }

  /**
   * When the closed position is at least one step the closing loop cannot
   * wrap: it ends, and the closed position is written once more after the
   * loop's last write.
   */
  lemma ShutReached(closed: u16, open: u16, ms: int)
    requires closed <= open && open - closed >= 100 && closed >= Step(closed, open)
    ensures var s := Shut(closed, open, ms); var loop := Descend(open, closed, Step(closed, open));
      && s.end == Reached
      && s.trace == Pace(loop.positions, Pause(ms)) + [Write(closed)]
  {
    DescendShape(open, closed, Step(closed, open));
  }

  /**
   * Calibrated to 10 and 370, the step is 3: the loop writes 10, 13, ..., 370,
   * that is 121 positions, each followed by a pause of ms/100, and 370 is then
   * written a second time.
   */
  lemma OpenExample(ms: int)
    ensures Step(10, 370) == 3
    ensures var s := Open(10, 370, ms);
      && s.end == Reached
      && |s.trace| == 2 * 121 + 1
      && s.trace[0] == Write(10) && s.trace[1] == Delay(ULong(Pause(ms))) && s.trace[2] == Write(13)
      && s.trace[240] == Write(370) && s.trace[242] == Write(370)
  {
    OpenReached(10, 370, ms);
    ClimbCount(10, 370, 3);
    var ps := Climb(10, 370, 3).positions;
    PaceShape(ps, Pause(ms), 0);
    PaceShape(ps, Pause(ms), 1);
    PaceShape(ps, Pause(ms), 120);
  }

  /**
   * The pause of a `long` duration reaches `delay()` unchanged when it is not
   * negative, that is for every duration above -100, and as 2^32 minus its
   * magnitude, longer than any `long` duration, when it is.
   */
  lemma PauseDelay(ms: int)
    requires LongMin <= ms <= LongMax
    ensures ms > -100 ==> ULong(Pause(ms)) == Pause(ms)
    ensures ms <= -100 ==> ULong(Pause(ms)) == 0x1_0000_0000 + Pause(ms) > LongMax
  {
  }

  /** `D O-500` on 10 and 370 waits 2^32 - 5 ms after each write. */
  lemma NegativeDurationExample()
    ensures Open(10, 370, -500).trace[1] == Delay(0xFFFF_FFFB)
  {
    OpenExample(-500);
    assert Pause(-500) == -5;
  }

  /** A sweep from 0 to 1000 closes with steps of 10 down to 0, and then wraps instead of ending. */
  lemma ShutFromZeroExample(ms: int)
    ensures Shut(0, 1000, ms).end == NeverEnds
    ensures Descend(1000, 0, 10).end == Wraps
  {
    DescendShape(1000, 0, 10);
  }
}
