/** The fixed-step game loop of `src/time.ts`: the shared `Time` clock, its
    `on_interval` test, and one `step` of `my_loop`, which clamps the frame
    time, runs as many fixed `dt` ticks as the accumulated time allows, and
    shows a blend of the current state and the one a tick ahead. */
module Time {
  import opened Common

  /** `Time.dt`, the length of one tick in seconds. */
  const Dt: real := 0.025

  /** The largest frame time `step` accepts. */
  const MaxFrame: real := 0.025

  /** The `Time` object: the accumulated time not yet spent on ticks and the
      game time. */
  class Clock {
    var remDt: real
    var time: real

    constructor ()
      ensures remDt == 0.0 && time == 0.0
    {
      remDt, time := 0.0, 0.0;
    }

    /** `on_interval(interval, offset)`: did the last tick cross a multiple
        of `interval` (shifted by `offset`)? */
    predicate OnInterval(interval: real, offset: real)
      reads this
      requires interval != 0.0
    {
      Crosses(time, interval, offset)
    }
  }

  /** The comparison `on_interval` makes at game time `time`. */
  predicate Crosses(time: real, interval: real, offset: real)
    requires interval != 0.0
  {
    ((time - offset - Dt) / interval).Floor < ((time - offset) / interval).Floor
  }

  /** The point `offset + k * interval`. */
  function Mark(offset: real, k: int, interval: real): real
  {
    offset + k as real * interval
  }

  /** For a positive interval, `on_interval` holds exactly when some point
      `offset + k * interval` lies in the last tick, `(time - dt, time]`. */
  lemma CrossesIffMarkInLastTick(time: real, interval: real, offset: real)
    requires interval > 0.0
    ensures Crosses(time, interval, offset) <==>
            exists k: int :: time - Dt < Mark(offset, k, interval) <= time
  {
    if Crosses(time, interval, offset) {
      var k := CrossingMark(time, interval, offset);
      assert time - Dt < Mark(offset, k, interval) <= time;
    }
    if exists k: int :: time - Dt < Mark(offset, k, interval) <= time {
      var k: int :| time - Dt < Mark(offset, k, interval) <= time;
      MarkCrosses(time, interval, offset, k);
    }
  }

  /** When `on_interval` holds, `floor((time - offset) / interval)` names a
      point in the last tick. */
  lemma CrossingMark(time: real, interval: real, offset: real) returns (k: int)
    requires interval > 0.0 && Crosses(time, interval, offset)
    ensures time - Dt < Mark(offset, k, interval) <= time
  {
    var lo, hi := (time - offset - Dt) / interval, (time - offset) / interval;
    k := hi.Floor;
    assert k as real <= hi;
    assert lo < lo.Floor as real + 1.0 <= k as real;
    BelowQuotient(k, time - offset, interval);
    AboveQuotient(k, time - offset - Dt, interval);
  }

  /** A point in the last tick makes `on_interval` hold. */
  lemma MarkCrosses(time: real, interval: real, offset: real, k: int)
    requires interval > 0.0 && time - Dt < Mark(offset, k, interval) <= time
    ensures Crosses(time, interval, offset)
  {
    var lo, hi := (time - offset - Dt) / interval, (time - offset) / interval;
    BelowQuotient(k, time - offset, interval);
    AboveQuotient(k, time - offset - Dt, interval);
    assert lo < k as real <= hi;
    assert lo.Floor as real <= lo;
    assert k <= hi.Floor;
  }

  /** `k <= x / n` and `k * n <= x` agree for positive `n`. */
  lemma BelowQuotient(k: int, x: real, n: real)
    requires n > 0.0
    ensures k as real <= x / n <==> k as real * n <= x
  {
    assert (x / n) * n == x;
    if k as real <= x / n {
      assert k as real * n <= (x / n) * n;
    } else {
      assert k as real * n > (x / n) * n;
    }
  }

  /** `x / n < k` and `x < k * n` agree for positive `n`. */
  lemma AboveQuotient(k: int, x: real, n: real)
    requires n > 0.0
    ensures x / n < k as real <==> x < k as real * n
  {
    BelowQuotient(k, x, n);
    assert (x / n) * n == x;
    if x / n < k as real {
      assert (x / n) * n < k as real * n;
    } else {
      assert (x / n) * n >= k as real * n;
    }
  }

  // ------------------------------------------------------------ the step

  /** The frame time `step(t)` adds: the time since the previous frame (none
      on the first frame), cut down to `MaxFrame`. It is not bounded below. */
  function FrameTime(t: real, lastT: Option<real>): (ft: real)
    ensures ft <= MaxFrame
    ensures lastT.None? ==> ft == 0.0
    ensures lastT.Some? && t - lastT.value <= MaxFrame ==> ft == t - lastT.value
    ensures lastT.Some? && t >= lastT.value ==> ft >= 0.0
  {
    var ft := t - (if lastT.Some? then lastT.value else t);
    if ft > MaxFrame then MaxFrame else ft
  }

  /** How many ticks the `while` loop runs when it starts from `rem`. */
  function Ticks(rem: real): nat
    decreases (rem / Dt).Floor
  {
    if rem >= Dt then 1 + Ticks(rem - Dt) else 0
  }

  /** What is left in `rem_dt` after those ticks. */
  function Remainder(rem: real): real
  {
    rem - Ticks(rem) as real * Dt
  }

  /** The ticks spend the accumulated time down to less than one tick, and
      a non-negative accumulator stays non-negative. */
  lemma {:induction false} RemainderBounds(rem: real)
    decreases (rem / Dt).Floor
    ensures Remainder(rem) < Dt
    ensures rem >= 0.0 ==> Remainder(rem) >= 0.0
    ensures rem < Dt ==> Remainder(rem) == rem
  {
    if rem >= Dt {
      RemainderBounds(rem - Dt);
    }
  }

  /** For a non-negative accumulator the tick count is the whole number of
      ticks it holds. */
  lemma {:induction false} TicksIsFloor(rem: real)
    requires rem >= 0.0
    decreases (rem / Dt).Floor
    ensures Ticks(rem) == (rem / Dt).Floor
  {
    if rem >= Dt {
      TicksIsFloor(rem - Dt);
      assert (rem - Dt) / Dt == rem / Dt - 1.0;
    }
  }

  /** Because the frame time is clamped to one tick, a frame that starts
      with less than a tick in hand runs at most one tick. */
  lemma AtMostOneTick(rem: real, ft: real)
    requires rem < Dt && ft <= MaxFrame
    ensures Ticks(rem + ft) <= 1
  {
    if rem + ft >= Dt {
      assert rem + ft - Dt < Dt;
    }
  }

  /** One pass of the `while` loop keeps the books: the time spent plus
      the time left is what there was, and the clock moves by one tick. */
  lemma TickSpends(rem: real, r: real, n: nat, t0: real, t: real)
    requires r >= Dt && rem == r + n as real * Dt && Ticks(rem) == n + Ticks(r)
    requires t == t0 + n as real * Dt
    ensures rem == (r - Dt) + (n + 1) as real * Dt && Ticks(rem) == (n + 1) + Ticks(r - Dt)
    ensures t + Dt == t0 + (n + 1) as real * Dt
  {
  }

  /** When the loop stops it has run `Ticks(rem)` times and left
      `Remainder(rem)`. */
  lemma TicksDone(rem: real, r: real, n: nat)
    requires r < Dt && rem == r + n as real * Dt && Ticks(rem) == n + Ticks(r)
    ensures Ticks(rem) == n && Remainder(rem) == r
  {
  }

  /** `lerpables.map(_ => _.integrate())`. */
  function IntegrateAll<L>(ls: seq<L>, integrate: L -> L): (r: seq<L>)
    ensures |r| == |ls|
    ensures forall i :: 0 <= i < |ls| ==> r[i] == integrate(ls[i])
  {
    seq(|ls|, i requires 0 <= i < |ls| => integrate(ls[i]))
  }

  /** The list after `n` ticks. */
  function Advance<L>(ls: seq<L>, integrate: L -> L, n: nat): (r: seq<L>)
    ensures |r| == |ls|
  {
    if n == 0 then ls else IntegrateAll(Advance(ls, integrate, n - 1), integrate)
  }

  /** Ticks compose: `n` ticks after `m` ticks are `m + n` ticks. */
  lemma {:induction false} AdvanceAdds<L>(ls: seq<L>, integrate: L -> L, m: nat, n: nat)
    ensures Advance(Advance(ls, integrate, m), integrate, n) == Advance(ls, integrate, m + n)
  {
    if n > 0 {
      AdvanceAdds(ls, integrate, m, n - 1);
    }
  }

  /** The list `render` sees: each lerpable blended with its next state. */
  function Blend<L>(ls: seq<L>, integrate: L -> L, lerp: (L, L, real) -> L, alpha: real): (r: seq<L>)
    ensures |r| == |ls|
    ensures forall i :: 0 <= i < |ls| ==> r[i] == lerp(ls[i], integrate(ls[i]), alpha)
  {
    var next := IntegrateAll(ls, integrate);
    seq(|ls|, i requires 0 <= i < |ls| => lerp(ls[i], next[i], alpha))
  }

  /** The `State` the loop drives: the list of interpolated values. */
  class State<L> {
    var lerpables: seq<L>

    constructor (ls: seq<L>)
      ensures lerpables == ls
    {
      lerpables := ls;
    }
  }

  /** What a step does to the state, in order: the graph-wide
      `integrate()`, the ticks, and the `render()` call with the list it saw. */
  datatype Event<L> = GraphIntegrate | Tick | Render(shown: seq<L>)

  /** `n` ticks. */
  function Ticked<L>(n: nat): (r: seq<Event<L>>)
    ensures |r| == n && forall i :: 0 <= i < n ==> r[i] == Tick
  {
    seq(n, _ => Tick)
  }

  /** `my_loop(current_state)`: the clock, the state and the timestamp of
      the previous frame the `step` closure keeps. */
  class Loop<L> {
    var lastT: Option<real>
    const clock: Clock
    const state: State<L>

    constructor (clock: Clock, state: State<L>)
      ensures this.clock == clock && this.state == state && lastT.None?
    {
      this.clock, this.state, lastT := clock, state, None;
    }

    /** One `step(t)`. `integrate` and `lerp` are the lerpables' own
        methods. `render` is called once, with the blended list, after which
        the committed list is put back. */
    method Step(t: real, integrate: L -> L, lerp: (L, L, real) -> L) returns (events: seq<Event<L>>)
      modifies this, clock, state
      ensures lastT == Some(t)
      ensures var rem := old(clock.remDt) + FrameTime(t, old(lastT));
              && clock.remDt == Remainder(rem)
              && clock.time == old(clock.time) + Ticks(rem) as real * Dt
              && state.lerpables == Advance(old(state.lerpables), integrate, Ticks(rem))
      ensures events == [GraphIntegrate] +
                        Ticked(Ticks(old(clock.remDt) + FrameTime(t, old(lastT)))) +
                        [Render(Blend(state.lerpables, integrate, lerp, clock.remDt / Dt))]
    {
      var frameTime := t - (if lastT.Some? then lastT.value else t);
      if frameTime > MaxFrame {
        frameTime := MaxFrame;
      }
      lastT := Some(t);
      clock.remDt := clock.remDt + frameTime;
      var ticks := CatchUp(integrate);
      events := [GraphIntegrate] + ticks;
      var cache := state.lerpables;
      var next := IntegrateAll(cache, integrate);
      var alpha := clock.remDt / Dt;
      var blended := seq(|cache|, i requires 0 <= i < |cache| => lerp(cache[i], next[i], alpha));
      state.lerpables := blended;
      events := events + [Render(state.lerpables)];
      state.lerpables := cache;
    }

    /** The `while (rem_dt >= dt)` loop of `step`: one tick per `dt` held,
        each integrating every lerpable and moving the game time on. */
    method CatchUp(integrate: L -> L) returns (ticks: seq<Event<L>>)
      modifies clock, state
      ensures var rem := old(clock.remDt);
              && ticks == Ticked(Ticks(rem))
              && clock.remDt == Remainder(rem)
              && clock.time == old(clock.time) + Ticks(rem) as real * Dt
              && state.lerpables == Advance(old(state.lerpables), integrate, Ticks(rem))
    {
      ghost var rem := clock.remDt;
      ghost var ls := state.lerpables;
      ticks := [];
      ghost var n: nat := 0;
      while clock.remDt >= Dt
        modifies clock, state
        invariant ticks == Ticked(n)
        invariant rem == clock.remDt + n as real * Dt
        invariant Ticks(rem) == n + Ticks(clock.remDt)
        invariant clock.time == old(clock.time) + n as real * Dt
        invariant state.lerpables == Advance(ls, integrate, n)
        decreases (clock.remDt / Dt).Floor
      {
        TickSpends(rem, clock.remDt, n, old(clock.time), clock.time);
        state.lerpables := IntegrateAll(state.lerpables, integrate);
        clock.time := clock.time + Dt;
        clock.remDt := clock.remDt - Dt;
        ticks := ticks + [Tick];
        n := n + 1;
        assert Ticked<L>(n) == Ticked(n - 1) + [Tick];
      }
      TicksDone(rem, clock.remDt, n);
    }
  }

  /** When the clock holds less than a tick and time does not run backwards,
      a step runs at most one tick and leaves a blend factor in `[0, 1)`. */
  lemma StepKeepsAlphaInRange(rem: real, t: real, lastT: Option<real>)
    requires 0.0 <= rem < Dt
    requires lastT.Some? ==> t >= lastT.value
    ensures Ticks(rem + FrameTime(t, lastT)) <= 1
    ensures 0.0 <= Remainder(rem + FrameTime(t, lastT)) / Dt < 1.0
  {
    var r := rem + FrameTime(t, lastT);
    AtMostOneTick(rem, FrameTime(t, lastT));
    RemainderBounds(r);
  }
}
