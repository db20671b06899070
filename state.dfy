// The progress state machine of one node: a scale that moves by a fixed
// increment per tick from its last settled value towards the next one.
// JavaScript numbers are modelled as exact reals.

module ScaleStep {

  /** Increment added to `scale` per tick, times the direction. */
  const Increment: real := 0.05

  /** A step completes once the scale has moved more than this far. */
  const Threshold: real := 1.0

  /** Ticks that always suffice to complete a step: 21 * 0.05 > 1. */
  const MaxTicks: nat := 21

  function Abs(x: real): real { if x < 0.0 then -x else x }

  /** The fields of a `State` object, as a value. */
  datatype Progress = Progress(scale: real, prevScale: real, dir: real)

  /** The fields after one call, and how many times the call ran its callback. */
  datatype Outcome = Outcome(after: Progress, calls: nat)

  /** The fields of a freshly constructed `State`. */
  const Initial: Progress := Progress(0.0, 0.0, 0.0)

  /** True when no step is in progress. */
  predicate Idle(p: Progress) { p.dir == 0.0 }

  /** The value a moving state snaps to when its step completes. */
  function Target(p: Progress): real { p.prevScale + p.dir }

  /** How far the scale has moved from the last settled value. */
  function Moved(p: Progress): real { Abs(p.scale - p.prevScale) }

  /**
   * The invariant of every state reachable from `Initial`: the settled value
   * is 0 or 1, the direction points from it to the other one, an idle state
   * sits on its settled value, and the scale never leaves [0, 1].
   */
  predicate Inv(p: Progress) {
    (p.prevScale == 0.0 || p.prevScale == 1.0) &&
    (p.dir == 0.0 || p.dir == 1.0 || p.dir == -1.0) &&
    (p.dir == 0.0 ==> p.scale == p.prevScale) &&
    (p.dir == 1.0 ==> p.prevScale == 0.0) &&
    (p.dir == -1.0 ==> p.prevScale == 1.0) &&
    0.0 <= p.scale <= 1.0
  }

  /** `State.update`: one tick. */
  function Tick(p: Progress): (o: Outcome)
    ensures o.calls <= 1
    ensures o.calls == 1 <==> Abs(p.scale + Increment * p.dir - p.prevScale) > Threshold
    ensures Inv(p) ==> Inv(o.after)
    ensures Inv(p) && Idle(p) ==> o == Outcome(p, 0)
    ensures o.calls == 1 ==> Idle(o.after) && o.after.scale == o.after.prevScale == Target(p)
    ensures o.calls == 0 ==> o.after.prevScale == p.prevScale && o.after.dir == p.dir
                             && o.after.scale - p.scale == Increment * p.dir
  {
    var scale := p.scale + Increment * p.dir;
    if Abs(scale - p.prevScale) > Threshold then
      Outcome(Progress(p.prevScale + p.dir, p.prevScale + p.dir, 0.0), 1)
    else
      Outcome(p.(scale := scale), 0)
  }

  /** `State.startUpdating`: begin a step if none is in progress. */
  function Begin(p: Progress): (o: Outcome)
    ensures o.calls == (if Idle(p) then 1 else 0)
    ensures !Idle(p) ==> o.after == p
    ensures o.after.scale == p.scale && o.after.prevScale == p.prevScale
    ensures Inv(p) ==> Inv(o.after)
    ensures Inv(p) && Idle(p) ==> (o.after.dir == 1.0 <==> p.prevScale == 0.0)
    ensures Inv(p) && Idle(p) ==> (o.after.dir == -1.0 <==> p.prevScale == 1.0)
  {
    if p.dir == 0.0 then Outcome(p.(dir := 1.0 - 2.0 * p.prevScale), 1)
    else Outcome(p, 0)
  }

  /** The result of `n` ticks in a row, with the callbacks they ran in total. */
  function Ticks(p: Progress, n: nat): Outcome
    decreases n
  {
    if n == 0 then Outcome(p, 0)
    else
      var first := Tick(p);
      var rest := Ticks(first.after, n - 1);
      Outcome(rest.after, first.calls + rest.calls)
  }

  /** The calls a `State` object can receive. */
  datatype Call = StartUpdating | Update

  /** The fields after a sequence of calls. */
  function Run(p: Progress, calls: seq<Call>): Progress
    decreases calls
  {
    if calls == [] then p
    else
      var o := if calls[0] == StartUpdating then Begin(p) else Tick(p);
      Run(o.after, calls[1..])
  }

  /**
   * Starting is edge triggered: on a reachable state a second start in a row
   * changes nothing and runs no callback.
   */
  lemma StartTwice(p: Progress)
    requires Inv(p)
    ensures Begin(Begin(p).after) == Outcome(Begin(p).after, 0)
    ensures Begin(p).calls + Begin(Begin(p).after).calls == (if Idle(p) then 1 else 0)
  {
  }

  /** Every sequence of calls keeps the invariant. */
  lemma {:induction false} RunKeepsInv(p: Progress, calls: seq<Call>)
    requires Inv(p)
    ensures Inv(Run(p, calls))
    decreases calls
  {
    if calls != [] {
      var o := if calls[0] == StartUpdating then Begin(p) else Tick(p);
      RunKeepsInv(o.after, calls[1..]);
    }
  }

  /** The invariant holds in every state reachable from a fresh `State`. */
  lemma Reachable(calls: seq<Call>)
    ensures Inv(Run(Initial, calls))
  {
    RunKeepsInv(Initial, calls);
  }

  /** Ticking an idle reachable state changes nothing and runs no callback. */
  lemma {:induction false} IdleTicks(p: Progress, n: nat)
    requires Inv(p) && Idle(p)
    ensures Ticks(p, n) == Outcome(p, 0)
  {
    if n > 0 {
      IdleTicks(p, n - 1);
    }
  }

  /**
   * A moving state whose remaining ticks would carry it past the threshold
   * settles on its target after them, having run the callback exactly once.
   */
  lemma {:induction false} CompletesWithin(p: Progress, n: nat)
    requires Inv(p) && !Idle(p)
    requires Moved(p) + Increment * (n as real) > Threshold
    ensures Ticks(p, n) == Outcome(Progress(Target(p), Target(p), 0.0), 1)
    decreases n
  {
    var first := Tick(p);
    if first.calls == 1 {
      IdleTicks(first.after, n - 1);
    } else {
      CompletesWithin(first.after, n - 1);
    }
  }

  /** Every step in progress completes within `MaxTicks` ticks, whatever the direction. */
  lemma Completes(p: Progress)
    requires Inv(p) && !Idle(p)
    ensures Ticks(p, MaxTicks).after == Progress(Target(p), Target(p), 0.0)
    ensures Ticks(p, MaxTicks).calls == 1
    ensures Target(p) == 1.0 - p.prevScale
  {
    CompletesWithin(p, MaxTicks);
  }

  /** A step just started does not settle on its first tick. */
  lemma FirstTickMoves(p: Progress)
    requires Inv(p) && Idle(p)
    ensures Tick(Begin(p).after).calls == 0
    ensures Tick(Begin(p).after).after.scale == p.scale + Increment * Begin(p).after.dir
  {
  }

  /** A tick that does not complete moves the scale strictly closer to the target. */
  lemma TickApproaches(p: Progress)
    requires Inv(p) && !Idle(p) && Tick(p).calls == 0
    ensures Abs(Target(p) - Tick(p).after.scale) < Abs(Target(p) - p.scale)
    ensures Moved(Tick(p).after) == Moved(p) + Increment
  {
  }

  /** `State`: the fields `scale`, `prevScale` and `dir`, updated in place. */
  class State {
    var scale: real
    var prevScale: real
    var dir: real

    function Value(): Progress
      reads this
    {
      Progress(scale, prevScale, dir)
    }

    ghost predicate Valid()
      reads this
    {
      Inv(Value())
    }

    constructor ()
      ensures Value() == Initial && Valid()
    {
      scale, prevScale, dir := 0.0, 0.0, 0.0;
    }

    /** Returns how many times the callback ran. */
    method Update() returns (calls: nat)
      modifies this
      ensures Outcome(Value(), calls) == Tick(old(Value()))
      ensures old(Valid()) ==> Valid()
    {
      scale := scale + Increment * dir;
      calls := 0;
      if Abs(scale - prevScale) > Threshold {
        scale := prevScale + dir;
        dir := 0.0;
        prevScale := scale;
        calls := 1;
      }
    }

    /** Returns how many times the callback ran. */
    method StartUpdating() returns (calls: nat)
      modifies this
      ensures Outcome(Value(), calls) == Begin(old(Value()))
      ensures old(Valid()) ==> Valid()
    {
      calls := 0;
      if dir == 0.0 {
        dir := 1.0 - 2.0 * prevScale;
        calls := 1;
      }
    }
  }
}
