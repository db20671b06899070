// The start/stop flag that guards one periodic timer. The timer runtime is
// abstract: `start` receives the handle `setInterval` would return, and the
// ghost set `live` holds the handles of this animator's timers that are
// still firing.

module Animation {

  class Animator {
    var animated: bool
    var interval: int
    ghost var live: set<int>

    /** A running animator owns exactly the one live timer whose handle it keeps. */
    ghost predicate Valid()
      reads this
    {
      live == if animated then {interval} else {}
    }

    constructor ()
      ensures Valid() && !animated && live == {}
    {
      animated := false;
      interval := 0;
      live := {};
    }

    /** `start`: `handle` is the result of `setInterval`, which runs only when not yet animated. */
    method Start(handle: int)
      modifies this
      ensures !old(animated) ==> animated && interval == handle && live == old(live) + {handle}
      ensures old(animated) ==> animated == old(animated) && interval == old(interval) && live == old(live)
      ensures old(Valid()) ==> Valid() && animated && |live| == 1
    {
      if !animated {
        animated := true;
        interval := handle;
        live := live + {interval};
      }
    }

    /** `stop`: clears the stored timer, only when animated. */
    method Stop()
      modifies this
      ensures old(animated) ==> !animated && interval == old(interval) && live == old(live) - {old(interval)}
      ensures !old(animated) ==> animated == old(animated) && interval == old(interval) && live == old(live)
      ensures old(Valid()) ==> Valid() && !animated && live == {}
    {
      if animated {
        animated := false;
        live := live - {interval};
      }
    }
  }

  /**
   * A second start while running keeps the first timer; after a stop, the
   * next start runs a timer of its own and nothing else is live.
   */
  method StartStopStart(a: Animator, first: int, second: int, third: int)
    requires a.Valid() && !a.animated
    modifies a
    ensures a.Valid() && a.animated && a.interval == third && a.live == {third}
  {
    a.Start(first);
    a.Start(second);
    assert a.live == {first};
    a.Stop();
    assert a.live == {};
    a.Start(third);
  }
}
