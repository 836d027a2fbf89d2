/** The start/stop ticker (class Animator). The host's periodic timer is
    outside the model: `Start` receives the handle the host would return
    for a new timer, and the ghost field `liveTimers` counts the timers the
    host is running on this animator's behalf. */
module Animation {
  import opened Config

  class Animator {
    var animated: bool
    /** The opaque handle of the current host timer. */
    var interval: int
    ghost var liveTimers: nat
    /** The period, in milliseconds, of the timer last handed to the host. */
    ghost var period: int

    /** At most one timer runs, and it runs exactly while `animated` is set. */
    ghost predicate Valid()
      reads this
    {
      liveTimers == if animated then 1 else 0
    }

    constructor ()
      ensures Valid() && !animated
    {
      animated := false;
      interval := 0;
      liveTimers := 0;
      period := 0;
    }

    /** Starts a host timer of period TickPeriod unless one is already
        running; returns whether a timer was scheduled. */
    method Start(handle: int) returns (scheduled: bool)
      requires Valid()
      modifies this
      ensures Valid() && animated
      ensures scheduled == !old(animated)
      ensures scheduled ==> interval == handle && period == TickPeriod
      ensures scheduled ==> liveTimers == old(liveTimers) + 1
      ensures !scheduled ==> unchanged(this)
    {
      scheduled := false;
      if !animated {
        animated := true;
        interval := handle;
        period := TickPeriod;
        liveTimers := liveTimers + 1;
        scheduled := true;
      }
    }

    /** Cancels the running host timer, if any; returns whether the timer
        with handle `interval` was cleared. */
    method Stop() returns (cleared: bool)
      requires Valid()
      modifies this
      ensures Valid() && !animated
      ensures cleared == old(animated)
      ensures interval == old(interval) && period == old(period)
      ensures cleared ==> liveTimers == old(liveTimers) - 1
      ensures !cleared ==> unchanged(this)
    {
      cleared := false;
      if animated {
        animated := false;
        liveTimers := liveTimers - 1;
        cleared := true;
      }
    }
  }

  /** Start followed by Stop leaves the animator stopped with no timer
      running, whatever state it was in before. */
  method StartThenStop(a: Animator, handle: int)
    requires a.Valid()
    modifies a
    ensures a.Valid() && !a.animated && a.liveTimers == 0
  {
    var _ := a.Start(handle);
    var _ := a.Stop();
  }
}
