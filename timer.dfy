/**
 * The timer wrapper: a libuv timer handle plus the last (timeout, repeat)
 * the owner asked for. Every operation on a closed timer throws.
 */
module Timers {
  import opened Uv

  class Timer {
    var handle: Handle?
    var closed: bool
    /** The last values given to `Start`. */
    var timeout: U64
    var repeat: U64
    /** The (timeout, repeat) of the last successful `uv_timer_start`. */
    var armedTimeout: U64
    var armedRepeat: U64

    /**
     * The handle points back at the timer; it is closing exactly when the
     * timer is closed, and a closed timer is not armed.
     */
    ghost predicate Valid()
      reads this, handle
    {
      && handle != null
      && handle.data == this
      && (closed <==> handle.closing)
      && (closed ==> !handle.active)
    }

    /** Allocates the handle and points it back at the timer. */
    constructor ()
      ensures Valid() && fresh(handle) && !closed && !handle.active
      ensures timeout == 0 && repeat == 0
    {
      handle := new Handle();
      closed := false;
      timeout := 0;
      repeat := 0;
      armedTimeout := 0;
      armedRepeat := 0;
      new;
      handle.data := this;
    }

    /**
     * The constructor: `initErr` is what `uv_timer_init` returned. On failure
     * the handle is freed, the pointer cleared and the error thrown.
     */
    static method Create(initErr: int) returns (r: Outcome<Timer>)
      ensures initErr != 0 <==> r == Threw(TimerInitFailed(initErr))
      ensures r.Ok? || r.Threw?
      ensures r.Ok? ==> fresh(r.value) && fresh(r.value.handle) && r.value.Valid()
      ensures r.Ok? ==> !r.value.closed && !r.value.handle.active
    {
      var t := new Timer();
      if initErr != 0 {
        t.handle := null;
        return Threw(TimerInitFailed(initErr));
      }
      return Ok(t);
    }

    /** `Close`: the first call closes the handle; later calls do nothing. */
    method Close()
      requires Valid()
      modifies this, handle
      ensures Valid() && closed && handle == old(handle)
      ensures timeout == old(timeout) && repeat == old(repeat)
      ensures old(closed) ==> unchanged(handle)
    {
      if closed {
        return;
      }
      closed := true;
      handle.Close();
    }

    /** `uv_timer_start(timeout, repeat)` that succeeded. */
    method Arm(t: U64, r: U64)
      requires Valid() && !closed
      modifies this`armedTimeout, this`armedRepeat, handle
      ensures Valid() && handle.active && armedTimeout == t && armedRepeat == r
    {
      handle.Activate();
      armedTimeout := t;
      armedRepeat := r;
    }

    /**
     * `Start(timeout, repeat)`: stores both values, stops an armed timer
     * first (`stopErr` is what `uv_timer_stop` returns), then arms it
     * (`startErr` is what `uv_timer_start` returns).
     */
    method Start(t: U64, r: U64, stopErr: int, startErr: int) returns (thrown: Option<Error>)
      requires Valid()
      modifies this, handle
      ensures Valid() && closed == old(closed) && handle == old(handle)
      ensures old(closed) ==> thrown == Some(Closed) && unchanged(this) && unchanged(handle)
      ensures !old(closed) ==> timeout == t && repeat == r
      ensures !old(closed) ==>
        if old(handle.active) && stopErr != 0 then
          && thrown == Some(TimerStopFailed(stopErr)) && unchanged(handle)
          && armedTimeout == old(armedTimeout) && armedRepeat == old(armedRepeat)
        else if startErr != 0 then
          && thrown == Some(TimerStartFailed(startErr)) && !handle.active
          && armedTimeout == old(armedTimeout) && armedRepeat == old(armedRepeat)
        else thrown.None? && handle.active && armedTimeout == t && armedRepeat == r
    {
      if closed {
        return Some(Closed);
      }
      timeout := t;
      repeat := r;
      if handle.active {
        thrown := Stop(stopErr);
        if thrown.Some? {
          return;
        }
      }
      if startErr != 0 {
        return Some(TimerStartFailed(startErr));
      }
      Arm(t, r);
      return None;
    }

    /** `Stop`: disarms the timer (`stopErr` is what `uv_timer_stop` returns). */
    method Stop(stopErr: int) returns (thrown: Option<Error>)
      requires Valid()
      modifies handle
      ensures Valid()
      ensures closed ==> thrown == Some(Closed) && unchanged(handle)
      ensures !closed && stopErr != 0 ==> thrown == Some(TimerStopFailed(stopErr)) && unchanged(handle)
      ensures !closed && stopErr == 0 ==> thrown.None? && !handle.active
    {
      if closed {
        return Some(Closed);
      }
      if stopErr != 0 {
        return Some(TimerStopFailed(stopErr));
      }
      handle.Deactivate();
      return None;
    }

    /**
     * `Reset`: an armed timer with a non-zero repeat is re-armed with
     * (repeat, repeat); otherwise nothing happens. The stored values stay.
     */
    method Reset(startErr: int) returns (thrown: Option<Error>)
      requires Valid()
      modifies this`armedTimeout, this`armedRepeat, handle
      ensures Valid() && timeout == old(timeout) && repeat == old(repeat)
      ensures closed ==> thrown == Some(Closed) && unchanged(this) && unchanged(handle)
      ensures !closed && (!old(handle.active) || repeat == 0) ==>
        thrown.None? && unchanged(this) && unchanged(handle)
      ensures !closed && old(handle.active) && repeat != 0 ==>
        if startErr != 0 then thrown == Some(TimerStartFailed(startErr)) && unchanged(this) && unchanged(handle)
        else thrown.None? && handle.active && armedTimeout == repeat && armedRepeat == repeat
    {
      if closed {
        return Some(Closed);
      }
      if !handle.active {
        return None;
      }
      if repeat == 0 {
        return None;
      }
      if startErr != 0 {
        return Some(TimerStartFailed(startErr));
      }
      Arm(repeat, repeat);
      return None;
    }

    /**
     * `Restart`: stops an armed timer, then arms it again with the stored
     * (timeout, repeat).
     */
    method Restart(stopErr: int, startErr: int) returns (thrown: Option<Error>)
      requires Valid()
      modifies this`armedTimeout, this`armedRepeat, handle
      ensures Valid() && timeout == old(timeout) && repeat == old(repeat)
      ensures closed ==> thrown == Some(Closed) && unchanged(this) && unchanged(handle)
      ensures !closed ==>
        if old(handle.active) && stopErr != 0 then
          && thrown == Some(TimerStopFailed(stopErr)) && unchanged(handle)
          && armedTimeout == old(armedTimeout) && armedRepeat == old(armedRepeat)
        else if startErr != 0 then
          && thrown == Some(TimerStartFailed(startErr)) && !handle.active
          && armedTimeout == old(armedTimeout) && armedRepeat == old(armedRepeat)
        else thrown.None? && handle.active && armedTimeout == timeout && armedRepeat == repeat
    {
      if closed {
        return Some(Closed);
      }
      if handle.active {
        thrown := Stop(stopErr);
        if thrown.Some? {
          return;
        }
      }
      if startErr != 0 {
        return Some(TimerStartFailed(startErr));
      }
      Arm(timeout, repeat);
      return None;
    }
  }
}
