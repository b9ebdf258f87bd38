/**
 * The signal watcher: one libuv signal handle per registered signal, kept in
 * an append-only list, and a listener that is told every delivered signal.
 */
module Signals {
  import opened Uv

  class SignalsHandler {
    var closed: bool
    /** The registered handles (`uvHandles`). */
    var handles: seq<Handle>
    /** The signal numbers the listener was given, in order. */
    var delivered: seq<int>

    /**
     * The handles are distinct and point back at the handler; while it is
     * open they are all watching, once it is closed they are all closing.
     */
    ghost predicate Valid()
      reads this, handles
    {
      && (forall i, j :: 0 <= i < j < |handles| ==> handles[i] != handles[j])
      && (forall i :: 0 <= i < |handles| ==> handles[i].data == this)
      && (forall i :: 0 <= i < |handles| ==> (handles[i].closing <==> closed))
      && (forall i :: 0 <= i < |handles| ==> (handles[i].active <==> !closed))
    }

    constructor ()
      ensures Valid() && !closed && handles == [] && delivered == []
    {
      closed := false;
      handles := [];
      delivered := [];
    }

    /**
     * `AddSignal(signum, name)`: `initErr` and `startErr` are what
     * `uv_signal_init` and `uv_signal_start` return. Only a handle that
     * started is registered.
     */
    method AddSignal(signum: int, name: string, initErr: int, startErr: int) returns (thrown: Option<Error>)
      requires Valid()
      modifies this
      ensures Valid() && closed == old(closed) && delivered == old(delivered)
      ensures closed ==> thrown == Some(Closed)
      ensures !closed && initErr != 0 ==> thrown == Some(SignalInitFailed(initErr))
      ensures !closed && initErr == 0 && startErr != 0 ==> thrown == Some(SignalStartFailed(startErr))
      ensures thrown.Some? ==> handles == old(handles)
      ensures thrown.None? <==> !closed && initErr == 0 && startErr == 0
      ensures thrown.None? ==>
        && |handles| == |old(handles)| + 1 && handles[..|old(handles)|] == old(handles)
        && fresh(handles[|old(handles)|]) && handles[|old(handles)|].active
    {
      if closed {
        return Some(Closed);
      }
      var h := new Handle();
      h.data := this;
      if initErr != 0 {
        return Some(SignalInitFailed(initErr));
      }
      if startErr != 0 {
        return Some(SignalStartFailed(startErr));
      }
      h.Activate();
      handles := handles + [h];
      return None;
    }

    /** `Close`: the first call closes every registered handle once; later calls do nothing. */
    method Close()
      requires Valid()
      modifies this, handles
      ensures Valid() && closed && handles == old(handles) && delivered == old(delivered)
      ensures old(closed) ==> forall i :: 0 <= i < |handles| ==> unchanged(handles[i])
      ensures forall i :: 0 <= i < |handles| ==> handles[i].closing && !handles[i].active
    {
      if closed {
        return;
      }
      closed := true;
      var i := 0;
      while i < |handles|
        invariant 0 <= i <= |handles| && handles == old(handles) && delivered == old(delivered) && closed
        invariant forall k :: 0 <= k < |handles| ==> handles[k].data == this
        invariant forall k :: 0 <= k < i ==> handles[k].closing && !handles[k].active
        invariant forall k :: i <= k < |handles| ==> !handles[k].closing
      {
        handles[i].Close();
        i := i + 1;
      }
    }

    /** `OnUvSignal`: the listener is told the signal number as delivered. */
    method OnUvSignal(signum: int)
      modifies this
      ensures delivered == old(delivered) + [signum]
      ensures closed == old(closed) && handles == old(handles)
    {
      delivered := delivered + [signum];
    }
  }
}
