/**
 * The listening endpoint: a listening TCP handle and the set of accepted
 * connections it owns. A new connection is allocated by the owner, set up,
 * accepted, started and offered to the owner, who may refuse it; a refused
 * or failed candidate is deleted and never enters the set.
 */
module Server {
  import opened Uv
  import opened Connection

  class TcpServer {
    const handle: Handle
    var closed: bool
    /** The owned connections (`connections`). */
    var connections: set<TcpConnection>
    var local: SockAddr
    /** The notifications given to the owner, in order. */
    var events: seq<ConnectionEvent>

    /**
     * While open the handle points back at the server and is listening, and
     * every owned connection is alive, started and reports to this server.
     * Once closed the back-reference is null and `uv_close` was issued.
     */
    ghost predicate Valid()
      reads this, handle, connections
    {
      && handle.data == (if closed then null else this)
      && (closed <==> handle.closing)
      && (!closed ==> handle.active)
      && (!closed ==> forall c :: c in connections ==> !c.deleted && c.started && c.listener == this)
    }

    constructor (h: Handle)
      ensures handle == h && !closed && connections == {} && events == []
    {
      handle := h;
      closed := false;
      connections := {};
      local := SockAddr([], 0);
      events := [];
    }

    /**
     * The constructor: points the handle at the server, listens
     * (`listenErr`), then reads the local address (`local`, None when
     * getsockname fails). Either failure closes the handle and throws.
     */
    static method Create(h: Handle, backlog: int, listenErr: int, local: Option<SockAddr>)
      returns (r: Outcome<TcpServer>)
      requires !h.closing
      modifies h
      ensures r.Ok? <==> listenErr == 0 && local.Some?
      ensures listenErr != 0 ==> r == Threw(ListenFailed(listenErr)) && h.closing
      ensures listenErr == 0 && local.None? ==> r == Threw(LocalAddressFailed) && h.closing
      ensures r.Ok? ==>
        && fresh(r.value) && r.value.Valid() && r.value.handle == h
        && r.value.local == local.value && r.value.connections == {} && r.value.events == []
    {
      var s := new TcpServer(h);
      h.data := s;
      if listenErr != 0 {
        h.Close();
        return Threw(ListenFailed(listenErr));
      }
      h.Activate();
      if local.None? {
        h.Close();
        return Threw(LocalAddressFailed);
      }
      s.local := local.value;
      return Ok(s);
    }

    /**
     * `Close`: the first call marks the server closed, clears the handle's
     * back-reference, deletes every owned connection once (the set itself is
     * kept as it was) and closes the handle. Later calls do nothing.
     */
    method Close()
      requires Valid()
      modifies this, handle, connections
      ensures Valid() && closed
      ensures connections == old(connections) && events == old(events) && local == old(local)
      ensures old(closed) ==> unchanged(handle) && forall c :: c in connections ==> unchanged(c)
      ensures !old(closed) ==> forall c :: c in connections ==> c.deleted && c.started == old(c.started) && c.listener == old(c.listener)
      ensures !old(closed) ==> handle.closing && handle.data == null
    {
      if closed {
        return;
      }
      closed := true;
      handle.data := null;
      var remaining := connections;
      while remaining != {}
        invariant remaining <= connections
        invariant forall c :: c in connections - remaining ==> c.deleted
        invariant forall c :: c in remaining ==> !c.deleted
        invariant forall c :: c in old(connections) ==> c.started == old(c.started) && c.listener == old(c.listener)
        invariant closed && handle.data == null && !handle.closing && handle.active
        invariant connections == old(connections) && events == old(events) && local == old(local)
        decreases |remaining|
      {
        var c :| c in remaining;
        c.Delete();
        remaining := remaining - {c};
      }
      handle.Close();
    }

    /**
     * `OnUvConnection`: `alloc` is what the owner's allocator produced,
     * `setupOk`/`startOk` whether the connection's Setup/Start returned,
     * `acceptErr` what `uv_accept` returned and `accepted` the owner's answer.
     */
    method OnUvConnection(status: int, alloc: TcpConnection?, setupOk: bool, acceptErr: int,
                          startOk: bool, accepted: bool) returns (crash: Option<Fatal>)
      requires Valid()
      requires alloc != null ==> alloc !in connections && !alloc.deleted && !alloc.started
      modifies this, alloc
      ensures crash.None? ==> Valid()
      ensures closed == old(closed) && local == old(local)
      // A closed server and a failed connection event change nothing.
      ensures old(closed) || status != 0 ==>
        crash.None? && connections == old(connections) && events == old(events) && (alloc != null ==> unchanged(alloc))
      ensures !old(closed) && status == 0 ==>
        if alloc == null then crash == Some(NullConnection)
        else if !setupOk then
          crash.None? && alloc.deleted && connections == old(connections) && events == old(events)
        else if acceptErr != 0 then crash == Some(AcceptFailed(acceptErr))
        else if !startOk then
          crash.None? && alloc.deleted && connections == old(connections) && events == old(events)
        else
          && crash.None? && events == old(events) + [NewConnection(alloc)]
          && connections == (if accepted then old(connections) + {alloc} else old(connections))
          && alloc.deleted == !accepted
    {
      if closed {
        return None;
      }
      if status != 0 {
        return None;
      }
      var connection := alloc;
      if connection == null {
        return Some(NullConnection);
      }
      var ok := connection.Setup(this, setupOk);
      if !ok {
        connection.Delete();
        return None;
      }
      if acceptErr != 0 {
        return Some(AcceptFailed(acceptErr));
      }
      ok := connection.Start(startOk);
      if !ok {
        connection.Delete();
        return None;
      }
      events := events + [NewConnection(connection)];
      if accepted {
        connections := connections + {connection};
      } else {
        connection.Delete();
      }
      return None;
    }

    /**
     * `OnTcpConnectionClosed`: removes exactly that connection from the set,
     * notifies the owner, then deletes it.
     */
    method OnTcpConnectionClosed(connection: TcpConnection)
      requires Valid() && !connection.deleted
      modifies this, connection
      ensures Valid()
      ensures connections == old(connections) - {connection}
      ensures events == old(events) + [ConnectionClosed(connection)]
      ensures connection.deleted && closed == old(closed) && local == old(local)
    {
      connections := connections - {connection};
      events := events + [ConnectionClosed(connection)];
      connection.Delete();
    }
  }
}
