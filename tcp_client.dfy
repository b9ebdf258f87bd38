/**
 * The outbound endpoint: one connection, allocated by the owner, set up and
 * connected; the owner is told about it once the connect completes and the
 * connection starts reading.
 *
 * The source dereferences its connection pointer without checking it, so a
 * null or already deleted connection, and a second `uv_close` on its handle,
 * are outcomes of the model (`Crashed`) rather than preconditions.
 */
module Client {
  import opened Uv
  import opened Connection

  class TcpClient {
    var connection: TcpConnection?
    var closed: bool
    var local: SockAddr
    /** The address `uv_tcp_connect` was last issued to. */
    var target: Option<SockAddr>
    /** A connect request is outstanding: its completion callback is still to come. */
    ghost var connecting: bool
    /** The notifications given to the owner, in order. */
    var events: seq<ConnectionEvent>

    ghost predicate Valid()
      reads this
    {
      connecting ==> connection != null
    }

    constructor ()
      ensures Valid() && connection == null && !closed && target.None? && !connecting && events == []
    {
      connection := null;
      closed := false;
      local := SockAddr([], 0);
      target := None;
      connecting := false;
      events := [];
    }

    /**
     * `Connect(ip, port, family)`. `alloc` is what the owner's allocator
     * produced, `setupOk` whether the connection's Setup returned, `addrErr`
     * what `uv_ip4_addr`/`uv_ip6_addr` returned, `connectErr` what
     * `uv_tcp_connect` returned and `local` the local address (None when
     * getsockname fails). For a family that is neither AF_INET nor AF_INET6
     * the source reads `err` and the address buffer uninitialised;
     * `indeterminate` is that error value and `junk` the address the buffer
     * happens to hold. The result is the error code `Connect` returns.
     */
    method Connect(ip: string, port: Port, family: int, alloc: TcpConnection?, setupOk: bool,
                   addrErr: int, indeterminate: int, junk: SockAddr, connectErr: int,
                   local: Option<SockAddr>)
      returns (r: Outcome<int>)
      requires Valid() && !connecting
      requires alloc != null ==> !alloc.deleted && !alloc.handle.closing
      modifies this, alloc, if alloc == null then {} else {alloc.handle}
      ensures Valid() && connection == alloc && closed == old(closed) && events == old(events)
      ensures alloc == null ==> r == Crashed(NullConnection)
      ensures alloc != null && !setupOk ==>
        r == Ok(-1) && alloc.deleted && target == old(target) && !connecting && this.local == old(this.local)
      ensures alloc != null && setupOk && IsInet(family) && addrErr != 0 ==> r == Crashed(AddressParseFailed)
      ensures alloc != null && setupOk && !(IsInet(family) && addrErr != 0) ==>
        // The connect is issued exactly when the address step left no error:
        // to (ip, port) for a known family, to whatever the buffer holds otherwise.
        && var err := if IsInet(family) then 0 else indeterminate;
        && target == (if err == 0 then Some(if IsInet(family) then SockAddr(ip, port) else junk) else old(target))
        && connecting == (err == 0 && connectErr == 0)
        && !alloc.deleted && alloc.listener == this
        && (local.None? ==> r == Threw(LocalAddressFailed) && alloc.handle.closing)
        && (local.Some? ==> r == Ok(if err == 0 then connectErr else err) && this.local == local.value)
      ensures alloc != null && !(setupOk && !(IsInet(family) && addrErr != 0) && local.None?) ==>
        unchanged(alloc.handle)
    {
      connection := alloc;
      if connection == null {
        return Crashed(NullConnection);
      }
      var ok := connection.Setup(this, setupOk);
      if !ok {
        connection.Delete();
        return Ok(-1);
      }
      var err := indeterminate;
      if family == AF_INET || family == AF_INET6 {
        err := addrErr;
        if err != 0 {
          return Crashed(AddressParseFailed);
        }
      }
      if err == 0 {
        target := Some(if IsInet(family) then SockAddr(ip, port) else junk);
        err := connectErr;
        connecting := err == 0;
      }
      if local.None? {
        connection.handle.Close();
        return Threw(LocalAddressFailed);
      }
      this.local := local.value;
      return Ok(err);
    }

    /**
     * `Close`: the first call marks the client closed, clears the back-reference
     * of the connection's handle and closes that handle. Later calls do nothing.
     */
    method Close() returns (crash: Option<Fatal>)
      requires Valid()
      modifies this, if connection == null then {} else {connection.handle}
      ensures Valid() && closed && connection == old(connection) && events == old(events)
      ensures old(closed) ==> crash.None? && (connection != null ==> unchanged(connection.handle))
      ensures !old(closed) ==>
        if connection == null then crash == Some(NullDereference)
        else if connection.deleted then crash == Some(UseAfterFree)
        else if old(connection.handle.closing) then crash == Some(DoubleClose)
        else crash.None? && connection.handle.closing && connection.handle.data == null
    {
      if closed {
        return None;
      }
      closed := true;
      if connection == null {
        return Some(NullDereference);
      }
      if connection.deleted {
        return Some(UseAfterFree);
      }
      connection.handle.data := null;
      if connection.handle.closing {
        return Some(DoubleClose);
      }
      connection.handle.Close();
      return None;
    }

    /**
     * `OnUvConnection`: the completion of the outstanding connect, with
     * `startOk` whether the connection's Start returned.
     */
    method OnUvConnection(status: int, startOk: bool) returns (crash: Option<Fatal>)
      requires Valid() && connecting
      modifies this, connection
      ensures Valid() && !connecting && closed == old(closed) && connection == old(connection)
      // A closed client and a failed connect notify nobody and delete nothing.
      ensures old(closed) || status != 0 ==>
        crash.None? && events == old(events) && unchanged(connection)
      ensures !old(closed) && status == 0 ==>
        if old(connection.deleted) then crash == Some(UseAfterFree)
        else
          && crash.None?
          && (startOk ==> events == old(events) + [NewConnection(connection)] && !connection.deleted)
          && (!startOk ==> events == old(events) && connection.deleted)
    {
      connecting := false;
      if closed {
        return None;
      }
      if status != 0 {
        return None;
      }
      if connection.deleted {
        return Some(UseAfterFree);
      }
      var ok := connection.Start(startOk);
      if !ok {
        connection.Delete();
        return None;
      }
      events := events + [NewConnection(connection)];
      return None;
    }

    /**
     * `OnTcpConnectionClosed`: notifies the owner, then deletes the
     * connection; the `connection` field keeps pointing at it.
     */
    method OnTcpConnectionClosed(c: TcpConnection)
      requires Valid() && !c.deleted
      modifies this, c
      ensures Valid() && c.deleted && connection == old(connection) && closed == old(closed)
      ensures events == old(events) + [ConnectionClosed(c)]
    {
      events := events + [ConnectionClosed(c)];
      c.Delete();
    }
  }

  /** One of the two families `Connect` knows. */
  predicate IsInet(family: int)
  {
    family == AF_INET || family == AF_INET6
  }
}
