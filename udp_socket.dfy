/**
 * The datagram endpoint: a bound UDP handle that receives into a shared
 * buffer and sends either at once (`uv_udp_try_send`) or through an owned
 * request (`uv_udp_send`), reporting each send to an optional completion
 * callback.
 *
 * The results of libuv's calls are parameters. The completion callback is an
 * object that records what it was told, so "called exactly once" and "never
 * called after it was deleted" are stated about that record.
 */
module Udp {
  import opened Uv

  /** Size of the receive buffer handed to libuv. */
  const ReadBufferSize: nat := 65536

  /** A datagram as the endpoint hands it to its owner. */
  datatype Datagram = Datagram(data: seq<bv8>, from: SockAddr)

  /** The completion callback of one `Send`, owned by the endpoint once passed in. */
  class SendCallback {
    /** The arguments of every invocation, in order. */
    var results: seq<bool>
    var deleted: bool

    constructor ()
      ensures results == [] && !deleted
    {
      results := [];
      deleted := false;
    }

    method Invoke(ok: bool)
      requires !deleted
      modifies this
      ensures results == old(results) + [ok] && !deleted
    {
      results := results + [ok];
    }

    method Delete()
      requires !deleted
      modifies this
      ensures deleted && results == old(results)
    {
      deleted := true;
    }
  }

  /** The owned send request (`UvSendData`): a copy of the payload and the callback. */
  class SendRequest {
    /** The handle the request was issued on (`req->handle`). */
    const handle: Handle
    const store: seq<bv8>
    const cb: SendCallback?
    var freed: bool

    constructor (h: Handle, data: seq<bv8>, c: SendCallback?)
      ensures handle == h && store == data && cb == c && !freed
    {
      handle := h;
      store := data;
      cb := c;
      freed := false;
    }

    /** `delete sendData`: frees the copy and deletes the callback with it. */
    method Free()
      requires !freed && (cb != null ==> !cb.deleted)
      modifies this, cb
      ensures freed
      ensures cb != null ==> cb.deleted && cb.results == old(cb.results)
    {
      freed := true;
      if cb != null {
        cb.Delete();
      }
    }
  }

  /** What one `Send` does, in terms of the socket's state and libuv's answers. */
  datatype SendEffect = SendEffect(
    /** Added to `sentBytes`. */
    counted: nat,
    /** The callback's argument when it is called during `Send`. */
    immediate: Option<bool>,
    /** An owned request was handed to libuv; the callback runs on its completion. */
    queued: bool)

  /**
   * `Send(data, len, addr, cb)` on a socket whose closed flag is `closed`,
   * when `uv_udp_try_send` returns `sent` and `uv_udp_send` returns `sendErr`.
   */
  function SendSpec(closed: bool, len: nat, sent: int, sendErr: int): (e: SendEffect)
    // The callback is either called during Send or handed over, never both, never neither.
    ensures e.immediate.Some? <==> !e.queued
    // It is told `true` during Send exactly when try_send sent the whole datagram.
    ensures e.immediate == Some(true) <==> !closed && len > 0 && sent == len
    ensures e.immediate == Some(true) ==> e.counted == len
    // The slow path is taken only on UV_EAGAIN, and then the whole length is counted at once.
    ensures e.queued <==> !closed && len > 0 && sent == UV_EAGAIN && sendErr == 0
    ensures e.queued ==> e.counted == len
    // Nothing is counted for a closed socket, an empty datagram or an error.
    ensures e.counted > 0 ==> !closed && len > 0 && (sent >= 0 || e.queued)
    ensures sent <= len ==> e.counted <= len
  {
    if closed || len == 0 then SendEffect(0, Some(false), false)
    else if sent == len then SendEffect(len, Some(true), false)
    else if sent >= 0 then SendEffect(sent, Some(false), false)
    else if sent != UV_EAGAIN then SendEffect(0, Some(false), false)
    else if sendErr != 0 then SendEffect(0, Some(false), false)
    else SendEffect(len, None, true)
  }

  class UdpSocket {
    const handle: Handle
    /** The shared receive buffer (`ReadBuffer`). */
    const readBuffer: array<bv8>
    var closed: bool
    var sentBytes: nat
    var recvBytes: nat
    var local: SockAddr
    /** What `UserOnUdpDatagramReceived` was given, in order. */
    var received: seq<Datagram>

    /**
     * While open the handle points back at the socket and is reading; once
     * closed the back-reference is null and `uv_close` was issued.
     */
    ghost predicate Valid()
      reads this, handle
    {
      && readBuffer.Length == ReadBufferSize
      && handle.data == (if closed then null else this)
      && (closed <==> handle.closing)
      && (!closed ==> handle.active)
    }

    constructor (h: Handle, buffer: array<bv8>)
      ensures handle == h && readBuffer == buffer
      ensures !closed && sentBytes == 0 && recvBytes == 0 && received == []
    {
      handle := h;
      readBuffer := buffer;
      closed := false;
      sentBytes := 0;
      recvBytes := 0;
      local := SockAddr([], 0);
      received := [];
    }

    /**
     * The constructor: points the handle at the socket, starts receiving
     * (`recvErr`), then reads the local address (`local`, None when
     * getsockname fails). Either failure closes the handle and throws.
     */
    static method Create(h: Handle, recvErr: int, local: Option<SockAddr>) returns (r: Outcome<UdpSocket>)
      requires h.data == null && !h.closing && !h.active
      modifies h
      ensures r.Ok? <==> recvErr == 0 && local.Some?
      ensures recvErr != 0 ==> r == Threw(RecvStartFailed(recvErr)) && h.closing
      ensures recvErr == 0 && local.None? ==> r == Threw(LocalAddressFailed) && h.closing
      ensures r.Ok? ==>
        && fresh(r.value) && fresh(r.value.readBuffer) && r.value.Valid()
        && r.value.handle == h && r.value.local == local.value
        && r.value.sentBytes == 0 && r.value.recvBytes == 0 && r.value.received == []
    {
      var buffer := new bv8[ReadBufferSize];
      var s := new UdpSocket(h, buffer);
      h.data := s;
      if recvErr != 0 {
        h.Close();
        return Threw(RecvStartFailed(recvErr));
      }
      h.Activate();
      if local.None? {
        h.Close();
        return Threw(LocalAddressFailed);
      }
      s.local := local.value;
      return Ok(s);
    }

    /**
     * `Close`: the first call marks the socket closed, clears the handle's
     * back-reference, stops receiving (`stopErr`; a failure aborts) and
     * closes the handle. Later calls do nothing.
     */
    method Close(stopErr: int) returns (crash: Option<Fatal>)
      requires Valid()
      modifies this, handle
      ensures old(closed) ==> crash.None? && closed && unchanged(handle)
      ensures !old(closed) ==> closed && handle.data == null
      ensures !old(closed) ==> (crash.None? <==> stopErr == 0)
      ensures !old(closed) && stopErr != 0 ==> crash == Some(RecvStopFailed(stopErr))
      ensures !old(closed) && stopErr == 0 ==> !handle.active && handle.closing
      ensures crash.None? ==> Valid()
      ensures sentBytes == old(sentBytes) && recvBytes == old(recvBytes) && received == old(received)
      ensures local == old(local)
    {
      if closed {
        return None;
      }
      closed := true;
      handle.data := null;
      if stopErr != 0 {
        return Some(RecvStopFailed(stopErr));
      }
      handle.Deactivate();
      handle.Close();
      return None;
    }

    /**
     * `Send`: `trySent` is what `uv_udp_try_send` returns and `sendErr` what
     * `uv_udp_send` returns. A request handed to libuv is returned; its
     * completion is `OnSend`.
     */
    method Send(data: seq<bv8>, addr: SockAddr, cb: SendCallback?, trySent: int, sendErr: int)
      returns (req: SendRequest?)
      requires Valid()
      requires cb != null ==> !cb.deleted
      modifies this, cb
      ensures Valid()
      ensures var e := SendSpec(old(closed), |data|, trySent, sendErr);
        && sentBytes == old(sentBytes) + e.counted
        && (req != null <==> e.queued)
        && (cb != null ==> cb.results == old(cb.results) + (if e.immediate.Some? then [e.immediate.value] else []))
        // The callback is deleted on every path except a closed socket or an empty
        // datagram (where it is left alive) and a queued send (where the request owns it).
        && (cb != null ==> (cb.deleted <==> !old(closed) && |data| > 0 && !e.queued))
      ensures req != null ==> fresh(req) && !req.freed && req.handle == handle && req.store == data && req.cb == cb
      ensures closed == old(closed) && recvBytes == old(recvBytes) && received == old(received)
      ensures local == old(local)
    {
      if closed {
        if cb != null {
          cb.Invoke(false);
        }
        return null;
      }
      if |data| == 0 {
        if cb != null {
          cb.Invoke(false);
        }
        return null;
      }
      var sent := trySent;
      if sent == |data| {
        sentBytes := sentBytes + sent;
        if cb != null {
          cb.Invoke(true);
          cb.Delete();
        }
        return null;
      }
      if sent >= 0 {
        sentBytes := sentBytes + sent;
        if cb != null {
          cb.Invoke(false);
          cb.Delete();
        }
        return null;
      }
      if sent != UV_EAGAIN {
        if cb != null {
          cb.Invoke(false);
          cb.Delete();
        }
        return null;
      }
      var sendData := new SendRequest(handle, data, cb);
      if sendErr != 0 {
        if cb != null {
          cb.Invoke(false);
        }
        sendData.Free();
        return null;
      }
      sentBytes := sentBytes + |data|;
      return sendData;
    }

    /** `OnUvSend`: tells the callback whether the queued send completed. */
    method OnUvSend(status: int, cb: SendCallback?)
      requires cb != null ==> !cb.deleted
      modifies cb
      ensures cb != null ==> cb.results == old(cb.results) + [status == 0] && !cb.deleted
    {
      if status == 0 {
        if cb != null {
          cb.Invoke(true);
        }
      } else {
        if cb != null {
          cb.Invoke(false);
        }
      }
    }

    /** `OnUvRecvAlloc`: libuv always gets the whole shared buffer. */
    method OnUvRecvAlloc(suggestedSize: nat) returns (buf: array<bv8>, len: nat)
      requires Valid()
      ensures buf == readBuffer && len == buf.Length == ReadBufferSize
    {
      buf := readBuffer;
      len := ReadBufferSize;
    }

    /**
     * `OnUvRecv`: libuv wrote `nread` bytes (or an error code) into the
     * buffer. Only a complete, non-empty datagram is counted and delivered.
     */
    method OnUvRecv(nread: int, flags: bv32, from: SockAddr)
      requires Valid()
      requires nread <= ReadBufferSize
      modifies this
      ensures Valid()
      ensures var delivered := nread > 0 && flags & UV_UDP_PARTIAL == 0;
        && recvBytes == old(recvBytes) + (if delivered then nread else 0)
        && received == old(received) + (if delivered then [Datagram(readBuffer[..nread], from)] else [])
      ensures closed == old(closed) && sentBytes == old(sentBytes) && local == old(local)
    {
      if nread == 0 {
        return;
      }
      if flags & UV_UDP_PARTIAL != 0 {
        return;
      }
      if nread > 0 {
        recvBytes := recvBytes + nread;
        received := received + [Datagram(readBuffer[..nread], from)];
      }
    }
  }

  /**
   * The `onSend` trampoline: the completion reaches the socket only while the
   * handle still points back at it; the request is freed either way.
   */
  method OnSend(req: SendRequest, status: int, socket: UdpSocket)
    requires !req.freed && (req.cb != null ==> !req.cb.deleted)
    requires req.handle == socket.handle && socket.Valid()
    modifies req, req.cb
    ensures req.freed
    ensures req.cb != null ==>
      && req.cb.deleted
      && req.cb.results == old(req.cb.results) + (if old(socket.closed) then [] else [status == 0])
  {
    var cb := req.cb;
    if req.handle.data != null {
      socket.OnUvSend(status, cb);
    }
    req.Free();
  }

  /** The `onAlloc` and `onRecv` trampolines: a closed socket receives nothing. */
  method OnRecv(socket: UdpSocket, nread: int, flags: bv32, from: SockAddr)
    requires socket.Valid() && nread <= ReadBufferSize
    modifies socket
    ensures socket.Valid() && socket.closed == old(socket.closed)
    ensures old(socket.closed) ==> socket.recvBytes == old(socket.recvBytes) && socket.received == old(socket.received)
    ensures !old(socket.closed) ==>
      var delivered := nread > 0 && flags & UV_UDP_PARTIAL == 0;
      && socket.recvBytes == old(socket.recvBytes) + (if delivered then nread else 0)
      && socket.received == old(socket.received) + (if delivered then [Datagram(socket.readBuffer[..nread], from)] else [])
  {
    if socket.handle.data != null {
      var buf, len := socket.OnUvRecvAlloc(ReadBufferSize);
      socket.OnUvRecv(nread, flags, from);
    }
  }
}
