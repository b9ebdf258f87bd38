/**
 * A stand-in for the TCP connection object that the listening and outbound
 * endpoints allocate, accept, start and delete. Its own implementation
 * (TcpConnection.cpp) is not part of this model: its `Setup` and `Start`
 * either succeed or throw, which is an oracle parameter here, and deleting
 * it twice is a verification obligation.
 */
module Connection {
  import opened Uv

  /** A notification an endpoint gives its owner about a connection. */
  datatype ConnectionEvent =
    | NewConnection(connection: TcpConnection)     // UserOnNewTcpConnection
    | ConnectionClosed(connection: TcpConnection)  // UserOnTcpConnectionClosed

  class TcpConnection {
    /** The connection's own stream handle. */
    const handle: Handle
    /** The endpoint it reports its closure to, set by `Setup`. */
    var listener: object?
    /** `Start` succeeded: the connection is reading. */
    var started: bool
    /** `delete` was applied to it. */
    var deleted: bool

    constructor (h: Handle)
      ensures handle == h && listener == null && !started && !deleted
    {
      handle := h;
      listener := null;
      started := false;
      deleted := false;
    }

    /** `Setup(listener, ...)`: `ok` says whether it returned or threw. */
    method Setup(l: object, ok: bool) returns (success: bool)
      requires !deleted
      modifies this
      ensures success == ok
      ensures listener == (if ok then l else old(listener))
      ensures started == old(started) && !deleted
    {
      success := ok;
      if ok {
        listener := l;
      }
    }

    /** `Start()`: `ok` says whether it returned or threw. */
    method Start(ok: bool) returns (success: bool)
      requires !deleted
      modifies this
      ensures success == ok && started == (ok || old(started))
      ensures listener == old(listener) && !deleted
    {
      success := ok;
      if ok {
        started := true;
      }
    }

    /** `delete connection`: a second delete of the same object is undefined behaviour. */
    method Delete()
      requires !deleted
      modifies this
      ensures deleted && started == old(started) && listener == old(listener)
    {
      deleted := true;
    }
  }
}
