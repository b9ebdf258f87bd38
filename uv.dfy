/**
 * Stand-ins for the reactor (libuv) that the endpoint classes drive, and the
 * error taxonomy shared by them.
 *
 * Every libuv call is an oracle: its result is a parameter of the method that
 * makes the call. A libuv handle is an abstract token whose only state is the
 * associated-data slot (the back-reference to the owning endpoint), whether it
 * is active (reading, listening, armed) and whether `uv_close` was issued on it.
 */
module Uv {

  // libuv error codes and socket constants, with their Linux values.
  const UV_EAGAIN: int := -11
  const UV_EMFILE: int := -24
  const UV_EADDRNOTAVAIL: int := -99
  const UV_EADDRINUSE: int := -98
  const UV_UDP_PARTIAL: bv32 := 2
  const AF_INET: int := 2
  const AF_INET6: int := 10

  /** A 16-bit port number, as `uint16_t` holds it. */
  newtype Port = x: int | 0 <= x < 0x1_0000

  /** A 64-bit unsigned integer, as `uint64_t` holds it. */
  newtype U64 = x: int | 0 <= x < 0x1_0000_0000_0000_0000

  datatype Option<+T> = None | Some(value: T)

  /** A local or remote socket address as the endpoints record it. */
  datatype SockAddr = SockAddr(ip: string, port: Port)

  /** The errors that are thrown to a direct caller (LibUVError and its type-error subclass). */
  datatype Error =
    | InvalidIp(ip: string)                  // type error: NormalizeIp could not classify the text
    | HandleInitFailed(err: int)             // uv_udp_init / uv_tcp_init
    | TooManyOpenFiles(port: int)            // bind or listen failed with UV_EMFILE
    | AddressNotAvailable(port: int)         // bind or listen failed with UV_EADDRNOTAVAIL
    | BindFailed(port: int, err: int)        // any other bind or listen failure (corrected fixed-port bind only)
    | NoMorePorts                            // the attempt budget was used up
    | RecvStartFailed(err: int)              // uv_udp_recv_start in the datagram endpoint's constructor
    | ListenFailed(err: int)                 // uv_listen in the listening endpoint's constructor
    | LocalAddressFailed                     // getsockname failed
    | Closed                                 // an operation on a closed timer or signal handler
    | TimerInitFailed(err: int)
    | TimerStartFailed(err: int)
    | TimerStopFailed(err: int)
    | SignalInitFailed(err: int)
    | SignalStartFailed(err: int)

  /**
   * The ways the process dies: an abort (UV_ABORT, a failed UV_ASSERT) or an
   * access that is undefined behaviour in the source.
   */
  datatype Fatal =
    | AddressParseFailed          // uv_ip4_addr / uv_ip6_addr / uv_ipX_name failed
    | UnknownFamily               // a family switch reached its "cannot happen" default
    | NullConnection              // the allocator callback produced no connection
    | AcceptFailed(err: int)      // uv_accept failed
    | RecvStopFailed(err: int)    // uv_udp_recv_stop failed
    | NullDereference             // a null connection pointer is dereferenced
    | UseAfterFree                // a deleted connection is dereferenced
    | DoubleClose                 // uv_close on a handle that is already closing

  /** What a call did: returned a value, threw to its caller, or ended the process. */
  datatype Outcome<+T> = Ok(value: T) | Threw(error: Error) | Crashed(fatal: Fatal)

  /** A libuv handle (uv_udp_t, uv_tcp_t, uv_timer_t, uv_signal_t). */
  class Handle {
    /** The associated-data slot: a non-owning back-reference to the endpoint, or null. */
    var data: object?
    /** Reading, listening, armed or watching, depending on the kind of handle. */
    var active: bool
    /** `uv_close` was issued; libuv frees the handle later, in its close callback. */
    var closing: bool

    constructor ()
      ensures data == null && !active && !closing
    {
      data := null;
      active := false;
      closing := false;
    }

    /** A successful start call (`uv_listen`, `uv_udp_recv_start`, `uv_timer_start`, `uv_signal_start`). */
    method Activate()
      requires !closing
      modifies this
      ensures active && !closing && data == old(data)
    {
      active := true;
    }

    /** A successful stop call (`uv_udp_recv_stop`, `uv_timer_stop`). */
    method Deactivate()
      modifies this
      ensures !active && closing == old(closing) && data == old(data)
    {
      active := false;
    }

    /**
     * `uv_close`. libuv forbids closing a handle twice, so every caller must
     * prove the handle is not already closing.
     */
    method Close()
      requires !closing
      modifies this
      ensures closing && !active && data == old(data)
    {
      closing := true;
      active := false;
    }
  }
}
