# libuvutils core, modelled in Dafny

libuvutils wraps libuv in a few C++ classes:

- a datagram endpoint (`UdpSocket`);
- a listening TCP endpoint that owns its accepted connections (`TcpServer`);
- an outbound TCP endpoint with one connection (`TcpClient`);
- a timer (`Timer`);
- a signal watcher (`SignalsHandler`);
- a port manager (`PortManager`). It validates and normalizes IP text and binds a UDP or TCP handle, either to a port chosen from 52000..59999 or to a fixed port.

This project models those six files, one module each:

- `PortManager` in `port_manager.dfy`, with worked examples in `port_manager_examples.dfy`;
- `Udp` in `udp_socket.dfy`;
- `Server` in `tcp_server.dfy`;
- `Client` in `tcp_client.dfy`;
- `Timers` in `timer.dfy`;
- `Signals` in `signals_handler.dfy`.

Two modules support them:

- `Uv` (`uv.dfy`) holds the libuv stand-ins, the error codes and the outcome types.
- `Connection` (`tcp_connection.dfy`) is a stand-in for the TCP connection object.

How the model works:

- **libuv is an oracle.** Every value that libuv, the C library or the owner's callbacks return is a parameter of the method that makes the call: error codes, the parsed-and-printed address, the allocator's product and the owner's answer.
- **Handles are tokens.** A libuv handle is a `Uv.Handle` object with three pieces of state: its associated-data back-reference, whether it is active, and whether `uv_close` was issued. `Handle.Close` requires that the handle is not already closing, so every close in the model is proved to happen at most once.
- **Outcomes.** A call that throws (`UV_THROW_ERROR`, `UV_THROW_TYPE_ERROR`) returns `Threw(e)`. A call that ends the process returns `Crashed(f)`. That covers `UV_ABORT`, a failed `UV_ASSERT`, and a null or dangling dereference that is undefined behaviour in C++.
- **Classes keep an invariant.** Each class that owns libuv handles has a `Valid()` predicate that every method preserves.
  - For `Udp.UdpSocket` and `Server.TcpServer` it says that while the endpoint is open, its handle points back at it and is active. Once the endpoint is closed, the back-reference is null and the handle is closing.
  - For `Timers.Timer` and `Signals.SignalsHandler` it says that the handles point back at their owner and are closing exactly when the owner is closed.
  - For `Client.TcpClient` it says only that a pending connect has a connection.

The address classifier `GetFamily` is a loop over a C string. It is modelled twice:

- as the method `PortManager.GetFamily`, with the loop's own 16-bit counters;
- as a declarative verdict `PortManager.FamilyOf`, stated through groups (the text between dots) and a good-group rule.

The method is proved equal to the verdict. The verdict is then related to the dotted-quad rule of RFC 3986 (section 3.2.2) and to the round trip between splitting a text at its dots and gluing groups back together.

Where the code and its comments disagree, the model follows the code:

- **Leading zero.** The comment above `GetFamily` (PortManager.cpp:515-525) calls "192.168.01.1" invalid, but the code accepts any group worth at most 255 that does not start with two zeros (`PortManagerExamples.LeadingZeroAccepted`, `PortManagerExamples.LargeGroupRejected`).
- **Spaces around the address.** The comment calls a space-padded address valid. The code returns 1 for trailing spaces, which is neither family, so `NormalizeIp` throws (`PortManagerExamples.PaddedAddressRefused`).
- **Loose group counts.** "1.2.3" is called AF_INET6, and "1.2.3." is called AF_INET although it is no RFC 3986 dotted quad.
- **Colons, and no IPv6 at all.** Any text with a colon before its first NUL is rejected, so an IPv6 literal in colon notation makes `NormalizeIp` throw an invalid-ip error (`PortManager.ColonTextThrows`). Up to its first NUL, a text given the verdict AF_INET6 is empty or made of leading spaces followed by digits and dots (`PortManager.ClassifiedTextIsDotted`), such as "1.2.3". libuv's IPv6 parser refuses such a text, so `NormalizeIp` then aborts. Neither Bind can therefore bind an IPv6 address.
- **Unbind.** `Unbind` only checks the port's range. It releases nothing, and the port tables are never used.

## Model

| member | source | states |
|---|---|---|
| PortManager.CText | PortManager.cpp:528-596 | the C string view of a text is its longest NUL-free prefix |
| PortManager.LeadingSpaces | PortManager.cpp:537-539 | the count of leading spaces: all of them are spaces and the next character is not |
| PortManager.BodyLength | PortManager.cpp:542-588 | the length of the longest prefix made of digits and dots |
| PortManager.Split | PortManager.cpp:542-556 | a text splits into at least one group |
| PortManager.SplitJoin | PortManager.cpp:542-588 | gluing the groups of any text back with dots gives the text |
| PortManager.SplitOfJoin | PortManager.cpp:542-588 | splitting glued dot-free groups gives the groups back |
| PortManager.SplitNoDots | PortManager.cpp:542-556 | no group holds a dot |
| PortManager.SplitCount | PortManager.cpp:542-556 | a text with n dots has n + 1 groups |
| PortManager.SplitSnoc | PortManager.cpp:542-588 | appending a dot opens an empty group; any other character extends the last group |
| PortManager.JoinSnoc | PortManager.cpp:542-556 | gluing one more group adds a dot and that group |
| PortManager.JoinExtendLast | PortManager.cpp:572-588 | extending the last group extends the glued text by that character |
| PortManager.SplitDotFree | PortManager.cpp:542-556 | a dot-free text is one group |
| PortManager.SplitAppendGroup | PortManager.cpp:542-556 | a dot and a dot-free group append exactly that group |
| PortManager.ValueNonNegative | PortManager.cpp:572-588 | a digit string has a non-negative value |
| PortManager.ValueZero | PortManager.cpp:572-588 | a digit string is worth 0 exactly when all its digits are zeros |
| PortManager.GoodGroupInit | PortManager.cpp:572-588 | a prefix of a good group is good and the value grows by one decimal digit |
| PortManager.GroupStep | PortManager.cpp:572-588 | the loop's zero test and its 255 bound decide exactly whether a longer group is good |
| PortManager.GoodGroupLowerBound | PortManager.cpp:572-588 | a group not starting with two zeros is worth at least 10^(length-2) |
| PortManager.GoodGroupShort | PortManager.cpp:572-588 | a good group has at most four digits, so the 16-bit digit counter never wraps |
| PortManager.WellFormedInit | PortManager.cpp:542-588 | dropping the last character of a good body keeps it good |
| PortManager.WellFormedPrefix | PortManager.cpp:542-588 | every prefix of a good body is good, so the loop rejects at the first bad character |
| PortManager.WellFormedIsBody | PortManager.cpp:542-588 | a good body holds only digits and dots |
| PortManager.BodyFamily | PortManager.cpp:542-595 | a text of digits and dots is rejected when bad, AF_INET with three dots (16-bit count), AF_INET6 otherwise |
| PortManager.CTextWhole | PortManager.cpp:528-596 | a text without NUL is seen whole |
| PortManager.BodyLengthIs | PortManager.cpp:542-588 | BodyLength is exactly the length of the digit-and-dot prefix |
| PortManager.TrailingSpacesGiveOne | PortManager.cpp:559-570 | a good three-dot body followed only by spaces gives 1, which is neither family |
| PortManager.LeadingSpaceIgnored | PortManager.cpp:537-539 | a leading space never changes the verdict |
| PortManager.DigitsHaveNoDot | PortManager.cpp:572-588 | a digit group holds no dot |
| PortManager.JoinIsBody | PortManager.cpp:542-588 | glued digit groups are made of digits and dots only |
| PortManager.JoinedShape | PortManager.cpp:542-588 | glued digit groups are good exactly when the groups are, and have one dot fewer than groups |
| PortManager.JoinedFamily | PortManager.cpp:542-595 | glued digit groups are rejected when a non-last group is empty or any group is bad, else AF_INET for four groups and AF_INET6 for any other count |
| PortManager.BodyVerdict | PortManager.cpp:542-595 | the verdict on a body from its goodness and dot count |
| PortManager.FamilyOf | PortManager.cpp:528-596 | the classifier answers 0 (rejected), 1 (trailing spaces), AF_INET or AF_INET6 |
| PortManager.Verdict | PortManager.cpp:541-595 | after the leading spaces, a family is given only to a text made wholly of digits and dots, and 1 only to a text ending in a space |
| PortManager.ClassifiedTextIsDotted | PortManager.cpp:528-596 | a text given either family holds only spaces, digits and dots before its first NUL |
| PortManager.ColonRejected | PortManager.cpp:559-570 | any text with a colon before its first NUL is rejected |
| PortManager.ValueOfShort | PortManager.cpp:572-588 | the value of a one- to three-digit group, digit by digit |
| PortManager.DecOctetIsGoodGroup | PortManager.cpp:515-525 | an RFC 3986 dec-octet is exactly a non-empty good group without a leading zero |
| PortManager.LeadingDigitBound | PortManager.cpp:572-588 | a group with a non-zero first digit is worth at least 10^(length-1) |
| PortManager.IPv4AddressAccepted | PortManager.cpp:515-525 | every RFC 3986 dotted quad is classified AF_INET |
| PortManager.LoopStart | PortManager.cpp:534-535 | the loop's initial counters describe the empty body |
| PortManager.DotReject | PortManager.cpp:542-556 | a dot with no digit before it in its group makes the body bad |
| PortManager.DotStep | PortManager.cpp:542-556 | a dot after a digit bumps the 16-bit dot count and starts an empty group |
| PortManager.DigitSnoc | PortManager.cpp:572-588 | a digit on a good body extends only its last group and leaves the dot count |
| PortManager.DigitStep | PortManager.cpp:572-588 | the loop's two digit tests reject exactly the bodies that go bad, otherwise the loop state moves on |
| PortManager.GroupDigit | PortManager.cpp:572-588 | the digit step on the last group, with the loop's 16-bit value, length and leading-zero flag |
| PortManager.RejectPrefix | PortManager.cpp:542-588 | a bad body prefix decides the verdict whatever follows |
| PortManager.SkipSpaces | PortManager.cpp:537-539 | where the leading-space loop stops, and what text follows |
| PortManager.LeadingSpacesIs | PortManager.cpp:537-539 | LeadingSpaces is exactly the length of the space prefix |
| PortManager.ScanBody | PortManager.cpp:541-595 | the classifier's main loop returns the declarative verdict on the text after the spaces |
| PortManager.OnlySpacesFrom | PortManager.cpp:559-566 | the trailing-space scan answers true exactly when only spaces follow |
| PortManager.EndOfText | PortManager.cpp:541-595 | inside the text the C string walk sees no NUL |
| PortManager.GetFamily | PortManager.cpp:528-596 | the classifier over a C string returns FamilyOf of its text |
| PortManager.NormalizeIp | PortManager.cpp:289-338 | throws an invalid-ip error exactly when the text is neither family; succeeds with libuv's printed form when parse and print succeed; aborts otherwise |
| PortManager.AddressFor | PortManager.cpp:34-85 | throws exactly when NormalizeIp throws; on success the address is the printed text, of a known family, IPv6-only exactly when AF_INET6 |
| PortManager.Propagate | PortManager.cpp:34 | a failed address step is passed on as the same kind of failure |
| PortManager.PrepareAddress | PortManager.cpp:34-85 | the address step of both Binds computes AddressFor and leaves the printed text in the caller's string |
| PortManager.ColonTextThrows | PortManager.cpp:333-335 | a text with a colon makes the address step throw an invalid-ip error |
| PortManager.ColonFormAborts | PortManager.cpp:57-85 | should the printed form hold a colon, the family switch ends the process with "unknown IP family" |
| PortManager.DottedQuadPrepared | PortManager.cpp:57-85 | a dotted quad coming back from the round trip is bound as IPv4, not IPv6-only |
| PortManager.AttemptError | PortManager.cpp:150-234 | an attempt's error is 0 exactly when the bind and, for TCP, the listen succeed; a bind error takes precedence, and for TCP after a good bind it is the listen's error |
| PortManager.Classify | PortManager.cpp:150-262 | an attempt succeeds exactly on a good init and bind (and listen); a failed init throws its error; EMFILE throws "too many open files" and EADDRNOTAVAIL "address not available" for that port; any other error moves on |
| PortManager.StartIdx | PortManager.cpp:88 | the start index lies in 52000..59999 |
| PortManager.CandidateClosedForm | PortManager.cpp:104-107 | after k steps the scan is at 52000 + (start - 52000 + k) mod 8000 |
| PortManager.NextPortIdx | PortManager.cpp:104-107 | the next index never falls below 52000; inside the range it is one up, wrapping from 59999 to 52000 |
| PortManager.Candidate | PortManager.cpp:104-110 | from a start inside the range every port tried lies in 52000..59999, so the 16-bit cast keeps it |
| PortManager.CandidatesDistinct | PortManager.cpp:92-110 | within 8000 steps no port is tried twice |
| PortManager.Scan | PortManager.cpp:92-262 | the scan ends on a port only when that port's attempt succeeded, and fails only with a handle-init, EMFILE or EADDRNOTAVAIL error |
| PortManager.ScanStep | PortManager.cpp:92-262 | one attempt: success ends the scan on that port, a throwing error ends it with that error, any other error moves on |
| PortManager.ScanExhausted | PortManager.cpp:94-101 | the scan runs out of attempts exactly when every remaining attempt moves on |
| PortManager.ScanFoundBound | PortManager.cpp:92-232 | the port a scan ends on is in range and bound (and listening) |
| PortManager.ScanFailedAtCandidate | PortManager.cpp:234-262 | the error a scan throws is the one a tried port gave |
| PortManager.TryBind | PortManager.cpp:150-234 | one attempt classifies libuv's answers; a kept handle is open and, for TCP, listening; a failed handle is closed |
| PortManager.Bind | PortManager.cpp:31-276 | the scanning Bind propagates address failures; otherwise it throws "no more ports" when every attempt moves on, throws the first throwing error, or returns a fresh open handle on the scan's port |
| PortManager.ScanPorts | PortManager.cpp:88-275 | the attempt loop returns exactly what the scan specification gives |
| PortManager.BindFixed | PortManager.cpp:340-513 | the fixed-port Bind as written: on a retryable error it returns a handle that is already closing; every returned binding has the fixed port, a cleared back-reference and IPv6-only exactly for an AF_INET6 address |
| PortManager.BindFixedChecked | PortManager.cpp:340-513 | the corrected fixed-port Bind throws on every bind error and never returns a closing handle; a bound handle has a cleared back-reference and is IPv6-only exactly for an AF_INET6 address |
| PortManager.ScannedPortUnbindsQuietly | PortManager.cpp:278-287 | a port the scan hands out is inside the range, so Unbind never complains about it |
| PortManagerExamples.Join3 | PortManager.cpp:542-556 | three groups glue with two dots |
| PortManagerExamples.Join4 | PortManager.cpp:542-556 | four groups glue with three dots |
| PortManagerExamples.FourGroups | PortManager.cpp:542-595 | four digit groups are AF_INET when all are good and none but the last is empty, and rejected otherwise |
| PortManagerExamples.ThreeGroups | PortManager.cpp:542-595 | three digit groups are AF_INET6 when all are good and none but the last is empty, and rejected otherwise |
| PortManagerExamples.LeadingZeroAccepted | PortManager.cpp:515-525 | "192.168.01.1" is AF_INET |
| PortManagerExamples.DoubleZeroRejected | PortManager.cpp:572-588 | "00.1.1.1" is rejected |
| PortManagerExamples.LargeGroupRejected | PortManager.cpp:572-588 | "256.1.1.1" is rejected |
| PortManagerExamples.ThreeGroupsCalledIPv6 | PortManager.cpp:591-595 | "1.2.3" is AF_INET6 |
| PortManagerExamples.TrailingDotAccepted | PortManager.cpp:542-595 | "1.2.3." is AF_INET, although its empty fourth group makes it no RFC 3986 dotted quad |
| PortManagerExamples.PaddedFourGroups | PortManager.cpp:537-570 | four good groups with a space on each side give 1 |
| PortManagerExamples.PaddedAddressRefused | PortManager.cpp:515-525 | " 1.1.1.1 " gives 1, which NormalizeIp refuses |
| Udp.SendSpec | UdpSocket.cpp:112-204 | the callback is called during Send or handed to a queued request, never both; it is told true exactly on a full try-send; the request path is taken exactly on EAGAIN with a good uv_udp_send; nothing is counted for a closed socket, an empty datagram or an error |
| Udp.SendCallback.Invoke | UdpSocket.cpp:312-325 | one more result is recorded |
| Udp.SendCallback.Delete | UdpSocket.cpp:137-175 | the callback is deleted and its record kept |
| Udp.SendRequest.Free | UdpSocket.cpp:32-43 | freeing the request deletes its callback |
| Udp.UdpSocket.Create | UdpSocket.cpp:52-76 | succeeds exactly when receiving starts and the local address is read; either failure closes the handle and throws |
| Udp.UdpSocket.Close | UdpSocket.cpp:84-102 | the first call clears the back-reference, stops receiving (a failure aborts) and closes the handle, which is then inactive; later calls change nothing |
| Udp.UdpSocket.Send | UdpSocket.cpp:112-204 | sent bytes, the callback's record and ownership, and the queued request all follow SendSpec |
| Udp.UdpSocket.OnUvSend | UdpSocket.cpp:312-325 | the callback is told whether the queued send completed |
| Udp.UdpSocket.OnUvRecvAlloc | UdpSocket.cpp:273-279 | libuv always gets the whole 65536-byte shared buffer |
| Udp.UdpSocket.OnUvRecv | UdpSocket.cpp:281-310 | exactly the complete non-empty datagrams are counted and delivered, with the bytes libuv wrote |
| Udp.OnSend | UdpSocket.cpp:32-43 | the completion reaches the callback only while the socket is open; the request and its callback are freed either way |
| Udp.OnRecv | UdpSocket.cpp:16-30 | a closed socket receives nothing; an open one receives as OnUvRecv |
| Server.TcpServer.Create | TcpServer.cpp:27-52 | succeeds exactly when listening starts and the local address is read; either failure closes the handle and throws |
| Server.TcpServer.Close | TcpServer.cpp:61-80 | the first call deletes every owned connection once and closes the handle; the set is kept and nobody is notified |
| Server.TcpServer.OnUvConnection | TcpServer.cpp:161-214 | a connection that is set up, accepted and started is offered to the owner and kept only if accepted; a failed setup or start deletes it; a null allocation or a failed accept aborts |
| Server.TcpServer.OnTcpConnectionClosed | TcpServer.cpp:216-229 | removes exactly that connection, notifies the owner and deletes it |
| Client.TcpClient.Connect | TcpClient.cpp:39-110 | a failed setup deletes the connection and returns -1; otherwise the connect is issued exactly when the address step gives no error, to (ip, port) for AF_INET and AF_INET6 and to the uninitialised buffer's contents for any other family; the handle is left alone unless getsockname fails, and the result is that error, the connect's error or a thrown local-address failure |
| Client.TcpClient.Close | TcpClient.cpp:112-127 | the first call closes the connection's handle, or crashes on a null or deleted connection or on a handle already closing |
| Client.TcpClient.OnUvConnection | TcpClient.cpp:204-227 | a completed connect starts the connection and notifies the owner; a failed start deletes it |
| Client.TcpClient.OnTcpConnectionClosed | TcpClient.cpp:229-239 | notifies the owner and deletes the connection; the field keeps pointing at it |
| Connection.TcpConnection.Setup | TcpServer.cpp:184-188 | a successful setup records the listener |
| Connection.TcpConnection.Start | TcpServer.cpp:200-205 | a successful start marks the connection reading |
| Connection.TcpConnection.Delete | TcpServer.cpp:226-228 | the connection is marked deleted |
| Timers.Timer.Create | Timer.cpp:22-37 | a failed init throws and leaves no handle; otherwise the timer is open and not armed |
| Timers.Timer.Close | Timer.cpp:46-56 | the first call closes the handle; later calls change nothing |
| Timers.Timer.Arm | Timer.cpp:58-122 | a successful `uv_timer_start` leaves the handle active with the given timeout and repeat |
| Timers.Timer.Start | Timer.cpp:58-75 | on an open timer it stores (timeout, repeat), stops an armed timer, then arms it with those values; each failure throws, leaving the armed values as they were and, on a stop failure, the handle untouched |
| Timers.Timer.Stop | Timer.cpp:77-87 | disarms an open timer or throws the stop error |
| Timers.Timer.Reset | Timer.cpp:89-106 | an armed timer with a non-zero repeat is re-armed with (repeat, repeat); otherwise nothing happens |
| Timers.Timer.Restart | Timer.cpp:108-122 | stops an armed timer, then arms it with the stored values; each failure throws, leaving the armed values as they were and, on a stop failure, the handle untouched |
| Signals.SignalsHandler.AddSignal | SignalsHandler.cpp:44-70 | registers a fresh watching handle exactly when the handler is open and init and start succeed; each failure throws and registers nothing |
| Signals.SignalsHandler.Close | SignalsHandler.cpp:31-42 | every registered handle ends closed, each closed once |
| Signals.SignalsHandler.OnUvSignal | SignalsHandler.cpp:72-76 | the listener is told the signal number |
| Uv.Handle.Close | PortManager.cpp:476-477 | uv_close may be issued only once per handle |

## Left out

- libuv itself (the loop, sockets, the close callbacks that free handles, `uv_ip4_name` and the other printers) is out of scope. Its answers are parameters.
- Logging (`UV_DEBUG_DEV`, `UV_WARN_DEV`, `UV_ERROR`), `Dump` and error-message texts carry no behaviour and are not modelled.
- `GetAddressInfo` and `SetLocalAddress` are not modelled. The local address they produce is a parameter, `None` when getsockname fails.
- `rand()` is the parameter `seed`.
- `PortManager.NormalizeIp`: libuv's parse-and-print round trip is the parameter `canonical`, and nothing ties it to the text. For a text classified AF_INET6, which holds only digits and dots, libuv's IPv6 parser always fails, so `canonical` is `None` there in practice; the model also admits other values, and `PortManager.ColonFormAborts` is about those.
- `PortManager.Bind` (scanning) reads the placeholder check "port not in use" at PortManager.cpp:121, which is `if (false)` in the source. The model treats it as never taken. The unused port tables are not modelled.
- `PortManager.Unbind` only compares the port with the range and logs; it has no row because its result is that comparison.
- `PortManager.Bind`, `PortManager.BindFixed` and `PortManager.BindFixedChecked` do not model the `UV_UDP_IPV6ONLY` flag bits themselves; the `ipv6Only` field records the decision.
- `Timers.Timer`: `OnUvTimer` and the `onTimer` trampoline only forward to the listener and are not modelled. The destructor is not modelled.
- The destructors of all classes, and libuv's asynchronous `onClose` callbacks that delete the handles, are not modelled.
- `Udp.UdpSocket`: the static receive buffer that all sockets share is a per-socket array here, so aliasing between sockets is not captured.
- `Udp.UdpSocket.Send`: the `int` cast of `len` when comparing it with `uv_udp_try_send`'s result is not modelled; datagram lengths are unbounded.
- `Udp.UdpSocket.Send`: `sentBytes` and `recvBytes` are unbounded naturals, not 64-bit counters that could wrap.
- `Udp.UdpSocket.Send` calls the callback with false on a closed socket or an empty datagram but never deletes it. The model keeps that behaviour (the callback stays alive) and does not list it as a finding, since the owner may still hold it.
- UdpSocket.hpp, TcpServer.hpp and TcpConnection.cpp are not part of this model. `Connection.TcpConnection` is a stand-in whose `Setup`, `Start` and deletion are oracles.
- `Server.TcpServer`: the `onConnection` trampoline only forwards to `OnUvConnection` and has no row.
- `Client.TcpClient.Connect` requires that no connect is outstanding. The source reuses one request struct, and a second connect while one is in flight is outside what it supports.
- `Client.TcpClient.Connect`: for a family other than AF_INET and AF_INET6 the source reads an uninitialised `err` and passes an uninitialised address buffer to `uv_tcp_connect`. The parameters `indeterminate` and `junk` stand for those values; whatever the buffer holds is taken as a well-formed address.
- `Client.TcpClient.Connect`: when getsockname fails, the connection's handle is closed and the error thrown, but the connection is not deleted. A later `Close` then crashes with a double close, as the source does.
- `Signals.SignalsHandler.AddSignal`: a handle whose `uv_signal_start` fails is initialised but neither closed nor registered (a leak). The model does not track that handle.
- Floating point, threads (`UVThread`, `Thread`, `Condition`, `UVMutex`) and the `UdpClient`/`UdpServer` subclasses are outside the core.

## Findings

| source | as written | input that shows it | evidently intended | confidence | as-written member | corrected member |
|---|---|---|---|---|---|---|
| PortManager.cpp:395-512 | a bind error other than EMFILE and EADDRNOTAVAIL closes the handle (476-477) and then leaves the single-pass `do { } while (0)` loop, so the handle is returned to the caller already passed to `uv_close` | TCP, fixed port, `uv_tcp_bind` fails with EADDRINUSE (-98) | throw the bind error and never hand back a closing handle | not executed | PortManager.BindFixed | PortManager.BindFixedChecked |
