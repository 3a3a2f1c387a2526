# Protogate: a verified model of the tunnel

Protogate lets a client reach a service behind an agent over one agent connection. This project models
the parts of it that have to be right for every interleaving and every input, and proves what they keep.

- **TCP tunnel** (`TcpProtocol`, `FrameLayout`, `ConnectionIds`, `FrameScanner`, `TcpForwarder`, `TcpProxy`,
  `Streams`, `Tunnel`, `TunnelInvariant`, `TunnelTheorems`, `TunnelService`, `TunnelAgent`,
  `TunnelProgress`): the frame layouts, the printed and parsed connection
  ids, the agent's hand-written frame scanner, the server's table with its 64 KB windows and byte
  counters, and the agent's table that queues data until its local connect finishes. `Tunnel` is a state
  machine over the server, the wire and the agent with fourteen kinds of step; the theorems hold after
  every list of steps, with any number of interleaved connections, any timing of connects, closes and
  client writes, and whatever bytes the server reads from the agent.
- **Multiplexer** (`ProtocolMultiplexer`): the length-prefixed frames and the output queue.
- **HTTP path** (`Text`, `HttpText`, `HttpParsing`, `HttpTranslation`, `AgentSession`, `AgentRequests`,
  `ResponseAssembly`, `ResponseText`): the request parser and printer, the header pairs of section 8.3.1 of RFC 9113, the
  request rebuilt at the agent from interleaved streams, and the table of callbacks at the server with
  its timeouts and disconnects.
- **Rate limiting** (`RateLimiter`, `RateTheorems`, `RateBounds`, `BurstPaces`, `BurstBounds`, `Multiples`,
  `TunnelRateLimiter`): the lazily refilled token bucket, exactly and under a clock finer than the
  microseconds it counts in.
- **Allowlist** (`AddressBits`, `Products`, `Cidr`, `IpAllowlist`, `ConnectionAdmission`, `AllowlistText`): bit masks on bytes
  against integer intervals (section 3.1 of RFC 4632, section 2.3 of RFC 4291), and the checks a client
  passes before it gets a connection.
- **Cache and tokens** (`TtlCache`, `TokenRotation`): expiry, sweeping, and the two-token rotation window.
- **Certificates** (`CertificateMatch`): the wildcard search over an unordered table.

Objects that the program updates in place are classes here; each method's contract gives the new state as
a function of the old one (`OnData`, `AfterSend`, `AfterEvent`, ...), and the theorems are about those
functions. Loops of the program are loops here.

## Conventions

Bytes are integers below 256; counters wrap at 2^64 and sequence numbers at 2^32 as written. The
program's shifts and masks on frame fields are written as quotients and remainders; the address masks are
bit operations on 8-bit vectors. `hton16` and `hton32` are an arbitrary pair of involutions, a
`ByteOrder`; a `Machine` fixes them to one of the two layouts a machine can have. Doubles are reals.
Every operation reads the clock once, and readings do not go back. Iteration over an unordered table
visits its entries in an order the caller cannot know.

One fact about the surroundings is a condition of the steps of `Tunnel`: a new connection id repeats no
earlier one and no id that a CLOSE frame spells. Nothing else is assumed of the order, the timing or the
cuts of reads and writes. The state records three things instead, and the theorems that need one say so:
whether every read of the agent has ended on a frame boundary (`agentFramed`), whether every read of the
server has been the agent's next frame (`serverFramed`), and, for each connection, whether a payload has
arrived while a write to the client was outstanding (`overlapped`). `ReadsDeliverStream`,
`CutReadHandsOverPayload`, `ServerHandlesFirstFrameOnly`, `WindowLedger` and `ArrivalDeliveredOnce` say what
goes wrong without them.

## Where the code does less than it promises

Each of these is a theorem below, with the exact condition.

- `TCPDataFrame::deserialize` undoes `serialize` exactly when `hton32` leaves the sequence number and the
  length as they are (`DataRoundTrip`); on a little-endian machine it misreads even an empty frame
  numbered 1 (`LittleEndianMisreadsData`). The inline decoders of server and agent always undo it
  (`InlineDataInvertsEncode`).
- A CLOSE sent by the server carries characters of the printed id instead of the id. It names its own
  connection exactly when the id is the one with 0x2d in bytes 8 and 13 and 0x33 in all others
  (`CloseFrameNamesItsConnection`).
- Leftover bytes of a read are not kept. All frames of a stream arrive exactly when every read ends on a
  frame boundary (`ReadsDeliverStream`). A read that ends behind a DATA frame's header makes the agent
  take the payload for frames nobody sent, so the safety of `NeverWrongBytes` does not extend to such
  reads (`CutReadHandsOverPayload`). The bytes in front of the cut go to the HTTP/2 library, which must
  accept them: if it reports an error, the agent reads nothing more
  (tunnel-agent/src/client/http2_session.cpp:356-363), and all that follows is lost instead.
- Nor can a frame longer than the agent's 8192-byte read buffer ever end on a read: some way of reading a
  stream delivers it if and only if each frame fits the buffer (`DeliverableExactlyWhenFramesFit`). The
  server reads up to 8192 bytes from a client into one frame of 25 bytes more. In a run, the agent can
  still read all of the wire on frame boundaries exactly if every frame ahead of it fits
  (`DrainableExactlyWhenFramesFit`), and then everything gets through (`DrainedIsComplete`).
- Of a read that holds several frames the server handles the first only (`ServerHandlesFirstFrameOnly`).
- Data that arrives while writes to the client are outstanding makes the bytes of all those writes go out
  again (`ArrivalDeliveredOnce`); two DATA frames are enough (`TwoFramesOverlap`). In every run, more is
  written to the client than came from the agent exactly if this has happened (`WindowLedger`).
- Data from the agent that does not fit the receive window, or whose connection has left the table, is
  dropped without notice. The client's stream is complete exactly if this never happens (`EndToEndBack`).
- Nothing in src/ calls `update_window` or `can_send`. Without window updates a connection takes at most
  65536 bytes towards the agent in its whole life (`OneWindowWithoutUpdates`), and one that has taken any
  data stays in the table for good unless it is aborted (an ungraceful close, an ERROR from the agent):
  a graceful close of either side leaves it CLOSING (`DataKeepsEntry`, `LeavesTableExactlyWhen`).
- The texts that a stream had received when its request timed out stay in the tables
  (`TimeoutLeavesText`).
- A request submitted under the id of one that still waits silently displaces its callback, which is then
  never called; this is the only way to lose one (`CallbackLedger`). Ids are made from one-second time.
- A client's own `x-tunnel-request-id` header replaces the tunnel's (`TranslationKeepsMeaning`).
- With clock readings finer than a microsecond, a window can admit more than burst plus rate times its
  length. For each burst, rate and clock `WithinRateExactly` says when: never if less than a microsecond
  earns at most one token, which holds up to about 10^6 requests per second; above that, a burst of one
  is still always within the rate, one of at least a token more than a microsecond earns never is
  (`SmallestAndLargeBursts`), and between the two it depends on what a tick and a microsecond earn. The
  excess never passes what one microsecond less a clock tick earns (`WindowBound`).
- A replaced token that is still in its grace period validates, but as `id:old` instead of `id`
  (`ReplacedTokenNamesOldKey`).
- The wildcard search lets the star stand for an empty label (`WildcardCoversOneLabel`), and
  `has_certificate_for_domain` differs from the search for the empty name when it is installed.

## Model

| member | source | states |
|---|---|---|
| TcpProtocol.DecodeInvertsEncode | src/proxy/tcp_protocol.cpp:18-251 | for every frame and every involutive byte swap, decoding the encoding gives the frame back if and only if the frame is one its decoder recovers |
| TcpProtocol.DataRoundTrip | src/proxy/tcp_protocol.cpp:53-112 | a DATA frame survives its own decoder if and only if the swap fixes its sequence number and its length |
| TcpProtocol.LittleEndianMisreadsData | src/proxy/tcp_protocol.cpp:53-112 | a concrete DATA frame that its own decoder misreads on a little-endian machine |
| TcpProtocol.ErrorRoundTrip | src/proxy/tcp_protocol.cpp:149-197 | exactly which ERROR frames survive, with the message length in a swapped 16-bit field |
| TcpProtocol.ShortRoundTrip | src/proxy/tcp_protocol.cpp:18-51 | OPEN and CLOSE frames survive for every involutive swap |
| TcpProtocol.AckRoundTrip | src/proxy/tcp_protocol.cpp:199-251 | ACK frames survive for every involutive swap |
| TcpProtocol.InlineDataInvertsEncode | src/proxy/tcp_proxy.cpp:776-800 | the inline decoders recover the payload of a DATA frame if and only if its length fits 32 bits, with no assumption on the swap |
| TcpProtocol.InlineLengthTest | src/proxy/tcp_proxy.cpp:773-797 | what the inline length test finds, by equivalences: a payload is taken if and only if all of it is there, and is found missing only as long as 25 and its length fit 32 bits |
| TcpProtocol.MachinesAreInvolutive | src/proxy/tcp_protocol.cpp:314-328 | the swap of either kind of machine is an involution, so the theorems for arbitrary swaps apply to both |
| TcpProtocol.AgentBuildData | tunnel-agent/src/forwarder/tcp_forwarder.cpp:289-327 | on either kind of machine the agent's DATA encoder yields the bytes of the server's |
| TcpProtocol.AgentBuildClose | tunnel-agent/src/forwarder/tcp_forwarder.cpp:329-357 | on either kind of machine the agent's CLOSE frame is type, id and reason, most significant byte first |
| FrameLayout.FrameIsLaidOut | src/proxy/tcp_protocol.cpp:18-251 | every frame is its type code 0x10 to 0x14, its sixteen id bytes, its fields byte by byte with the most significant first, and its data |
| FrameLayout.DecodeReadsFront | src/proxy/tcp_protocol.cpp:18-251 | with any bytes behind it, a frame is decoded if and only if it is one its decoder recovers |
| FrameLayout.PrefixIsRefused | src/proxy/tcp_protocol.cpp:32-251 | a frame that has not arrived whole is refused, as too small without its header and as incomplete with it, unless it is so long that the 32-bit length test wraps |
| FrameLayout.OtherTypesAreRefused | src/proxy/tcp_protocol.cpp:32-258 | an empty buffer is too small, and the type is invalid if and only if the first byte is none of the five codes |
| FrameLayout.OwnTypeIsChecked | src/proxy/tcp_protocol.cpp:32-251 | each decoder by itself, by equivalences: too small exactly below its header size, and of an invalid type exactly if the first byte is not its code |
| ConnectionIds.ConnectionIdToString | src/proxy/tcp_protocol.cpp:276-288 | the server's printing loop computes the specified text |
| ConnectionIds.AgentConnectionIdToString | tunnel-agent/src/forwarder/tcp_forwarder.cpp:359-369 | the agent's printing loop computes the same text |
| ConnectionIds.StringToConnectionId | src/proxy/tcp_protocol.cpp:290-312 | the parsing loop computes the specified id, with stoi's acceptance of signs and spaces and its failures |
| ConnectionIds.ParseInvertsText | src/proxy/tcp_protocol.cpp:276-312 | parsing undoes printing for every 16-byte id |
| ConnectionIds.TextIsInjective | src/proxy/tcp_protocol.cpp:276-288 | different ids print differently |
| ConnectionIds.TextInvertsParse | src/proxy/tcp_protocol.cpp:276-312 | printing undoes parsing exactly on printed ids |
| ConnectionIds.TextIsSpelled | src/proxy/tcp_protocol.cpp:276-288 | the text has 36 characters: hyphens at 8, 13, 18 and 23, and the two lower-case digits of every byte in between, the high one first |
| ConnectionIds.PairIsRead | src/proxy/tcp_protocol.cpp:290-312 | what stoi reads from each pair of characters: digits of either case, a blank or a sign in front, a digit alone, and when it throws |
| ConnectionIds.DigitsAreRead | src/proxy/tcp_protocol.cpp:290-312 | thirty-two digits, each in either case, are read as the id they spell |
| ConnectionIds.HyphensDoNotMatter | src/proxy/tcp_protocol.cpp:290-312 | a hyphen anywhere in a text changes nothing of what it is read as |
| ConnectionIds.WrongLengthIsRefused | src/proxy/tcp_protocol.cpp:290-300 | a text without hyphens that has not 32 characters is no id |
| ConnectionIds.CloseFrameNamesItsConnection | src/agent/agent_connection.cpp:757-783 | the id carried by a server-sent CLOSE is the connection's own if and only if that is the one self-naming id |
| FrameScanner.ScanCutsPrefix | tunnel-agent/src/client/http2_session.cpp:588-688 | the frames handed over, joined, are the consumed prefix, each has at least 19 bytes, and what is left starts no complete frame |
| FrameScanner.ScanChunks | tunnel-agent/src/client/http2_session.cpp:588-688 | scanning a+b is scanning a and then the unconsumed tail of a with b; frames and counts add up |
| FrameScanner.SizeOfEncoded | tunnel-agent/src/client/http2_session.cpp:608-684 | an encoded frame at the front of any bytes is measured exactly if and only if the scanner's length fields agree with the encoder's |
| FrameScanner.ScanInvertsEncoders | tunnel-agent/src/client/http2_session.cpp:588-688 | scanning the joined encodings of a list of frames hands over exactly those and consumes everything, if and only if every frame is scannable |
| FrameScanner.ReadsHandOver | tunnel-agent/src/client/http2_session.cpp:312-386 | reads scanned one by one without keeping leftovers hand over the frames of the whole stream if and only if every read that matters ends on a frame boundary |
| FrameScanner.ReadsDeliverStream | tunnel-agent/src/client/http2_session.cpp:312-386 | a stream of encoded frames cut into reads arrives whole if and only if each read ends on a frame boundary |
| FrameScanner.CutReadHandsOverPayload | tunnel-agent/src/client/http2_session.cpp:312-386 | a DATA frame whose payload is an encoded frame, cut behind its header by a read, hands over the inner frame in place of the outer one |
| FrameScanner.DeliverableExactlyWhenFramesFit | tunnel-agent/src/client/http2_session.cpp:312-386 | some sequence of reads of at most 8192 bytes delivers all frames of a stream if and only if each frame fits one read |
| TcpForwarder.TCPConnection.FlushPending | tunnel-agent/src/forwarder/tcp_forwarder.cpp:114-142 | after the connect, the queue is issued to the local socket in order and emptied |
| TcpForwarder.TCPForwarder.HandleTcpOpen | tunnel-agent/src/forwarder/tcp_forwarder.cpp:44-70 | an OPEN puts a new, unconnected entry in the table and nothing else |
| TcpForwarder.TCPForwarder.HandleTcpData | tunnel-agent/src/forwarder/tcp_forwarder.cpp:152-215 | data is queued before the connect, issued after it, and dropped for an unknown id |
| TcpForwarder.TCPForwarder.CloseConnection | tunnel-agent/src/forwarder/tcp_forwarder.cpp:270-287 | the entry leaves the table; a connect under way still holds its connection as it was |
| TcpForwarder.TCPForwarder.Connected | tunnel-agent/src/forwarder/tcp_forwarder.cpp:70-146 | the handler's connection becomes connected with its queue issued, whether or not the table still has it |
| TcpForwarder.TCPForwarder.ConnectFailed | tunnel-agent/src/forwarder/tcp_forwarder.cpp:85-107 | a failed connect sends a CLOSE and leaves the entry where it is |
| TcpForwarder.TCPForwarder.LocalData | tunnel-agent/src/forwarder/tcp_forwarder.cpp:235-268 | bytes read locally leave in a numbered DATA frame |
| TcpForwarder.TCPForwarder.LocalClosed | tunnel-agent/src/forwarder/tcp_forwarder.cpp:235-268 | the end of the local socket sends a CLOSE and removes the entry |
| TcpForwarder.TCPForwarder.HandleTcpFrame | tunnel-agent/src/client/http2_session.cpp:690-765 | dispatch of one complete frame to the table |
| TcpForwarder.TCPForwarder.ProcessTcpFrames | tunnel-agent/src/client/http2_session.cpp:588-688 | the scanning loop consumes what the scan consumes and handles exactly its frames in order |
| TcpProxy.AgentLink.SendTcpData | src/agent/agent_connection.cpp:666-755 | a frame goes down the wire while the link is up and reports an error otherwise |
| TcpProxy.AgentLink.SendTcpClose | src/agent/agent_connection.cpp:757-800 | the CLOSE loop sends the first sixteen characters of the text, padded |
| TcpProxy.TCPConnection.WriteToClient | src/proxy/tcp_proxy.cpp:670-685 | a write covers the whole receive buffer, or nothing when it is empty |
| TcpProxy.TCPConnection.OnWriteDone | src/proxy/tcp_proxy.cpp:678-699 | the written prefix is erased and, if bytes remain, all of them are written at once; WritesSettle and WindowLedger say what that comes to |
| ConnectionAdmission.Admit | src/proxy/tcp_proxy.cpp:166-252 | the checks before a connection is created, in order, each with its own refusal |
| ConnectionAdmission.ValidateIpAllowlist | src/proxy/tcp_proxy.cpp:731-749 | no allowlist admits every address, one that does not parse none, any other those it allows |
| ConnectionAdmission.AdmittedExactlyWhenInRange | src/proxy/tcp_proxy.cpp:166-252 | a client is admitted if and only if tunnel and address are known, the agent is connected, and the allowlist is empty or parses and has the address, as a number, in a range |
| AllowlistText.NetworkAdmits | src/security/ip_allowlist.cpp:100-228 | a written network admits exactly the addresses of its family that agree with the written address on the written number of first bits, and is no list exactly if the number does not parse, is more than the family's bits or negative, or the address is none |
| AllowlistText.AddressAdmits | src/security/ip_allowlist.cpp:100-120 | a written address admits exactly itself, and is no list exactly if it is no address |
| AllowlistText.ListAdmits | src/security/ip_allowlist.cpp:11-87 | a list of texts is read exactly if each text is, and admits a client exactly if one of its texts alone does |
| AllowlistText.RefusedInOrder | src/proxy/tcp_proxy.cpp:166-260 | each outcome of the four checks, by an equivalence: an unknown tunnel, then an unknown address, then the allowlist, then the agent |
| TcpProxy.TCPProxy.CreateConnection | src/proxy/tcp_proxy.cpp:254-347 | once admitted, the table entry under the printed id, the OPEN frame, and the state it ends in; nothing otherwise |
| TcpProxy.TCPProxy.SendData | src/proxy/tcp_proxy.cpp:386-499 | what fits the window is taken, counted, and sent numbered by the bytes before it; nothing outside ESTABLISHED |
| TcpProxy.TCPProxy.ReceiveData | src/proxy/tcp_proxy.cpp:501-544 | data is appended and counted if the buffer has room for all of it, and dropped otherwise |
| TcpProxy.TCPProxy.UpdateWindow | src/proxy/tcp_proxy.cpp:576-594 | the consumed prefix leaves the send buffer; more than it holds changes nothing |
| TcpProxy.TCPProxy.CanSendNow | src/proxy/tcp_proxy.cpp:567-574 | true for a connection in the table whose send buffer is below the window |
| TcpProxy.TCPProxy.CloseConnection | src/proxy/tcp_proxy.cpp:349-384 | a graceful close with unsent bytes keeps the entry as CLOSING; any other removes it; either sends a CLOSE |
| TcpProxy.TCPProxy.HandleAgentTcpFrame | src/proxy/tcp_proxy.cpp:751-832 | dispatch of one frame from the agent: data, close and error, with the short-frame checks |
| TunnelInvariant.NextKeeps | src/proxy/tcp_proxy.cpp:166-832 | every step of the server, the wire and the agent keeps the invariant of every connection, for reads of any bytes at the server, reads of any length at the agent, and any timing of writes and closes |
| TunnelInvariant.RunKeeps | src/proxy/tcp_proxy.cpp:166-832 | the invariant holds after every run |
| TunnelTheorems.EndToEnd | src/proxy/tcp_proxy.cpp:434-498 | as long as the agent's reads end on frame boundaries, whatever the server reads: for a connection open at the agent, bytes issued locally, then the queue, then the payloads on the wire are exactly the accepted bytes, and a prefix of them once the link is lost |
| TunnelTheorems.NeverWrongBytes | tunnel-agent/src/forwarder/tcp_forwarder.cpp:117-214 | as long as the agent's reads end on frame boundaries: at every moment, for open and closed connections, also when the local connect finishes after the close, the local socket has been given a prefix of the accepted bytes |
| TunnelTheorems.NothingLostBeforeOpen | tunnel-agent/src/client/http2_session.cpp:588-738 | as long as the agent's reads end on frame boundaries: before the agent knows a connection all its accepted bytes are on the wire behind its OPEN |
| TunnelTheorems.WindowLedger | src/proxy/tcp_proxy.cpp:434-699 | in every run: buffers never exceed 65536; accepted = consumed + send buffer; the counters are their lengths mod 2^64; delivered and outstanding bytes outnumber the received ones if and only if a payload arrived while a write was outstanding, and otherwise received = delivered + receive buffer; the receive buffer is empty or exactly what the newest outstanding write holds |
| TunnelTheorems.OneWindowWithoutUpdates | src/proxy/tcp_proxy.cpp:434-473 | over every run without window updates for it, a connection takes at most 65536 bytes in its whole life |
| TunnelTheorems.CanSendMeansRoom | src/proxy/tcp_proxy.cpp:567-574 | in every reachable state, a connection takes some of any data if and only if it is established and can_send is true |
| TunnelTheorems.NumberedStream | src/proxy/tcp_proxy.cpp:434-473 | the DATA payloads on the wire join to the accepted bytes and each frame's sequence number is its byte offset mod 2^32 |
| TunnelTheorems.EndToEndBack | src/proxy/tcp_proxy.cpp:520-538 | as long as reads are framed: the bytes taken from the agent and those under way are the bytes read from the local socket, in order, if and only if the server refused none; without overlapping writes, the same for delivered, buffered and under way |
| TunnelTheorems.ArrivalDeliveredOnce | src/proxy/tcp_proxy.cpp:670-699 | for any number of outstanding writes, data arriving is delivered once, after what was buffered, if and only if there are none; otherwise the blocks of all of them come first |
| TunnelTheorems.TwoFramesOverlap | src/proxy/tcp_proxy.cpp:670-699 | two DATA frames put a new connection into that state; the second payload is written once more when the first write is done, and after three writes the client has both payloads twice |
| TunnelTheorems.ServerHandlesFirstFrameOnly | src/proxy/tcp_proxy.cpp:751-832 | a read that starts with a complete frame has the effect of that frame alone, whatever follows |
| TunnelTheorems.ConnectionIdentity | src/proxy/tcp_proxy.cpp:295-342 | every table key is the printed id of its connection, parses, and is the id of its OPEN and of every DATA frame after it; no CLOSED entry is in the table |
| TunnelTheorems.StatesMoveForward | src/proxy/tcp_proxy.cpp:349-377 | over any continuation of a run states only move forward, and a connection that left the table does not return |
| TunnelTheorems.LeavesTableExactlyWhen | src/proxy/tcp_proxy.cpp:349-385 | in every run, a step removes a connection if and only if it aborts it (ungraceful close or ERROR frame), or closes it gracefully when every accepted byte has been released; any other graceful close leaves it CLOSING |
| TunnelTheorems.DataKeepsEntry | src/proxy/tcp_proxy.cpp:361-371 | over every continuation without window updates and aborts, a connection that has taken data stays in the table, and CLOSING if it was |
| TunnelService.CreatedServes | src/proxy/tcp_proxy.cpp:301-337 | in every run, a new connection has empty buffers and is ESTABLISHED if the link is up and CONNECTING if not |
| TunnelService.DataIsTaken | src/proxy/tcp_proxy.cpp:386-473 | in every run, an established connection takes all that fits of 65536 unreleased bytes, and any other takes nothing |
| TunnelService.FirstDataIsTaken | src/proxy/tcp_proxy.cpp:301-473 | a connection created with the link up takes up to 65536 bytes of its first data; with the link down, none |
| TunnelService.StateChangesByClosing | src/proxy/tcp_proxy.cpp:349-377 | in every run, the state of a connection in the table changes only by a graceful close that leaves it there, to CLOSING |
| TunnelService.LinkStaysLost | src/agent/agent_connection.cpp:666-799 | over any continuation of a run that has lost the link, nothing more is written to it |
| TunnelService.ServerSpeaks | src/proxy/tcp_proxy.cpp:295-499 | in every run, what a step writes to the link while it is up: OPEN for a new connection, the part of a client's data that fits with its byte offset, CLOSE whenever a connection of the table is closed from either side, and nothing else |
| TunnelService.CloseFrameIsLaidOut | src/agent/agent_connection.cpp:757-781 | a CLOSE is 0x12, the first sixteen characters of the textual id or what there is of them and zeros, and the reason 0 |
| TunnelService.FramedExactly | tunnel-agent/src/client/http2_session.cpp:312-386 | in every run, the flags for framed reads change exactly with a read of the agent off a frame boundary and a read of the server that is not the agent's next frame |
| TunnelService.WritesSettle | src/proxy/tcp_proxy.cpp:670-699 | from every state of every run, the client's writes, those issued on the way included, come to an end with nothing left to write; the client then has exactly the bytes taken from the agent if and only if no payload met an outstanding write, and more otherwise |
| TunnelAgent.AgentHasExactly | tunnel-agent/src/forwarder/tcp_forwarder.cpp:44-287 | in every run, however reads are cut: the agent has a connection after a step if and only if the last OPEN, CLOSE or ERROR of it in the step's frames is an OPEN, or there is none and it had it and its socket did not end or fail |
| TunnelAgent.ConnectedExactly | tunnel-agent/src/forwarder/tcp_forwarder.cpp:70-146 | in every run, a connection is connected after a step if and only if it was or its connect finishes in the step; one just opened is not |
| TunnelAgent.NothingBeforeConnect | tunnel-agent/src/forwarder/tcp_forwarder.cpp:152-215 | in every run, nothing is handed to a local socket before its connect has finished, and nothing is kept back afterwards |
| TunnelAgent.ConnectHandsOver | tunnel-agent/src/forwarder/tcp_forwarder.cpp:108-146 | in every run, a connect that finishes hands over all that was queued, in order and first, also when the connection has left the table |
| TunnelAgent.ClosedKeepsQueue | tunnel-agent/src/forwarder/tcp_forwarder.cpp:217-287 | a connection closed by a CLOSE or ERROR frame leaves the table with what was queued |
| TunnelAgent.AgentSpeaks | tunnel-agent/src/forwarder/tcp_forwarder.cpp:235-357 | in every run: one DATA frame with the bytes of each local read, a CLOSE with reason 0 when the local socket ends, one with reason 1 when connecting fails, and nothing else |
| TunnelAgent.AgentNumbersFrames | tunnel-agent/src/forwarder/tcp_forwarder.cpp:289-327 | as long as the agent's reads end on frame boundaries, its DATA frames for a connection are numbered 0, 1, 2, ... mod 2^32: by frames, where the server numbers by bytes |
| TunnelProgress.DrainableExactlyWhenFramesFit | tunnel-agent/src/client/http2_session.cpp:296-386 | in every run with framed reads so far, some further reads of at most 8192 bytes bring the whole wire to the agent on frame boundaries if and only if each frame ahead fits one read |
| TunnelProgress.DrainedIsComplete | tunnel-agent/src/forwarder/tcp_forwarder.cpp:117-214 | once the wire is drained and the link is up, the agent knows every connection that took data; issued plus queued is all of the accepted bytes, and issued alone once the local connect has finished |
| ProtocolMultiplexer.DeserializeInvertsSerialize | src/proxy/protocol_multiplexer.cpp:211-282 | a serialized frame before any bytes is read back if and only if its id is under 2^16 and its payload under 2^32 bytes |
| ProtocolMultiplexer.FrameIsLaidOut | src/proxy/protocol_multiplexer.cpp:211-240 | a frame byte by byte: kind, two length bytes and the id, four length bytes and the payload, most significant first |
| ProtocolMultiplexer.PrefixIsRefused | src/proxy/protocol_multiplexer.cpp:241-282 | a frame that has not arrived whole is refused, by what is missing |
| ProtocolMultiplexer.DecodeInvertsSerializeAll | src/proxy/protocol_multiplexer.cpp:211-282 | a joined sequence of frames is read back as that sequence if and only if every frame's lengths fit |
| ProtocolMultiplexer.ProtocolMultiplexer.SendTcpData | src/proxy/protocol_multiplexer.cpp:284-305 | appends exactly one serialized DATA frame to the queue |
| ProtocolMultiplexer.ProtocolMultiplexer.SendTcpClose | src/proxy/protocol_multiplexer.cpp:307-322 | appends exactly one CLOSE frame |
| ProtocolMultiplexer.ProtocolMultiplexer.SendTcpError | src/proxy/protocol_multiplexer.cpp:324-344 | appends exactly one ERROR frame |
| ProtocolMultiplexer.ProtocolMultiplexer.SendTcpWindow | src/proxy/protocol_multiplexer.cpp:346-372 | appends exactly one WINDOW frame with the size most significant byte first |
| ProtocolMultiplexer.ProtocolMultiplexer.GetOutputData | src/proxy/protocol_multiplexer.cpp:107-116 | hands out the queue and empties it |
| ProtocolMultiplexer.OutputsAreSent | src/proxy/protocol_multiplexer.cpp:107-372 | over every run of sends and drains, the outputs and what is left are the serialized frames in order |
| ProtocolMultiplexer.QueueDecodesUniquely | src/proxy/protocol_multiplexer.cpp:107-372 | the drained outputs decode to exactly the frames sent, in order, if and only if all lengths fit |
| HttpText.ParseRequest | src/proxy/http_proxy.cpp:101-155 | the parsing loop computes the specified request, for every buffer |
| HttpText.ToString | src/proxy/http_proxy.cpp:269-286 | the printing loop yields the specified text for some order of the headers |
| HttpText.ParsedIsWellFormed | src/proxy/http_proxy.cpp:101-155 | only the empty buffer fails to parse, and every parsed request is well formed: words without spaces, lower-case names without colons, trimmed values, host the last Host header |
| HttpText.PrintParseRoundTrip | src/proxy/http_proxy.cpp:101-286 | for any header order, parsing the printed request gives it back, without the client address, if and only if it is well formed |
| HttpText.ParsePrintParse | src/proxy/http_proxy.cpp:101-286 | for every buffer that parses, parsing the printed result changes nothing more |
| HttpParsing.NamesFold | src/proxy/http_proxy.cpp:139-141 | two header names are filed under one key if and only if they agree up to the case of ASCII letters, and the key is the one without upper-case letters |
| HttpParsing.ParseReads | src/proxy/http_proxy.cpp:101-155 | from a request written with any gaps in its first line, names of any case, blanks around values, lines without a colon, and lines ended by LF or CR LF, the parser reads the three words, the last trimmed value of every name, the host among them, and the text after the empty line |
| HttpParsing.HostIsRead | src/proxy/http_proxy.cpp:139-147 | a host header is found whatever the case of its name |
| HttpTranslation.RereadAgrees | src/agent/agent_connection.cpp:499-537 | the sender's own parsing loop reads from any text what the proxy's parser reads |
| HttpTranslation.BuildHeaderPairs | src/agent/agent_connection.cpp:499-554 | the pairs built from the text are the specified ones, for some order of the headers |
| HttpTranslation.PairsRebuild | tunnel-agent/src/client/http2_session.cpp:489-524 | the rebuilt request has the method, path, authority, client address and other headers of the original, for any header order |
| HttpTranslation.TranslationKeepsMeaning | src/agent/agent_connection.cpp:499-554 | print, re-read, pair and rebuild keeps a well formed request's meaning under the given request id if and only if it has no other request id header of its own |
| AgentSession.HTTP2Session.OnHeader | tunnel-agent/src/client/http2_session.cpp:489-524 | one header event changes the request of its stream and no other |
| AgentSession.HTTP2Session.OnEndOfStream | tunnel-agent/src/client/http2_session.cpp:418-470 | the end of a stream hands over its request and forgets it |
| AgentSession.StreamStandsAlone | tunnel-agent/src/client/http2_session.cpp:418-524 | for every interleaving, what a stream delivers and still holds depends on its own events alone |
| AgentSession.EachStreamDeliversItsRequest | tunnel-agent/src/client/http2_session.cpp:418-524 | however streams interleave, a stream that carried a request's pairs delivers that request once, with its meaning |
| AgentRequests.AgentConnection.SendHttpRequest | src/agent/agent_connection.cpp:480-627 | refused submissions fail at once; accepted ones wait under their id and stream |
| AgentRequests.AgentConnection.OnHeader | src/agent/agent_connection.cpp:286-320 | status only as the first header, other pseudo-headers skipped, regular ones appended |
| AgentRequests.AgentConnection.OnDataChunk | src/agent/agent_connection.cpp:322-337 | the chunk is appended to its stream's body |
| AgentRequests.AgentConnection.CompleteRequest | src/agent/agent_connection.cpp:339-398 | the waiting callback of the stream's request gets the assembled response and all four tables forget it |
| AgentRequests.AgentConnection.OnTimeout | src/agent/agent_connection.cpp:641-663 | a request still waiting fails and is forgotten; a settled one is left alone |
| AgentRequests.AgentConnection.CloseConnection | src/agent/agent_connection.cpp:806-853 | closing fails every waiting request once, in some order, and only the first time |
| AgentRequests.StepOwes | src/agent/agent_connection.cpp:339-663 | every step conserves, for every callback, calls made plus call awaited, except for the submission of a new one and the displacement of a waiting one |
| AgentRequests.CallbackLedger | src/agent/agent_connection.cpp:339-663 | over every run, a callback has been called once or waits uncalled if and only if it was submitted and not displaced by a request under its id; otherwise it has never been called |
| AgentRequests.ClosedAnswersAll | src/agent/agent_connection.cpp:806-853 | after a close nothing waits, and every submitted callback that was not displaced has been called exactly once |
| ResponseAssembly.StreamStandsAlone | src/agent/agent_connection.cpp:286-398 | for every interleaving with other requests, timeouts and closes, a request and its stream end up as if only their own steps had happened |
| ResponseAssembly.ResponseIsOwn | src/agent/agent_connection.cpp:286-398 | the answer is one call with the status line if a status came first, the header lines and the chunks of that stream, each in the order received |
| ResponseAssembly.AnsweredOnceByOwnStream | src/agent/agent_connection.cpp:286-663 | nothing later, not the request's own timer nor the close, adds to that answer |
| ResponseText.AnswerTellsItsStream | src/agent/agent_connection.cpp:286-398 | however streams interleave and at any later time, a request whose stream ended has been answered by one successful call from whose text the status line, the last value of every header and the joined chunks can be read, or the chunks alone if no header counted; the tables have forgotten the stream |
| ResponseText.TimeoutLeavesText | src/agent/agent_connection.cpp:641-663 | a request that times out is told of an error, and what its stream had received stays in the header and body tables |
| ResponseText.CloseLeavesText | src/agent/agent_connection.cpp:806-853 | a request that a close finds waiting is told of an error, and its stream's tables keep their entries |
| ResponseText.WaitsWithItsStream | src/agent/agent_connection.cpp:339-663 | while the connection is up, a request waits if and only if its stream is mapped to it |
| ResponseText.SuccessExactlyWhenEnded | src/agent/agent_connection.cpp:339-853 | over every run, a callback is told of success exactly as often as a stream ends while its request waits; every other call reports an error without a text |
| RateLimiter.RateLimiter.AllowRequest | src/security/rate_limiter.cpp:27-54 | the decision and the new buckets, with a missing bucket created full |
| RateLimiter.RateLimiter.CheckLimit | src/security/rate_limiter.cpp:56-70 | changes nothing and gives the answer a request at the same instant would get |
| RateLimiter.RateLimiter.GetTokens | src/security/rate_limiter.cpp:82-95 | changes nothing and gives the tokens a request at the same instant would find |
| RateLimiter.RateLimiter.RefillTokens | src/security/rate_limiter.cpp:97-112 | the refilled bucket: whole microseconds only, capped at the burst, untouched when nothing is earned |
| RateTheorems.TokensInRange | src/security/rate_limiter.cpp:97-112 | tokens always lie between zero and the burst |
| RateTheorems.TokensAreLeastWindow | src/security/rate_limiter.cpp:27-112 | with a microsecond clock, the tokens are the least of the burst and of what every window since the reset still allows |
| RateTheorems.DeniedExactlyWhenOverWindow | src/security/rate_limiter.cpp:27-54 | a request is denied if and only if admitting it would overfill some window starting at it or at an earlier request |
| RateTheorems.KeyFindsOwnBucket | src/security/rate_limiter.cpp:27-80 | whatever happens to other keys, a key finds the bucket of its own requests since its reset |
| RateTheorems.LimiterDeniesExactlyWhenOverWindow | src/security/rate_limiter.cpp:27-112 | the same equivalence for a limiter with many keys, over every run of requests, resets and clears |
| RateTheorems.ConfiguredLimits | src/security/rate_limiter.cpp:8-54 | of any number of requests at one instant a new limiter admits as many as its burst, and a second earns its rate; settings that are not positive stand for 100 a second and a burst of 200 |
| RateBounds.WindowBound | src/security/rate_limiter.cpp:97-112 | with any finer clock and any rate, a window admits at most the burst plus the rate over its length and one microsecond less a tick |
| RateBounds.RateBound | src/security/rate_limiter.cpp:97-112 | when less than a microsecond earns at most one token, a window admits at most the burst plus the rate over its own length |
| BurstPaces.SmallBurstBound | src/security/rate_limiter.cpp:97-112 | two further conditions under which every window stays within the rate: one tick allows all of the burst but one token, or the spare parts of a cycle of microseconds cover a microsecond less a tick |
| BurstBounds.GreedyReplays | src/security/rate_limiter.cpp:27-54 | a concrete run that leaves less than a token at every microsecond is admitted whole |
| BurstBounds.GreedExceeds | src/security/rate_limiter.cpp:97-112 | that run overfills a window as soon as it has lost less than a microsecond less a tick earns beyond one token |
| BurstBounds.WithinRateExactly | src/security/rate_limiter.cpp:97-112 | for each burst, rate and clock, every window of every run stays within the rate if and only if one of three conditions on the settings holds |
| BurstBounds.EachConditionAlone | src/security/rate_limiter.cpp:97-112 | each of the three conditions is met alone by some settings |
| BurstBounds.NanosecondsExceed | src/security/rate_limiter.cpp:97-112 | a nanosecond clock, two million requests per second and a burst of three exceed the rate in some window |
| BurstBounds.SmallestAndLargeBursts | src/security/rate_limiter.cpp:97-112 | a burst of one is always within the rate; one of at least a token more than a microsecond earns if and only if less than a microsecond earns at most one token |
| BurstBounds.WithinRateExactlyWhenCoarse | src/security/rate_limiter.cpp:97-112 | for a rate and a clock, limiters of every burst stay within the rate if and only if less than a microsecond earns at most one token |
| TunnelRateLimiter.TunnelRateLimiter.SetTunnelLimit | src/security/rate_limiter.cpp:127-145 | a tunnel's limiter is replaced by a fresh one with the given limits |
| TunnelRateLimiter.TunnelRateLimiter.AllowRequest | src/security/rate_limiter.cpp:147-169 | the decision of the tunnel's limiter, created with the defaults if there is none; other limiters stay as they are |
| TunnelRateLimiter.TunnelRateLimiter.RemoveTunnel | src/security/rate_limiter.cpp:171-178 | only that tunnel's limiter goes |
| TunnelRateLimiter.TunnelStandsAlone | src/security/rate_limiter.cpp:127-187 | over every run, a tunnel's limiter is the one its own events and the clears make |
| TunnelRateLimiter.DecisionsStandAlone | src/security/rate_limiter.cpp:127-187 | no event of another tunnel changes the answer to a tunnel's request |
| TunnelRateLimiter.TunnelDeniesExactlyWhenOverWindow | src/security/rate_limiter.cpp:127-187 | a tunnel's request is denied if and only if it would overfill a window of the tunnel's requests since its limits took force, under those limits |
| AddressBits.MaskInPlace | src/security/ip_allowlist.cpp:139-150 | the masking loop leaves the first p bits and clears the rest, in place |
| AddressBits.MatchesCidr | src/security/ip_allowlist.cpp:204-228 | the comparison loop decides agreement on the first p bits |
| Cidr.MaskedSplits | src/security/ip_allowlist.cpp:139-176 | masking keeps the network number and makes the host number zero |
| Cidr.MatchesComparesTop | src/security/ip_allowlist.cpp:204-228 | matching holds if and only if the network numbers are equal |
| Cidr.MatchesIsInterval | src/security/ip_allowlist.cpp:139-228 | for any length and prefix, an address matches the masked network if and only if, as a number, it lies between the network and the network plus 2^(W-p) - 1 |
| Cidr.NestedOrDisjoint | src/security/ip_allowlist.cpp:204-228 | two ranges of one family are nested or disjoint |
| IpAllowlist.ParseCidrText | src/security/ip_allowlist.cpp:100-180 | the range of a text, with single addresses, prefix limits and every failure |
| IpAllowlist.FromCidrList | src/security/ip_allowlist.cpp:11-24 | an allowlist of exactly the listed ranges if and only if every text parses |
| IpAllowlist.IPAllowlist.AddIp | src/security/ip_allowlist.cpp:36-52 | a single address becomes a range of one, IPv4 tried first |
| IpAllowlist.IPAllowlist.IsAllowed | src/security/ip_allowlist.cpp:54-87 | the decision loops over the ranges of the address's family |
| IpAllowlist.AllowedIsWithin | src/security/ip_allowlist.cpp:54-87 | an address is allowed if and only if the list is empty or the address lies in a range of its family as a number; a text that is no address only by the empty list |
| IpAllowlist.NetworkCoversPrefix | src/security/ip_allowlist.cpp:122-176 | a written range covers exactly the addresses whose first bits are those it was written with |
| TtlCache.Cache.PutFor | src/storage/cache.h:46-50 | the entry and its time of expiry |
| TtlCache.Cache.Lookup | src/storage/cache.h:56-71 | the value, unless missing or expired |
| TtlCache.Cache.Contains | src/storage/cache.h:84-88 | agrees with lookup |
| TtlCache.Cache.Cleanup | src/storage/cache.h:109-124 | the erasing loop removes exactly the expired entries and counts them |
| TtlCache.Cache.ForEach | src/storage/cache.h:129-136 | visits exactly the entries that have not expired, each once |
| TtlCache.GetIsLastWrite | src/storage/cache.h:46-124 | over every run, cleaned or not, a key answers with its last write until that expires |
| TtlCache.SweepLeavesLive | src/storage/cache.h:109-124 | over every run, a sweep leaves exactly the keys whose last write has not expired, with that write |
| TtlCache.SweepsAreUnobservable | src/storage/cache.h:46-136 | a cache cleaned at arbitrary points answers every lookup and visits the same entries as one never cleaned |
| TokenRotation.TokenValidator.ValidateToken | src/security/token_validator.cpp:30-64 | the loop finds a key whose token has the hash and is expired by neither clock, if there is one |
| TokenRotation.TokenValidator.RotateToken | src/security/token_validator.cpp:84-102 | the new token is installed and a live previous one is kept for the grace period |
| TokenRotation.TokenValidator.RevokeToken | src/security/token_validator.cpp:76-82 | only the current token goes; a replaced one stays |
| TokenRotation.AcceptsTwoTokens | src/security/token_validator.cpp:30-102 | at every moment of every run with colon-free ids, the tokens accepted for a tunnel are the one last installed and the one its last rotation replaced, less than that grace period ago |
| TokenRotation.RotationWindow | src/security/token_validator.cpp:84-102 | after a rotation and until something else happens to the tunnel, both tokens are accepted, the old one exactly for the grace period, unless they expire |
| TokenRotation.ValidationIsUnique | src/security/token_validator.cpp:30-64 | with distinct tokens at most one key matches, so the order of the visit does not matter |
| TokenRotation.ReplacedTokenNamesOldKey | src/security/token_validator.cpp:30-102 | in its grace period, and until something else happens to the tunnel, a replaced token validates under the key id:old and no other |
| CertificateMatch.TLSManager.MatchCertificate | src/security/tls_manager.cpp:252-276 | the search over the unordered table equals one lookup of the name and one of its wildcard |
| CertificateMatch.ExactNameWins | src/security/tls_manager.cpp:252-276 | a certificate for the name itself wins; otherwise an installed one that covers it; otherwise none |
| CertificateMatch.TLSManager.HasCertificateForDomain | src/security/tls_manager.cpp:353-364 | agrees with the search unless the name is empty and installed |
| CertificateMatch.CoversOnlyOne | src/security/tls_manager.cpp:259-272 | only the star followed by the name from its first dot passes the test |
| CertificateMatch.WildcardCoversOneLabel | src/security/tls_manager.cpp:259-272 | a wildcard covers exactly the names with one label, possibly empty, in place of the star |

## Left out

- Sockets, timers, threads, locks, TLS and the HTTP/2 library: only their events are steps or parameters.
- HTTP/2 bytes on the agent connection: the modelled wire carries TCP frames; the bytes between them are
  not followed.
- Request and response bodies of the translation: the read callback sends one chunk and then the end of
  file (src/agent/agent_connection.cpp:596-604). Response bodies are in `ResponseAssembly`.
- The overload of `create_connection` that matches a tunnel by port (src/proxy/tcp_proxy.cpp:22-164):
  unused by the server.
- TCP_ACK handling: the handlers ignore it.
- An agent that disconnects between the two registry calls of `create_connection`: the connection is then
  forwarded without a table entry (src/proxy/tcp_proxy.cpp:338-343).
- Clients' bytes that `send_data` does not take: `read_from_client` drops them
  (src/proxy/tcp_proxy.cpp:650-666); the ledger counts accepted bytes.
- Lifetimes of buffers passed to asynchronous writes: bytes count when the write is issued.
- EndToEnd: holds as long as every read of the agent has ended on a frame boundary, because leftover bytes
  of a read are not kept; ReadsDeliverStream gives the exact condition.
- NeverWrongBytes: the same; CutReadHandsOverPayload shows what happens otherwise.
- NothingLostBeforeOpen: the same.
- EndToEndBack: holds as long as, besides, every read of the server has been the agent's next frame;
  ServerHandlesFirstFrameOnly shows what happens otherwise.
- WindowLedger: states the ledger for connections in the table; an entry's buffers go with it.
- ValidateToken: takes the hash of the token; extraction of the token from the header and SHA-256 are not
  modelled.
- Address and number parsing of the C library (`inet_pton`, `std::stoi` in the allowlist) are parameters;
  printing ranges back is not modelled.
- The interface's own rotation handler (src/api/tunnels_handler.cpp:212-267) repeats `rotate_token` with
  other lifetimes and is not modelled separately.
- Loading and reloading of certificates, the TLS contexts and the reload timer.
- Key Vault, blob backup, registry persistence, logging, tracing, metrics, health checks, configuration,
  the command line and reconnects: I/O, formatting or one-function facts.
