# Verified model of ruci's stream codecs, handshakes and chain runner

This project models the parts of ruci that carry state: framed transports that reassemble
arbitrary chunks, proxy handshakes, the recursive runner of map chains, the fan-out of a UDP
port to connections, and the shared counters. `dafny verify dfyconfig.toml` checks the whole
project.

Conventions:

- Bytes arrive as chunks; a read takes at most one chunk, as much of it as fits. Polls of
  libraries (h2 capacity, a WebSocket sink, a dial, a timer) are parameters or nondeterministic
  events. A pending poll is a result like any other.
- An object whose methods change its fields is a class. Its `State()` is a value, each method
  equals a specification function on that value, and the theorems are lemmas about those
  functions, most of them over whole runs.
- A Rust panic (index out of bounds, subtraction below zero) is an outcome of the specification
  function where the code can reach it, and a precondition only where the code demands it.
- Integer widths are written out where they matter: the varint's 64 bits, the length fields'
  16 and 32 bits, the counters' wrap-around, the length bytes of names and passwords.

The modules, each in the file of the same name:

| modules | component |
|---|---|
| `Varint`, `GrpcFrame`, `GrpcStream`, `GrpcRun`, `GrpcRewrites`, `GrpcEmptyReads`, `GrpcHeadCuts`, `GrpcZeroRtt` | gRPC over h2: varint, head, reader, writer, whole runs |
| `AddrCodec`, `TrojanUdp`, `Socks5Udp` | the address codec, packets in a trojan stream, SOCKS5 datagrams |
| `Base64`, `WsConn`, `WsEarlyData`, `WsRun` | WebSocket streams with early data in the request header |
| `Chunked`, `Connections`, `EarlyData` | connections that hand out chunks, and early data put before them |
| `Users`, `Socks5`, `Socks5Server`, `Socks5Client`, `Socks5Agreement`, `Socks5Offers`, `Socks5Bytes` | the SOCKS5 handshake from both sides, for any methods offered and any bytes |
| `TrojanHandshake`, `TrojanAgreement`, `TrojanOutcomes` | the trojan handshake from both sides, and on any bytes |
| `Fold`, `FoldTree`, `FoldDealt` | folding a stream through a chain, the tree of tasks that generators give rise to, and what it deals |
| `UdpDemux`, `TproxyRing` | connections by source on one UDP port, two buffers shared with a consumer |
| `Http1`, `Http1Text`, `Http1Errors` | the HTTP/1 request parser |
| `Cid`, `AddrText`, `Text` | connection ids and addresses as text |
| `Gauge` | counters of live connections and relayed bytes |
| `WireBytes` | the bytes that both peers of each protocol agree on, spelt out |
| `Bytes` | byte strings and big-endian fields |

## Where the code departs from what it promises

Each of these is stated as an exact condition, or proved of a whole family of inputs:

- A gRPC read with room hands out zero bytes, which callers take for the end of the stream,
  exactly when the chunks it pulls end in a bare head (`GrpcEmptyReads.EmptyReadExactly`); in a run
  read to its end that happens exactly when some chunk ends right behind a head or a frame without
  payload is sent (`GrpcEmptyReads.EmptyReadsInRun`). A read panics or reports a bad length, in a run
  read to its end, exactly when some chunk ends strictly inside a head
  (`GrpcHeadCuts.ReadFailsExactly`).
- The trojan UDP reader forgets what is buffered exactly when the caller buffer is as long as the
  payload and another packet is buffered behind it (`TrojanUdp.PollIsIdeal`). It takes the next
  base read for payload of an old address after a bad packet that follows a split payload, and only
  then (`TrojanUdp.BufferCoversLeft`, `TrojanUdp.StaleLeftover`).
- A trojan server that accepts a datagram header loses packets exactly when it has gathered more
  behind the header than the first packet (`TrojanAgreement.UdpKeepsExactly`,
  `TrojanAgreement.UdpLosesSecond`), and hands a fallback something else than what the peer
  sent unless the bytes are short of a header and an earlier layer read some of them
  (`TrojanAgreement.FallbackIntact`).
- A SOCKS5 server relays stale zeros as early data exactly when the chunk that ends the request
  carries no payload into the buffer, the first read fails or times out, and the buffer has room
  (`Socks5Agreement.ServerAgrees`).
- A SOCKS5 client loses its peer's first bytes exactly when the read that brings the reply does not
  end where the reply ends (`Socks5Client.FirstBytesSurviveExactly`, `Socks5Client.FirstBytesDropped`).
- A password user shares the auth string with another possible user exactly when the name or the
  password holds a line feed (`Users.AuthStrUnique`).
- A WebSocket client transmits its first write twice exactly when the stream is busy at the moment
  the dial ends with bytes left over (`WsRun.TransmitsWhatWasAccepted`).
- A read of a UDP connection reports more bytes than it delivered exactly when the caller buffer is
  too short (`UdpDemux.ReportsTruthExactly`). A source whose reader has a full queue stops every
  other source and every close until that reader has been read once, or twice if it holds a datagram
  besides the queue (`UdpDemux.StalledReaderBlocksAll`); 102 datagrams that nobody reads lead there
  (`UdpDemux.SilentReaderStalls`).
- Closing a UDP connection touches another one exactly when the entry of its source leads to that
  other one (`UdpDemux.CloseHarmsExactly`). This is a hazard of the interface, not of today's
  callers: the copy tasks shut each writer down once, and then no close does harm
  (`UdpDemux.ClosingOnceIsSafe`); a second shutdown would (`UdpDemux.LateCloseCutsNewer`).
- The HTTP parser reports no error and no path when the path runs past the scan limit
  (`Http1Text.ReadBack`, `Http1Text.NoErrorMeans`); `body_start_index` counts from the end of the
  request line.
- A chain can deal a generator as if it were a stream exactly when its first map gives neither a
  generator nor an error and another map follows (`FoldTree.DealsGeneratorExactly`).
- A relay counts the bytes it moved exactly when its copy was no traced one whose unequal download
  ended first, and none that moved bytes and reported nothing: a plain copy that failed, a dropped
  one, that of a mixed relay (`Gauge.CountedExactly`, `Gauge.TracedCopySwaps`).
- A datagram relay dropped while it is counted is never uncounted (`Gauge.ReturnsToStart`,
  `Gauge.DroppedStaysCounted`). This is a hazard that no caller triggers while the runtime is up: the
  relay runs in a task of its own, whose handle is not kept and which nothing aborts.
- A consumer of the transparent proxy's buffers that is more than 84 datagrams behind can read other
  datagrams' bytes, and the channel admits 4096 (`TproxyRing.OverrunReadsAnother`); a datagram is
  harmed exactly when a later one is written over it with other bytes
  (`TproxyRing.OverwritesExactly`).
- A named address does not survive printing and parsing if its name holds a colon or a hash sign, is
  IP text, or stands in brackets before a port, or if it has a port that is not printed
  (`AddrText.NameRoundTrip`).

## Model

| member | source | states |
|---|---|---|
| Varint.PutUvarint | rucimp/src/map/h2/grpc.rs:68-77 | Writes the base-128 encoding into the buffer at the given offset, returns its length, and touches no other byte. |
| Varint.UvarintForm | rucimp/src/map/h2/grpc.rs:68-77 | The encoding's bytes carry the number in groups of seven bits, all flagged but the last, with no superfluous last group. |
| Varint.UvarintUnique | rucimp/src/map/h2/grpc.rs:68-77 | Any byte string of that form is the encoding of its value: there is one encoding for each number. |
| Varint.UvarintAtMostTen | rucimp/src/map/h2/grpc.rs:12-12 | A number below 2^64 takes at most ten bytes. |
| Varint.UvarintMonotone | rucimp/src/map/h2/grpc.rs:68-77 | A larger number never has a shorter encoding. |
| Varint.ReadUvarint | rucimp/src/map/h2/grpc.rs:99-119 | The 64-bit accumulating loop yields what the front of the input means: value and rest, overflow, or want of bytes. |
| Varint.ParseRoundTrip | rucimp/src/map/h2/grpc.rs:68-119 | Reading an encoding with any suffix returns the number and leaves the suffix, for every number below 2^64. |
| Varint.ParseRejects | rucimp/src/map/h2/grpc.rs:99-119 | Reading succeeds if and only if a varint of at most ten bytes that fits 64 bits starts the input; it lacks bytes if and only if fewer than ten are there, all flagged. |
| GrpcFrame.GetRealLen | rucimp/src/map/h2/grpc.rs:121-130 | The announced length is the length of head and payload on the wire. |
| GrpcFrame.EncodeHead | rucimp/src/map/h2/grpc.rs:132-148 | The head built piece by piece is flag, big-endian length, tag and varint. |
| GrpcFrame.Encode | rucimp/src/map/h2/grpc.rs:150-156 | A message is its head followed by its payload, or the head alone. |
| GrpcFrame.FieldCountsTheRest | rucimp/src/map/h2/grpc.rs:132-148 | The big-endian field equals the number of bytes behind it if and only if they are fewer than 2^32. |
| GrpcFrame.HeadMonotone | rucimp/src/map/h2/grpc.rs:121-148 | A longer payload never has a shorter head. |
| GrpcFrame.HeadParses | rucimp/src/map/h2/grpc.rs:132-202 | Behind the six fixed bytes of a frame, with anything following, the payload's length is read and the payload is left. |
| WireBytes.GrpcBytes | rucimp/src/map/h2/grpc.rs:132-148 | The head of every payload under 128 bytes, and of one of 300, byte by byte. |
| GrpcStream.AcceptedFits | rucimp/src/map/h2/grpc.rs:269-298 | A frame cut to a grant that covers at least the full-size head stays within the grant. |
| GrpcStream.Stream.TryReadNextLen | rucimp/src/map/h2/grpc.rs:192-202 | Between payloads it takes a head off the buffer and sets the bytes due; inside a payload it changes nothing. |
| GrpcStream.Stream.PollRead | rucimp/src/map/h2/grpc.rs:205-260 | The polling loop equals the recursive specification on buffer, bytes due and arrived chunks. |
| GrpcStream.Stream.PollWrite | rucimp/src/map/h2/grpc.rs:262-306 | Exactly one frame with the reported number of bytes is sent, and otherwise nothing. A full-size head and the bytes reported together fill the grant, unless all bytes go. A grant below the full-size head makes the subtraction underflow. |
| GrpcRewrites.RewritingAcceptsAll | rucimp/src/map/h2/grpc.rs:262-306 | A caller that rewrites what was not taken, under grants above the full-size head, gets every byte through within as many writes as there are bytes. |
| GrpcRewrites.RewritingGoesThrough | rucimp/src/map/h2/grpc.rs:262-306 | Those bytes then have been sent as frames that carry exactly them, in order. |
| GrpcRun.DeliveredIsPrefix | rucimp/src/map/h2/grpc.rs:192-306 | In every run of writes, grants, head-safe cuts and reads, delivered bytes are a prefix of accepted ones, no read fails, and they are equal once nothing is on the way. |
| GrpcRun.PollKeeps | rucimp/src/map/h2/grpc.rs:205-260 | One read delivers the next bytes due and keeps the reader's place among the frames, whatever the chunks. |
| GrpcRun.RunThenDrain | rucimp/src/map/h2/grpc.rs:205-260 | After any run, as many reads with room as there are bytes left deliver everything accepted. |
| GrpcRun.FalseEndOfStream | rucimp/src/map/h2/grpc.rs:215-239 | A chunk that ends right behind a head reads as the end of the stream. |
| GrpcEmptyReads.EmptyReadExactly | rucimp/src/map/h2/grpc.rs:205-260 | For every reader: a read with room returns zero bytes if and only if, with the chunks it needs pulled, it reads a head with no payload byte behind it, or the stream is closed. |
| GrpcEmptyReads.EmptyReadsInRun | rucimp/src/map/h2/grpc.rs:205-306 | In every run drained with room at each read, some read returns zero bytes if and only if some chunk ends right behind a head or a frame without payload is sent. |
| GrpcHeadCuts.ReadFailsExactly | rucimp/src/map/h2/grpc.rs:192-260 | In every run, wherever its chunks end, that is then read to its end: some read fails if and only if some chunk ends strictly inside a head. |
| GrpcHeadCuts.PollOutcome | rucimp/src/map/h2/grpc.rs:205-260 | A read fails only with a chunk end inside a head ahead of it; otherwise it stays aligned with the frames and no such end is passed over. |
| GrpcHeadCuts.PartialHeadFails | rucimp/src/map/h2/grpc.rs:192-239 | Between frames a read fails if and only if the next head is buffered only in part: it panics on fewer than six bytes, else finds no length and throws them away. |
| GrpcZeroRtt.ZeroStream.PollRead | rucimp/src/map/h2/grpc/zero_rtt.rs:67-131 | The polling loop with a pending response equals its specification. |
| GrpcZeroRtt.RefinesPlain | rucimp/src/map/h2/grpc/zero_rtt.rs:67-131 | Reading a stream whose response comes late returns the bytes, and leaves the reader, of the plain stream read from the response on. |
| GrpcZeroRtt.RefusedForGood | rucimp/src/map/h2/grpc/zero_rtt.rs:67-131 | Once the response is refused, that read and every later one fail and none returns a byte. |
| AddrCodec.SoToSocks5Bytes | src/net/helpers.rs:64-79 | Appends type, octets and port of a socket address. |
| AddrCodec.AddrToSocks5Bytes | src/net/helpers.rs:81-105 | Appends the encoding of an address: socket, or name with a length byte of its low eight bits. |
| AddrCodec.Socks5BytesToAddr | src/net/helpers.rs:18-62 | Decoding step by step equals the specification, with the bytes an error has already consumed. |
| AddrCodec.RoundTrip | src/net/helpers.rs:18-105 | Decoding an encoding gives the canonical address and leaves exactly the suffix, if and only if the name fits its length byte and at least seven bytes are there. |
| AddrCodec.DecodeIsOnto | src/net/helpers.rs:18-62 | Whatever decodes is the encoding of the address it decodes to followed by the rest. |
| AddrCodec.DecodeExtends | src/net/helpers.rs:18-62 | Bytes behind a decodable address change nothing but the rest. |
| AddrCodec.DecodeErrors | src/net/helpers.rs:18-62 | Each error as a condition on the bytes, with what each leaves of them. |
| WireBytes.SocketBytes | src/net/helpers.rs:64-79 | Sockets on the wire byte by byte: kind 1 or 4, octets, port with the high byte first. |
| WireBytes.NameBytes | src/net/helpers.rs:81-105 | Names on the wire: 3, the length, the name, the port. |
| WireBytes.ReadSocket | src/net/helpers.rs:18-62 | Those bytes, with any behind them, are read as that socket, for streams. |
| WireBytes.ReadName | src/net/helpers.rs:18-62 | And those of a name as that name, once there are seven. |
| Socks5Udp.EncodeUdpDiagram | src/map/socks5/mod.rs:79-84 | Appends the reserved bytes, fragment zero and the address. |
| Socks5Udp.DecodeUdpDiagram | src/map/socks5/mod.rs:62-76 | Opening a datagram step by step equals its specification. |
| Socks5Udp.DiagramRoundTrip | src/map/socks5/mod.rs:62-84 | Opening a datagram returns canonical address and payload if and only if the name fits and there are at least eleven bytes. |
| Socks5Udp.FragmentsPassAsWhole | src/map/socks5/mod.rs:70-70 | The fragment number changes nothing: fragments are opened as if whole. |
| Socks5Udp.OpensExactly | src/map/socks5/mod.rs:62-76 | Over all bytes, a datagram opens if and only if it has eleven bytes, two zeros at the front and an address behind the third byte, reported as one for datagrams; with what each failure leaves. |
| WireBytes.DatagramBytes | src/map/socks5/mod.rs:79-84 | The header is three zeros and the address. |
| TrojanUdp.UdpReader.PollReadAddr | src/map/trojan/udp.rs:84-243 | The three-state machine equals its specification for every state, base read and caller buffer. |
| TrojanUdp.UdpWriter.PollWriteAddr | src/map/trojan/udp.rs:264-323 | The packet goes to the base as far as the base takes it, and the count is that of payload bytes; a base that takes less than the head makes the subtraction underflow. |
| TrojanUdp.BufferCoversLeft | src/map/trojan/udp.rs:189-239 | Over all base reads and caller buffers, the buffer covers what is left over throughout a run if and only if no bad packet comes after a split payload. |
| TrojanUdp.StaysCleanExactly | src/map/trojan/udp.rs:84-243 | One poll keeps that so if and only if it is not that bad packet. |
| TrojanUdp.SpoiltTakesAnything | src/map/trojan/udp.rs:189-239 | After it, a base read shorter than the stale count is handed out under the old address, and the count never shrinks. |
| TrojanUdp.BadPacketLeavesNew | src/map/trojan/udp.rs:136-159 | After a bad packet the reader is as good as new if and only if nothing was counted as left over. |
| TrojanUdp.StaleLeftover | src/map/trojan/udp.rs:136-239 | A run of four polls that gets there. |
| TrojanUdp.PollIsIdeal | src/map/trojan/udp.rs:84-243 | One poll on buffered packets hands out what an ideal reader would; what stays behind is what the ideal reader keeps if and only if the caller buffer is no exact fit before another packet. |
| TrojanUdp.RunIsIdeal | src/map/trojan/udp.rs:84-243 | A run of polls over base reads of whole packets equals the ideal reader's run on the flattened packet list. |
| TrojanUdp.IdealCutsIntoPieces | src/map/trojan/udp.rs:84-243 | What is handed out, then what is left, are the packets in order, each as consecutive pieces under its own address that concatenate to its payload. |
| TrojanUdp.ExactFitLosesPackets | src/map/trojan/udp.rs:169-203 | Two packets in one read, an exact-fit buffer: the second is never seen. |
| TrojanUdp.PanicsExactly | src/map/trojan/udp.rs:84-243 | In any state, a poll panics if and only if it parses bytes of which an address decodes and two or three bytes follow it. |
| TrojanUdp.ParsingExactly | src/map/trojan/udp.rs:84-188 | Over all bytes, parsing hands out the front of a packet under its address if and only if the bytes begin with a whole packet; else, short of a panic, all of them are thrown away. |
| TrojanUdp.BaseDecides | src/map/trojan/udp.rs:189-239 | In every state a poll is pending, fails or ends exactly as the base, when asked, says. |
| TrojanUdp.LeftOverExactly | src/map/trojan/udp.rs:84-243 | In every state with bytes left over, a poll hands out the next of them under the old address, and what stays is what it did not hand out. |
| WireBytes.TrojanBytes | src/map/trojan/client.rs:32-80 | The header is hash, 13 10, 1 or 3, address, 13 10; a packet is address, length, 13 10, data. |
| Base64.RoundTrip | rucimp/src/map/ws/server.rs:78-87 | Decoding undoes encoding. |
| Base64.Length | rucimp/src/map/ws/mod.rs:16-17 | Three bytes take four digits, one or two at the end one digit more than bytes. |
| WireBytes.Base64Bits | rucimp/src/map/ws/server.rs:78-87 | Three bytes become four letters of the URL-safe alphabet that hold their 24 bits in order. |
| WsConn.WsStream.PollRead | rucimp/src/map/ws/mod.rs:62-107 | The polling loop equals its specification on the buffered message and the messages arrived. |
| WsConn.WsStream.PollWrite | rucimp/src/map/ws/mod.rs:109-130 | A write is one binary message with all its bytes, or nothing. |
| WsConn.ReadsInOrder | rucimp/src/map/ws/mod.rs:62-107 | For any buffer sizes, reading returns the bytes of non-empty messages in order, losing none, and all of them with enough reads. |
| WsConn.ReadYieldsExactly | rucimp/src/map/ws/mod.rs:62-107 | In every state what comes next decides: bytes are returned as far as there is room, a close reads as nothing, any other message or end fails, and only with nothing arrived is the read pending. |
| WsEarlyData.EarlyConn.PollWrite | rucimp/src/map/ws/client.rs:179-284 | The loop over dial, left-over bytes and stream equals its specification for every phase. |
| WsRun.TransmitsWhatWasAccepted | rucimp/src/map/ws/client.rs:179-284 | Across any retries, header and messages carry exactly what was reported accepted, and no write reports too much, if and only if the stream was not busy when the dial ended with bytes left over. |
| WsRun.NothingTwice | rucimp/src/map/ws/client.rs:179-284 | Without that, it also holds while a later write is pending. |
| WsRun.WriteYieldsExactly | rucimp/src/map/ws/client.rs:179-284 | In every run each write waits, fails or completes as dial and stream answer it, never panics, and reports its whole length. |
| WsRun.NoFaultNoFailure | rucimp/src/map/ws/client.rs:179-284 | A run in which no dial fails and the stream refuses nothing has not failed. |
| WsRun.AfterFailure | rucimp/src/map/ws/client.rs:179-284 | After a failed dial every later write panics; after a refused write a later one is sent alone. |
| WsRun.HeaderAndMessages | rucimp/src/map/ws/client.rs:179-284 | The header carries the first 2048 bytes of the first write, the stream its rest and then each later write in a message of its own. |
| WsRun.BusyStreamRepeats | rucimp/src/map/ws/client.rs:207-250 | With that, and for any number of retries that find the stream busy, every first write over 2048 bytes goes out once more for each retry. |
| WsRun.HeaderFits | rucimp/src/map/ws/server.rs:67-95 | The header value of at most 2048 bytes is within the server's limit and is read back. |
| WsRun.ServerTakesExactly | rucimp/src/map/ws/server.rs:67-95 | Of any client the server takes early data up to 2049 bytes, one more than this client sends. |
| WsRun.ServerRecovers | rucimp/src/map/ws/server.rs:67-114 | Early data followed by what the server reads is what the client was told was accepted. |
| EarlyData.EarlyDataWrapper.PollRead | src/net/helpers.rs:167-194 | A read comes from the early data while there are any, then from the connection, and equals its specification. |
| EarlyData.EarlyDataFirst | src/net/helpers.rs:167-194 | Reads into initialised buffers hand over the early data first, then the connection's bytes, losing none. |
| EarlyData.EarlyReadExactly | src/net/helpers.rs:167-194 | With early data left, a read panics if and only if they and the initialised part exceed the unfilled part, and hands over nothing if and only if nothing is initialised; else it hands over what of the next chunk fits. |
| Users.AuthStrInjective | src/user.rs:113-117 | Users without line feeds in their names are told apart by their auth strings. |
| Users.AuthStrUnique | src/user.rs:113-117 | A user's auth string is no other possible user's if and only if neither name nor password holds a line feed. |
| WireBytes.AuthStrBytes | src/user.rs:113-117 | The auth string is `plaintext:`, the name, a line feed, the password. |
| Users.UsersMap.AddUser | src/user.rs:207-212 | Adds the user to both maps, which stay in step with the users added. |
| Users.UsersMap.AuthUserByAuthstr | src/user.rs:224-230 | Finds a user if and only if one with that auth string was added. |
| Socks5Server.Server.HandshakeOn | src/map/socks5/server/mod.rs:103-484 | The handshake on a connection, run on one buffer, equals its specification. |
| Socks5Server.Server.NegotiateOn | src/map/socks5/server/mod.rs:172-322 | The loop over methods, which reads over its own method list, equals its specification. |
| Socks5Server.Server.TurnOn | src/map/socks5/server/mod.rs:184-310 | What is done about one offered method, and whether the loop goes on, equals its specification. |
| Socks5Server.Server.LoginOn | src/map/socks5/server/mod.rs:199-308 | The password exchange equals its specification, with the lookup in the map of the users added. |
| Socks5Server.Server.constructor | src/map/socks5/server/mod.rs:69-101 | The server knows the users of its configuration, and has no map when there are none. |
| Socks5Server.Server.RequestOn | src/map/socks5/server/mod.rs:324-484 | Parsing the request, replying and reading first data equals its specification. |
| Socks5.OnlyUsersPass | src/map/socks5/server/mod.rs:172-322 | Over every input, a server with auth strings lets through only a user with one of them, and one without attaches none. |
| Socks5.OnlyAddedUsersPass | src/map/socks5/server/mod.rs:69-322 | With users added, whoever gets through has the auth string of one of them, and is one of them unless name or password holds a line feed. |
| Socks5.ShortPreReadNeverPasses | src/map/socks5/server/mod.rs:103-140 | A hello handed over with fewer than seven bytes never leads to a target. |
| Socks5Client.Client.HandshakeOn | src/map/socks5/client.rs:33-180 | Succeeds if and only if the replies are, in bytes, 5 0 or 5 2 by credentials, then 1 0 if there was a password, then ten or more that begin 5 0 0, having sent hello, password message, request and, as the last layer, the early data; for datagrams if and only if the last reply also holds a socket address and a socket can be had. |
| Socks5Client.Client.Converse | src/map/socks5/client.rs:56-165 | A client that stops has sent a prefix of its messages, and the hello alone if the greeting is refused. |
| Socks5Client.Client.Associate | src/map/socks5/client.rs:56-165 | Asks for a datagram relay once let in; the relay is the address in the reply. |
| Socks5Client.RelayInBytes | src/map/socks5/client.rs:125-140 | A reply names a relay if and only if it begins 5 0 0 and holds a whole socket address behind that; which one, byte by byte. |
| WireBytes.ClientBytes | src/map/socks5/client.rs:56-165 | Everything a client says, byte by byte. |
| Socks5Client.FirstBytesSurviveExactly | src/map/socks5/client.rs:150-165 | After the handshake the peer's first bytes can still be read if and only if the read that brings the reply ends where the reply ends. |
| Socks5Client.FirstBytesDropped | src/map/socks5/client.rs:150-165 | Bytes that come in the chunk of the reply are gone, and the client goes on. |
| Socks5Agreement.RequestParses | src/map/socks5/server/mod.rs:345-432 | The server parses the address the client encoded, at its exact end, whatever follows. |
| Socks5Agreement.ServerAgrees | src/map/socks5/server/mod.rs:103-484 | However the messages are joined, the server reaches the client's target and user with the same replies; early data and unread stream are the payload if and only if the chunk that ends the request carries payload into the buffer, the first read was in time, or the buffer had no room. |
| Socks5Agreement.RepliesSatisfyClient | src/map/socks5/client.rs:62-165 | The server's replies, each read on its own, are replies the client goes on with. |
| Socks5Agreement.StaleZeros | src/map/socks5/server/mod.rs:448-470 | With no first data in time, payload sent along with the request is kept; without any, zeros are relayed in the client's name. |
| Socks5Offers.FirstReplyExactly | src/map/socks5/server/mod.rs:172-322 | For every list of methods, read alone: with users the first reply is 5 2 if and only if 2 stands before any second 0, without users 5 0 if and only if 0 stands before any second 2, and otherwise only 5 255 is written. |
| Socks5Offers.AnyOfferAgrees | src/map/socks5/server/mod.rs:103-484 | A client that offers any list with its own method chosen is served like one that offers that alone. |
| Socks5Bytes.HelloRefusals | src/map/socks5/server/mod.rs:123-178 | Over all bytes, which hellos are turned away at once, with what written and what handed back. |
| Socks5Bytes.PasswordMessageExactly | src/map/socks5/server/mod.rs:214-290 | Over all bytes, a name and a password are taken if and only if the bytes begin with a message of RFC 1929 of at least five bytes; and exactly when the server fails on an index. |
| Socks5Bytes.PasswordAnswered | src/map/socks5/server/mod.rs:264-309 | The answer is 1 0 for a known user, 1 1 for anybody else. |
| Socks5Bytes.StrangersAreRefused | src/map/socks5/server/mod.rs:172-322 | For every offer in which the password method is chosen, a message that names no user ends in 5 2 1 1 and a refusal. |
| Socks5Bytes.MalformedIsRefused | src/map/socks5/server/mod.rs:172-322 | Where that method is chosen and the message is malformed, the server goes on over the methods and ends in 5 2 5 255, whatever they are. |
| Socks5Bytes.MalformedInBytes | src/map/socks5/server/mod.rs:240-262 | When a message is malformed, in bytes. |
| Socks5Bytes.RequestIsJudged | src/map/socks5/server/mod.rs:324-344 | Without users a request read on its own is judged on its bytes alone, after 5 0. |
| Socks5Bytes.RequestIsJudgedAfterLogin | src/map/socks5/server/mod.rs:324-344 | So it is, with the user named, after a good password message and 5 2 1 0. |
| Socks5Bytes.LeftoverIsJudged | src/map/socks5/server/mod.rs:324-344 | So is whatever came along with the hello, without users, however short. |
| Socks5Bytes.LeftoverIsJudgedAfterLogin | src/map/socks5/server/mod.rs:324-344 | So is whatever came along with a good password message. |
| Socks5Bytes.RequestRefusals | src/map/socks5/server/mod.rs:337-418 | Over all bytes, which requests are turned away or panic, and how. |
| Socks5Bytes.RequestGrants | src/map/socks5/server/mod.rs:345-484 | A whole request gets its address, octet by octet, and for a stream ten bytes 5 0 0 1 0 0 0 0 0 0 and the early data; for datagrams a relay or a refusal. |
| WireBytes.ServerBytes | src/map/socks5/server/mod.rs:172-448 | Everything the server answers whom it lets in, byte by byte. |
| TrojanHandshake.Client.HandshakeOn | src/map/trojan/client.rs:32-80 | Sends the header, with the payload behind it for a stream in the last layer; payload is sent or handed on, never both. |
| TrojanHandshake.Server.ReadHeader | src/map/trojan/server.rs:82-109 | The read loop gathers what its specification says, in a buffer whose unused end stays zero. |
| TrojanHandshake.Server.HandshakeOn | src/map/trojan/server.rs:60-255 | The handshake equals its specification, with or without bytes from an earlier layer. |
| TrojanAgreement.TcpAgrees | src/map/trojan/server.rs:60-255 | However the client's bytes are cut, the server accepts if and only if it gathered enough, and then with registered hash, canonical address, and early data and unread stream equal to the payload. |
| TrojanAgreement.UdpAgrees | src/map/trojan/server.rs:210-245 | A datagram header is accepted if and only if it came alone or with the whole first packet; what was gathered behind that packet is lost. |
| TrojanAgreement.UdpKeepsExactly | src/map/trojan/server.rs:210-245 | With an accepted datagram header no packet is lost if and only if nothing or exactly the first packet was gathered behind it. |
| TrojanAgreement.UdpLosesSecond | src/map/trojan/server.rs:210-245 | Header and two packets in one chunk: the second packet is handed on by nobody. |
| TrojanAgreement.AcceptedByChunks | src/map/trojan/server.rs:82-109 | With the first CRLF in one chunk, the header is accepted if and only if the chunk that completes the CRLF completes the header. |
| TrojanAgreement.GatherConserves | src/map/trojan/server.rs:69-109 | Gathered and unread bytes together are what the peer sent. |
| TrojanAgreement.FallbackIntact | src/map/trojan/server.rs:121-153 | A peer falls back exactly by the bytes gathered, and the fallback receives exactly what the peer sent if and only if they are short of a header and some were pre-read; otherwise zeros are added or the hash, with a bad line end that too, is missing. |
| TrojanOutcomes.GathersExactly | src/map/trojan/server.rs:69-109 | For any chunks, the server reads up to the chunk that holds a CRLF, in the first chunk not at its front, or the last one, or 1024 bytes; of bytes handed over it takes those alone. |
| TrojanOutcomes.AcceptsExactly | src/map/trojan/server.rs:60-255 | Over all bytes, the server accepts if and only if at least 66 were gathered and they spell a user's hash, command, address and line ends, with nothing or a whole packet behind a datagram header; it answers with what they spell. |
| TrojanOutcomes.FrontRefusals | src/map/trojan/server.rs:111-174 | Over all bytes, who fails, falls back or is dropped before the address, with which bytes. |
| TrojanOutcomes.AddressRefusals | src/map/trojan/server.rs:176-199 | Who is dropped or fails at the address and the line end behind it, with which bytes left. |
| TrojanOutcomes.PacketRefusals | src/map/trojan/server.rs:210-240 | What a first datagram that is not whole comes to: thrown away, a panic, or the end. |
| Fold.FoldStatic | src/map/fold.rs:170-260 | The folding loop over a static chain equals the specification's rounds, and ends. There is a list of the results of the maps run, each fed address, bytes, stream and outputs of the one before, of which the result returned has the last one's, all outputs in order, the last new id and the first tag that is not empty. |
| Fold.StaticRunsInOrder | src/map/fold.rs:170-260 | A fold runs the maps behind its start in order, none skipped or repeated, and stops early only for an error, no stream or a generator. |
| Fold.StaticIter.NextWithData | src/map/fold.rs:84-91 | The static iterator yields the next map and moves on. |
| Fold.FiniteIter.NextWithData | rucimp/src/modes/chain/config/dynamic.rs:117-136 | The selector-driven iterator yields the selected map, and keeps its place when the selection is out of range. |
| Fold.FiniteRefinesStatic | rucimp/src/modes/chain/config/dynamic.rs:117-136 | With the successor selector, a fold goes through the states of the static one, for any number of rounds. |
| Fold.FiniteEndsWithStatic | rucimp/src/modes/chain/config/dynamic.rs:117-136 | It is over by the time the static one is, with the same result. |
| Fold.IndexStaysValid | rucimp/src/modes/chain/config/dynamic.rs:117-136 | For any selector the current index stays -1 or valid. |
| Fold.SelectorLeads | rucimp/src/modes/chain/config/dynamic.rs:117-136 | For any selector, the same of the maps it leads through, each chosen from the place and the outputs of the one before. |
| FoldTree.StepKeeps | src/map/fold.rs:270-479 | Every step of every task keeps lineage, sibling ids, traces and the outbox in order. |
| FoldTree.AdvanceIsStep | src/map/fold.rs:438-456 | A task's round is the fold's round. |
| FoldTree.RunIsLater | src/map/fold.rs:368-479 | In every interleaving each emitted stream is one node, which is dealt once or becomes one generator, for good. |
| FoldTree.FoldProceeds | src/map/fold.rs:438-479 | A running fold can always take a round or settle, and its rounds run out. |
| FoldTree.DealtTraces | src/map/fold.rs:270-479 | The maps run up to any dealt result are a prefix of the chain, the whole of it unless an error, a vanished stream or, without a generator at the start, a generator stopped it. |
| FoldTree.DealsGeneratorExactly | src/map/fold.rs:270-479 | Some run deals a generator if and only if the first map gives neither a generator nor an error and another map follows. |
| FoldTree.DealtIds | src/map/fold.rs:368-421 | Results dealt never share an id; an id extends the inbound's by one number for each generator crossed. |
| FoldDealt.RootId | src/map/fold.rs:276-337 | After an error nothing is ever dealt; else the first stream has the inbound's id, or without a generator that with the next number. |
| FoldDealt.EmittedIds | src/map/fold.rs:368-421 | In every interleaving an emitted stream keeps the id it came with, or else its generator's id with the next number of the shared recorder. |
| FoldDealt.DealtCarries | src/map/fold.rs:239-479 | In every interleaving, a dealt result carries address, bytes and outputs of the results its node was given, the last new id and the first tag. |
| UdpDemux.UdpReader.PollReadAddr | src/net/udp_fixed_listen.rs:253-302 | The reader's loop equals its specification. |
| UdpDemux.EndsExactly | src/net/udp_fixed_listen.rs:253-302 | In every state a read is pending if and only if nothing waits and the sender lives, and aborts if and only if nothing waits and it does not. |
| UdpDemux.ReaderEndsExactly | src/net/udp_fixed_listen.rs:51-302 | In every interleaving a read aborts if and only if all that was sent its way has been returned and the entry of its source no longer leads to it. |
| UdpDemux.ReadTakesFront | src/net/udp_fixed_listen.rs:262-284 | A read returns the front of the next datagram, as far as the caller buffer goes; the rest comes next. |
| UdpDemux.AllReceivedIsHandedOn | src/net/udp_fixed_listen.rs:51-113 | In every interleaving each datagram received is handed to a connection of its source, in order, but for the one in hand. |
| UdpDemux.Demultiplexes | src/net/udp_fixed_listen.rs:51-113 | In every interleaving a reader has returned, and holds, exactly the datagrams sent its way, all from its source, and over its connections a source's datagrams are all there, in order. |
| UdpDemux.QueuesStayWithin | src/net/udp_fixed_listen.rs:77-89 | No connection's queue holds more than its hundred datagrams. |
| UdpDemux.StalledReaderBlocksAll | src/net/udp_fixed_listen.rs:73-84 | In every interleaving, while the loop waits on a full queue only reads can happen, and it goes on if and only if the connection waited for has been read often enough: twice if its reader held a datagram, otherwise once. |
| UdpDemux.SilentReaderStalls | src/net/udp_fixed_listen.rs:63-113 | 102 datagrams of one source that nobody reads make the loop wait, and two reads are needed then. |
| UdpDemux.ReportsTruthExactly | src/net/udp_fixed_listen.rs:262-284 | A read reports what it delivered if and only if the caller buffer holds the whole datagram. |
| UdpDemux.LateCloseCutsNewer | src/net/udp_fixed_listen.rs:214-233 | A second close of an old connection would cut off the newer one of its source. |
| UdpDemux.CloseHarmsExactly | src/net/udp_fixed_listen.rs:214-233 | A close leaves all other connections as they were if and only if the entry of its source, if any, leads to the one closed. |
| UdpDemux.ClosingOnceIsSafe | src/net/addr_conn.rs:418-418 | In every interleaving in which no writer is closed twice, no close touches another connection. |
| TproxyRing.WindowInBounds | rucimp/src/map/tproxy/udp.rs:47-107 | Every receive window lies inside its buffer. |
| TproxyRing.LapIsFull | rucimp/src/map/tproxy/udp.rs:99-107 | A lap ends only after at least 64008 bytes. |
| TproxyRing.SameLapDisjoint | rucimp/src/map/tproxy/udp.rs:99-107 | Slices of one lap are disjoint and in order. |
| TproxyRing.ClashIsFarApart | rucimp/src/map/tproxy/udp.rs:47-119 | At least 84 datagrams are published between a slice and the first window over it. |
| TproxyRing.SafeBacklogIsTight | rucimp/src/map/tproxy/udp.rs:47-119 | There are runs where it is exactly 84. |
| TproxyRing.OverwritesExactly | rucimp/src/map/tproxy/udp.rs:47-119 | The next datagram leaves a slice as it was published if and only if it agrees with it wherever it is written over it. |
| TproxyRing.SparedIsIntact | rucimp/src/map/tproxy/udp.rs:47-205 | However far the consumer is behind, a slice that no later one overlaps is read as it was published. |
| TproxyRing.OverrunReadsAnother | rucimp/src/map/tproxy/udp.rs:47-205 | 87 datagrams waiting, well within the channel: the consumer reads the newest one for the oldest, and its last byte for the first of the second. |
| TproxyRing.Ring.Receive | rucimp/src/map/tproxy/udp.rs:66-119 | A round writes the datagram into the window and publishes it, unless it is empty or the channel is full; slices within the safe backlog stay intact. |
| TproxyRing.Ring.Consume | rucimp/src/map/tproxy/udp.rs:169-205 | The consumer gets what stands in the oldest slice, which is the datagram as published when the backlog is at most 84. |
| Http1.ParseH1Request | src/net/http.rs:117-274 | The scanner with its early returns equals the specification, with every index in bounds, for every byte string in both modes. |
| Http1.ReadMethod | src/net/http.rs:132-178 | Telling methods by the first byte finds the one whose name the bytes start with. |
| Http1Text.ReadBack | src/net/http.rs:117-274 | A printed request with any body is read back in every field if and only if its path is within the scan limit; else neither error nor path is reported. |
| Http1Text.NoErrorMeans | src/net/http.rs:117-274 | Over all byte strings, no error means that the bytes spell the returned request with the body where it is said to start, or that no end of the path was found. |
| Http1Errors.FrontErrors | src/net/http.rs:117-186 | Over all bytes, each error before the path as a condition on the bytes. |
| Http1Errors.PathErrors | src/net/http.rs:188-225 | Behind a known method, what a path that begins or ends wrong, or nowhere, comes to. |
| Http1Errors.LineErrors | src/net/http.rs:226-240 | What a wrong protocol or line end comes to, and the version read. |
| Http1Errors.HeaderErrors | src/net/http.rs:240-274 | Without an empty line the parse fails; else the lines before the first are read one by one up to one without a colon and a space, with the headers so far. |
| Http1Errors.NamesInText | src/net/http.rs:132-178 | The methods, the protocol and the separators, as text. |
| Http1Text.EndIsFirst | src/net/http.rs:240-266 | The first end mark behind plain header lines is the one that ends them, whatever the body. |
| Cid.CID.Fmt | src/net/mod.rs:92-117 | The printing loop yields the numbers joined by dashes. |
| Cid.CID.PushNum | src/net/mod.rs:209-213 | Appends a number. |
| Cid.CID.Pop | src/net/mod.rs:234-256 | Takes the last number off; what would become empty becomes zero. |
| Cid.Parse | src/net/mod.rs:119-141 | The parsing loop equals its specification. |
| Cid.RoundTrip | src/net/mod.rs:92-141 | Parsing a printed id returns it if and only if it has a number. |
| AddrText.SocketUrl | src/net/addr.rs:221-272 | What the URL of an address with a socket is parsed as: the name is kept for IP addresses only, with the socket's port. |
| AddrText.SocketRoundTrip | src/net/addr.rs:584-643 | Such an address survives printing and parsing if and only if it has no name, or is a named IP address whose port is the socket's. |
| AddrText.NameRoundTrip | src/net/addr.rs:221-272 | A named address, on any network, survives if and only if the name holds no colon and no hash sign and is no IP text, and is not in brackets before a port or has port zero where none is printed. |
| AddrText.PrintedAs | src/net/addr.rs:584-643 | How every address is printed on every network, as text; a socket under the unix network is not. |
| AddrText.NetworkNamedExactly | src/net/addr.rs:78-90 | A network is named by its letters in either case, and by nothing else. |
| AddrText.DefaultsToTcp | src/net/addr.rs:236-247 | A URL without a network is parsed as one of TCP. |
| AddrText.FailsExactly | src/net/addr.rs:249-272 | An address text fails to parse if and only if it has two parts of which the second is no port, or the network is unknown. |
| AddrText.NamingKeeps | src/net/addr.rs:328-343 | Naming an address keeps its network, socket and port. |
| Gauge.CopyDatagrams | src/net/addr_conn.rs:353-421 | The copy loop's total is the sum of what was moved until a round ended it. |
| Gauge.TotalExactly | src/net/addr_conn.rs:353-421 | What is moved before the first round that ends the loop is counted, other errors included; nothing after it is. |
| Gauge.Accounts | src/relay/cp_conn.rs:69-219 | In every interleaving the gauge shows the relays counted and not uncounted, the byte counters the early data and what finished copies reported, each within its width. |
| Gauge.CountedExactly | src/net/cp.rs:65-187 | In any run, a relay adds the bytes it really moved to both counters if and only if its copy is fair: no traced one whose unequal download ended first, and none that moved bytes and reports nothing. |
| Gauge.ShowsWhatMoved | src/relay/cp_conn.rs:69-219 | With fair copies only, the byte counters have grown by the bytes really moved up and down. |
| Gauge.TotalIsKept | src/relay/cp_conn.rs:69-219 | Swapped or not, both counters together have grown by all bytes moved less those of copies that report nothing. |
| Gauge.TracedCopySwaps | src/net/cp.rs:101-136 | A run after which uploaded bytes stand in the download counter and the other way round. |
| Gauge.NeverUnderflows | src/relay/cp_conn.rs:79-83 | When a relay is uncounted the gauge is above its start value and goes down by one. |
| Gauge.EndsUncounted | src/relay/cp_conn.rs:69-219 | A relay whose copy ends, or that is dropped while it copies a stream, can then be uncounted and has ended with that copy; what it adds to which counter when both ways are known, and when nothing is. |
| Gauge.ReturnsToStart | src/net/addr_conn.rs:461-527 | When all relays have ended, on any path, the gauge stands above its start value by the number of events that dropped a datagram relay while counted; it is back if and only if there were none. |
| Gauge.DroppedStaysCounted | src/net/addr_conn.rs:461-527 | A run of one datagram relay, dropped while counted, that leaves the gauge one too high. |
| Gauge.OnlyDatagramsAbandoned | src/relay/cp_ac.rs:127-139 | Stream and mixed relays are uncounted even when dropped. |

## Left out

- TrojanUdp.RunIsIdeal: requires base reads of whole packets and no exact-fit buffer; the second is shown to be necessary, the first is what the reader relies on.
- TproxyRing.Ring.Consume: the slice the consumer has taken and not yet copied counts as queued, so the channel holds one message less than the model's queue then.
- UdpDemux.Demultiplexes: a reader dropped while its entry exists, which makes the receive loop drop datagrams, is not modelled.
- Fold.FoldStatic: of a result's fields, the fold's `no_timeout` and `shutdown_rx` are not modelled.
- FoldTree.DealtIds: requires what the code requires of its maps and generators: ids set by generators only, each unique below its generator, and fewer than 2^32 ids.
- AddrText.SocketUrl: under the unix network an address with a socket panics when printed, and one with a name as well is printed as that name.
- AddrText.SocketRoundTrip: the printing and parsing of IP addresses is a parameter with the inverse property; scope ids of IPv6 sockets are not modelled.
- Failing writes and reads of the underlying connection in the SOCKS5 and trojan handshakes: they end the handshake with that error.
- UTF-8: names, paths and headers are byte strings; replacement of invalid sequences is not modelled.
- The SHA-224 hash of a trojan password: any 56 characters without a line ending.
- The SOCKS5 server's UDP-associate path behind the request, the datagrams of an associated SOCKS5 client beyond their header, and MUX commands.
- TproxyRing.Ring: one listener; the two buffers are process-wide statics that a second listener would write to as well.
- The early data of mixed and datagram relays, which no counter shows, and the bytes of a copy that is still running.
- The initial size of the trojan UDP read buffer (half a maximal datagram): a base read is any non-empty byte string.
- Timers: a timeout is an event that can happen at any point where the code waits on one.
- The index-generating infinite chain and the Lua selectors: a selector is any function.
- Channel capacity of dealt results and of accepted connections: sends to them succeed. A UDP connection's own queue has its capacity, and the receive loop waits on it with the map locked.
- `UserVec`, routing, TLS, QUIC, tun, configuration, engines, API and command line.
