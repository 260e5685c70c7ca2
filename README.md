# udptunnel core, modelled in Dafny

udptunnel carries datagrams over a stream carrier. The client listens for
datagrams on a local address and gives every datagram peer its own carrier
connection to the server. Each datagram crosses that connection as a frame:
a two-byte big-endian length followed by the payload. The server de-frames
what it reads and writes each payload to one fixed destination. Replies come
back along the same path. When a destination write fails, the server closes
its destination socket, resolves the address again, redials up to three
times, and retries the write once.

The model has five modules:

- `Wrappers` (Wrappers.dfy): `Option` and `Result`.
- `Packet` (Packet.dfy): the frame codec of packet.go.
  - Pure functions: `Frame`, `Decode`, `Packets`, `Frames`.
  - The `PacketConn` class: a carrier connection with an input stream and a
    read cursor, an output stream, and a closed flag. `WritePacket` and
    `ReadPacket` are proved equal to those functions. `ReadFull`, which
    `ReadPacket` calls, is specified on the cursor and the buffer it fills.
- `Client` (Client.dfy): the session table of client.go.
  - The `TunnelClient` class holds the map from peer address to session.
  - It also keeps bookkeeping of the carriers it dialed: the peer each one
    was dialed for, which are closed, and the bytes written on each.
- `Server` (Server.dfy): one server-side connection of server.go.
  - Pure functions `Reconnect`, `Forward`, `Upstream` and `Downstream`
    describe what `reconnectUDP`, `forwardToUDP` and the two loops do to
    the destination side.
  - The `ServerConnection` class's methods are proved equal to them.
  - The destination network is a `Net` value: the k-th resolution, dial or
    datagram write fails exactly when its index is listed.
  - Everything that happens at the destination is recorded in an event log.
    The event kinds are close, resolve, dial, sleep and write.
  - The datagrams the destination has received are kept alongside the log.
- `Launcher` (Launcher.dfy): `validateArgs` and the protocol/mode switch of
  main.go.

The length header is `uint16(len(data))` in the code, so the model writes
`|data| % 65536` and reports no error for longer payloads. A codec that
refused payloads over 65535 bytes with an encoding error would be stricter
than this code, and the model follows the code. `OversizeFrameReadsAsEmpty`
shows what a 65536-byte payload, the size of the read buffers, turns into.
A UDP datagram carries at most 65527 bytes of payload, so no datagram that reaches the tunnel is long enough for the truncation to happen.

## Model

| member | source | states |
|---|---|---|
| Packet.ToUint16 | packet.go:52 | The header value is below 65536 and equals the length whenever the length fits. |
| Packet.Uint16 | packet.go:74 | A two-byte header reads as a value below 65536 whose high byte is the first byte and low byte the second. |
| Packet.BigEndian16 | packet.go:54 | The two bytes stored for v read back as v. |
| Packet.BigEndian16OfUint16 | packet.go:74 | Every two-byte header is the encoding of the value it reads as. |
| Packet.PutUint16 | packet.go:53-54 | The header buffer holds the big-endian encoding of the length. |
| Packet.Frame | packet.go:51-64 | A frame is 2 + len(data) bytes. The payload follows the header unchanged, and the header reads as len(data) mod 65536. |
| Packet.FrameHeader | packet.go:52-54 | Byte 0 is (len mod 65536) / 256 and byte 1 is len mod 256. There is no error for oversize input. |
| Packet.WrittenPrefix | packet.go:56-64 | A WritePacket leaves a prefix of the frame. A failed header write leaves nothing. When no error is reported the whole frame is written, and for a non-empty payload a reported error means less than the whole frame. |
| Packet.PacketConn.WritePacket | packet.go:51-65 | The output grows by exactly the bytes the two writes put out, and the error matches the write that failed. The read side is untouched. |
| Packet.PacketConn.ReadFull | packet.go:70 | io.ReadFull succeeds exactly when enough bytes remain, and then fills the buffer with the next bytes. On failure it has used up the stream. |
| Packet.Decode | packet.go:68-85 | A successful read takes exactly one frame off the front of the stream, and its payload fits the header. A failed read has used up the stream. |
| Packet.DecodeOutcome | packet.go:69-84 | Fewer than 2 bytes fail with a header error. A read succeeds exactly when the announced payload is all there, and then returns exactly that many bytes. Otherwise it fails with a payload error and never returns a short payload. |
| Packet.DecodeEmptyFrame | packet.go:74-77 | A zero header yields an empty payload and nothing past the header is read. |
| Packet.DecodeFrame | packet.go:51-85 | Reading back any frame gives the payload cut to the truncated header length, and consumes exactly header plus that length. |
| Packet.RoundTrip | packet.go:51-85 | A payload shorter than 65536 bytes is read back unchanged, consuming exactly 2 + len(data) bytes. |
| Packet.OversizeFrameReadsAsEmpty | packet.go:52-54 | A 65536-byte payload gets header 0 and reads back as an empty packet. |
| Packet.PacketConn.Close | server.go:210-212 | Closing the carrier connection sets its closed flag and leaves the read cursor and the output unchanged. |
| Packet.PacketConn.ReadPacket | packet.go:68-85 | ReadPacket returns what Decode gives for the unread stream and advances the cursor by what Decode consumed. The output is untouched. |
| Packet.PacketsFit | packet.go:68-85 | Successive ReadPacket calls up to the first failure return packets that each fit the two-byte length header. There are at most half as many of them as stream bytes, since each takes a two-byte header. |
| Packet.PacketsOfFrames | packet.go:51-85 | Successive reads of a stream of frames return the payloads in order, when each fits the header. |
| Packet.NonEmpty | client.go:177-179 | The keep-alive skip never passes on more packets than were read. Which ones it passes on is stated by NonEmptyMembers and NonEmptyMultiset. |
| Packet.NonEmptyMembers | client.go:177-179 | What is passed on is exactly the non-empty packets: no keep-alive, and no other packet is dropped. |
| Packet.NonEmptyMultiset | client.go:177-179 | Each non-empty packet is passed on exactly as often as it was read, so a repeated datagram is not lost. |
| Packet.NonEmptyPrefix | client.go:170-186 | Dropping keep-alives keeps order: the packets passed on from a prefix of the reads are a prefix of those from all reads. |
| Client.IsConnectionValid | client.go:102-108 | isConnectionValid holds exactly when the session is set and reaches a carrier through both of its pointers. |
| Client.NewSession | client.go:118-123 | The session built around a fresh carrier passes isConnectionValid, reaches that carrier and is keyed by the peer's address. |
| Client.TunnelClient.constructor | client.go:24-30 | A new client has an empty table and has dialed nothing. |
| Client.TunnelClient.CloseSession | client.go:199-203 | ClientConnection.Close closes the session's carrier when both pointers are set, and changes nothing else. |
| Client.TunnelClient.RemoveConnection | client.go:136-145 | The key is deleted and the session stored under it is closed. An absent key changes nothing. Other keys and dials are untouched. |
| Client.TunnelClient.CreateClientConnection | client.go:111-133 | A failed dial registers nothing. A successful one dials a fresh carrier for the peer and stores the new session under the peer's key, leaving every other key as it was. |
| Client.TunnelClient.SendToServer | client.go:156-158 | One WritePacket on the session's carrier: its bytes are appended to that carrier's output and its error is returned. |
| Client.TunnelClient.SessionFor | client.go:72-90 | A stored session that passes the check is reused: no dial and no change. Otherwise any stale entry is removed and closed before the dial. A failed dial leaves the key absent. |
| Client.TunnelClient.ForwardToServer | client.go:71-99 | Reuse or re-dial as above, then exactly one framed send on the session's carrier. A failed send removes the key, closes that carrier and returns the error, with no retry. The table invariant is kept. |
| Client.Relayed | client.go:170-186 | The replies passed to the peer are a prefix of the non-empty packets of the carrier stream. They are strictly shorter exactly when a send failed. When the k-th send fails, they are exactly the first k non-empty packets: every reply before the failing send was passed on. |
| Client.RelayResponses | client.go:170-186 | The reader loop sends on exactly the replies Relayed describes. Zero-length packets are never sent, and it stops at the first failed read or send. |
| Client.SendStopped | client.go:182-185 | When a send fails, what was already sent is a strict prefix of the non-empty packets. |
| Client.TunnelClient.HandleServerResponse | client.go:161-187 | After relaying, the reader closes its own carrier and removes its peer's key. It closes whatever session is stored under that key, even a newer one. |
| Client.LateReaderEvictsNewerSession | client.go:161-168 | A concrete run: a late reader of a replaced session evicts and closes the newer session of the same peer. |
| Server.DialAttemptsShape | server.go:189-203 | Dials sit at even positions with the outcomes of consecutive dials, and sleeps sit in between. Every dial but the last failed. The last succeeded, unless all attempts were used. |
| Server.DialAttemptsWriteNothing | server.go:189-203 | The redial loop writes no datagram. |
| Server.SleepsBetweenAttempts | server.go:200-202 | A sleep only falls between two dials, never after the last. There is one sleep fewer than dials, so at most UdpRetryCount - 1. |
| Server.Redial | server.go:189-205 | The dial loop from attempt i on ends with success or the redial error, and writes and delivers nothing. |
| Server.RedialLog | server.go:189-203 | The loop appends exactly one run of attempts to the log, one dial each. It resolves and writes nothing. |
| Server.RedialOutcome | server.go:189-205 | The loop succeeds exactly when its last dial did, and only then installs a fresh socket. Otherwise it reports the redial error and keeps the old socket. |
| Server.Reconnect | server.go:176-206 | reconnectUDP ends with success, the resolve error or the redial error, and writes and delivers nothing. |
| Server.ReconnectOrder | server.go:176-185 | reconnectUDP first closes the current socket, then resolves. A failed resolution ends it with an error before any dial. A failed reconnect keeps the closed socket. |
| Server.ReconnectAttempts | server.go:187-205 | After a resolution, 1 to 3 dials follow, all but the last failed. Success means the last dial succeeded and its socket is installed. Failure means all three were used. |
| Server.ReconnectSucceeds | server.go:176-206 | reconnectUDP succeeds exactly when the address resolves and one of the next three dials succeeds. |
| Server.ReconnectWritesNothing | server.go:176-206 | reconnectUDP only appends to the log, and writes and delivers nothing. |
| Server.WriteUdp | server.go:159 | One datagram write on the current socket leaves the socket unchanged and counts one write. The destination receives the datagram exactly when that write succeeds, and nothing otherwise. |
| Server.Forward | server.go:158-173 | forwardToUDP makes one or two writes, and its only error is the write error: a failed reconnect is not reported as such. |
| Server.ForwardFirstWriteOk | server.go:158-172 | A first write that succeeds is all of forwardToUDP: no reconnect, and the datagram is delivered once. |
| Server.ForwardRetry | server.go:159-170 | After a failed write, the write is retried exactly once, on the new socket, and only if the reconnect succeeded. Success overall is success of that retry, and there are never more than two writes. |
| Server.ForwardDelivers | server.go:158-173 | forwardToUDP delivers the datagram exactly once on success and not at all on error. It only appends to the log, and every write carries that datagram. |
| Server.Upstream | server.go:137-155 | The upstream loop consumes no more packets than it is given. Without an error it consumes all of them. With one, the last consumed packet is non-empty and its forward failed with the write error. |
| Server.UpstreamStops | server.go:137-155 | The upstream loop stops only at the end of the stream or at a non-empty packet whose forward failed. Zero-length packets cause no write. |
| Server.UpstreamDelivers | server.go:137-155 | The destination receives, in order, every non-empty packet consumed, except the one whose forward failed. |
| Server.Downstream | server.go:115-134 | The downstream loop runs to the end of the trace exactly when no read fails with a non-timeout error and no reply write fails. A timeout never ends it. |
| Server.DownstreamStopsAt | server.go:119-132 | At the first read error or failed reply write, the loop stops. The carrier then holds the frames of the datagrams before it, plus what the failing WritePacket got out. The loop reports the read failure or that write's error. |
| Server.DownstreamFrames | server.go:115-134 | With no read error and whole writes, the carrier carries exactly the frames of the datagrams read. Timeouts end nothing. |
| Server.DownstreamDecodes | server.go:115-134 | When no read fails, every reply is written whole and each datagram fits the header, the client reads back every datagram the downstream loop read, in order. |
| Server.ServerConnection.ReconnectUdp | server.go:176-206 | The method's new state and error are those of Reconnect. |
| Server.ServerConnection.ForwardToUdp | server.go:158-173 | The method's new state and error are those of Forward. |
| Server.ServerConnection.HandleClientData | server.go:137-155 | The destination side ends as Upstream says for the carrier's packets, and the number of packets read is reported. A forward error is reported as such. |
| Server.ServerConnection.HandleUdpResponse | server.go:115-134 | The carrier output grows by exactly the frames Downstream gives for the read trace. The loop ends as Downstream says. |
| Server.ServerConnection.Close | server.go:209-217 | Both the carrier and the current destination socket are closed. Nothing else changes. |
| Server.NewServerConnection | server.go:83-101 | A failed resolution or first dial is an error with no connection. Otherwise a fresh connection holds the first socket, with one resolution and one dial logged. |
| Launcher.ValidateArgs | main.go:41-61 | No error exactly when all four arguments are set, mode is client or server, and protocol is udp or tcp. Otherwise the error is the earliest failing check in the chain's order. |
| Launcher.InvalidModeFirst | main.go:54-59 | With both addresses set and both mode and protocol unknown, the mode is reported if both are non-empty. An empty mode or protocol is reported as missing, in that order. |
| Launcher.Dispatch | main.go:86-101 | A pair selects an entry point exactly when both values are known. The entry is a UDP one exactly for udp, and a client one exactly for client. |
| Launcher.DispatchInjective | main.go:86-101 | Different (protocol, mode) pairs never select the same entry point. |
| Launcher.DispatchOnto | main.go:86-101 | Each of the four entry points is selected by its own pair. |
| Launcher.Launch | main.go:78-101 | Valid arguments start exactly the entry point their pair selects, with the addresses unchanged. Invalid ones start nothing and report validateArgs' error. |
| Launcher.LaunchSelectsOne | main.go:86-101 | With valid arguments the started entry point is a UDP one exactly for protocol udp, and a client one exactly for mode client. |

## Left out

- Concurrency: the table's `sync.RWMutex`, the goroutines per session and per connection, and races between them. Table operations are sequential atomic steps. The late-reader eviction is shown as a sequence of such steps.
- Real sockets.
  - On the client, a dial and the two writes of a send are outcomes given as inputs (`dialOk`, `WriteOutcome`).
  - A reply send failing is given as the index of the first send that fails (`firstFailedSend`).
  - On the server, resolutions, dials and datagram writes fail as the `Net` value lists them.
  - Datagram reads are a finite trace of reads, timeouts and read errors (`UdpRead`). Running out of trace is a model-only stop (`TraceEnded`).
  - The client's table model does not tie the bytes a session reads to the bytes the server writes. `Server.DownstreamDecodes` states that link for the return path.
- A failed `conn.Write` is modelled as writing nothing, although a real write may get part of its bytes out.
- Timing: the sleep between dials is an event in the log. Its duration and the 10 s and 30 s timeouts are left out. A read deadline that expires is a `TimedOut` entry in the trace.
- Not part of this model, being plumbing around the core:
  - `TunnelClient.Start`, `handleUDPPackets`, `TunnelServer.Start`, `acceptConnections` and `handleClientConnection`;
  - `ServerConnection.Start`, which runs the two loops side by side;
  - `runClient` and `runServer`;
  - `sendUDPResponse`, which becomes one of the sends counted by `firstFailedSend`.
- tcp_tunnel.go, the stream-to-stream relay, is not part of this model. Its entry points appear only as the `RunTcpClient` and `RunTcpServer` choices of `Launcher.Dispatch`.
- Logging, `printUsage`, flag parsing (including the protocol flag's default of udp), the help flag and `os.Exit` are not part of this model. `Launcher.Launch` starts after flag parsing. The text of error messages is not modelled, only which error is returned.
- Server.ServerConnection.ReconnectUdp: the current socket is never nil in the model, because `NewServerConnection` always installs one and no operation clears it. So the close at server.go:177-179 is unconditional.
- Server.ServerConnection.HandleUdpResponse: the trace of datagram reads is free, and nothing ties it to `ReconnectUdp`. In the code, reconnectUDP closes the socket that handleUDPResponse is blocked reading (server.go:177-179 and 119). That read then fails with an error that is not a timeout, so the downstream loop returns (server.go:121-125). Only the upstream loop's return tears the connection down (server.go:104-111). After a recovered destination failure, replies would then stop flowing back while forwarding goes on. The model does not capture this interaction between the two loops. It can be expressed as a trace that has a `ReadFailed` entry where the reconnect happens.
- Server.NewServerConnection: the peer's address comes in as a parameter, where the code reads it from the carrier connection.
- Client.TunnelClient.SessionFor: this is the first half of forwardToServer (client.go:74-90), a separate method in the model only. It adds no behaviour.
