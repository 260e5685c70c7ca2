/**
 * The client's session table (client.go): every datagram peer gets its own
 * carrier connection, found under the peer's address string. Dials, sends
 * and datagram replies are outcomes given from outside; the table
 * operations are atomic steps.
 */
module Client {
  import opened Wrappers
  import opened Packet

  /** Identity of one dialed carrier connection. */
  type CarrierId = nat

  /** A TCPPacketHandler as the table sees it: the carrier it wraps, which may be nil. */
  datatype PacketHandler = PacketHandler(conn: Option<CarrierId>)

  /** A ClientConnection, a peer's session; its handler pointer may be nil. */
  datatype ClientConnection = ClientConnection(tcpHandler: Option<PacketHandler>, clientAddr: string)

  datatype ClientError = DialFailed | SendFailed(cause: PacketError)

  /** The carrier a session reaches through both of its pointers. */
  function Carrier(c: ClientConnection): Option<CarrierId>
  {
    if c.tcpHandler.Some? then c.tcpHandler.value.conn else None
  }

  /** The carriers ClientConnection.Close shuts: its own, when both pointers are set. */
  function Closes(c: ClientConnection): set<CarrierId>
  {
    if Carrier(c).Some? then {Carrier(c).value} else {}
  }

  /** isConnectionValid: a shallow nil check that never probes the carrier. */
  predicate IsConnectionValid(conn: Option<ClientConnection>): (valid: bool)
    ensures valid <==> conn.Some? && Carrier(conn.value).Some?
  {
    conn.Some? && conn.value.tcpHandler.Some? && conn.value.tcpHandler.value.conn.Some?
  }

  /** The session createClientConnection builds around a freshly dialed carrier. */
  function NewSession(clientAddr: string, carrier: CarrierId): (s: ClientConnection)
    ensures IsConnectionValid(Some(s)) && Carrier(s) == Some(carrier) && s.clientAddr == clientAddr
  {
    ClientConnection(Some(PacketHandler(Some(carrier))), clientAddr)
  }

  /**
   * A TunnelClient's table and the carriers it has dialed: `peerOf` is the
   * peer each carrier was dialed for, `closed` the carriers closed so far,
   * `sent` the bytes written on each carrier. Carriers are named by id
   * rather than held as PacketConn objects, so the client keeps its own
   * closed set: what the table invariant needs is which ids are closed,
   * and a set of ids keeps every method's frame to `this`.
   */
  class TunnelClient {
    const localUdp: string
    const remoteTcp: string
    var connections: map<string, ClientConnection>
    var dialed: nat
    var peerOf: map<CarrierId, string>
    var closed: set<CarrierId>
    var sent: map<CarrierId, seq<byte>>

    /** Bookkeeping of the dialed carriers: ids below `dialed`, only dialed ones closed or written. */
    ghost predicate Carriers()
      reads this
    {
      && (forall c :: c in peerOf ==> c < dialed)
      && closed <= peerOf.Keys
      && sent.Keys == peerOf.Keys
    }

    /** The entry under k is k's session, and the carrier it reaches was dialed for k. */
    ghost predicate Registered(k: string)
      reads this
      requires k in connections
    {
      && connections[k].clientAddr == k
      && (Carrier(connections[k]).Some? ==>
            Carrier(connections[k]).value in peerOf && peerOf[Carrier(connections[k]).value] == k)
    }

    /** The carrier of the entry under k has not been closed. */
    ghost predicate Open(k: string)
      reads this
      requires k in connections
    {
      Carrier(connections[k]).Some? ==> Carrier(connections[k]).value !in closed
    }

    /** The table invariant, except that the entry under `key` may already be closed. */
    ghost predicate ValidExcept(key: string)
      reads this
    {
      && Carriers()
      && (forall k :: k in connections ==> Registered(k))
      && (forall k :: k in connections && k != key ==> Open(k))
    }

    /** Every entry is its peer's own session and its carrier is still open. */
    ghost predicate Valid()
      reads this
    {
      && Carriers()
      && (forall k :: k in connections ==> Registered(k) && Open(k))
    }

    /** A session this client dialed for its own peer address. */
    ghost predicate Issued(c: ClientConnection)
      reads this
    {
      Carrier(c).Some? ==> Carrier(c).value in peerOf && peerOf[Carrier(c).value] == c.clientAddr
    }

    /** NewTunnelClient: an empty table. */
    constructor (localUdp: string, remoteTcp: string)
      ensures Valid()
      ensures this.localUdp == localUdp && this.remoteTcp == remoteTcp
      ensures connections == map[] && dialed == 0 && peerOf == map[] && closed == {} && sent == map[]
    {
      this.localUdp, this.remoteTcp := localUdp, remoteTcp;
      connections, dialed, peerOf, closed, sent := map[], 0, map[], {}, map[];
    }

    /** ClientConnection.Close: shuts the session's carrier when both pointers are set. */
    method CloseSession(conn: ClientConnection)
      requires ValidExcept(conn.clientAddr) && Issued(conn)
      modifies this
      ensures ValidExcept(conn.clientAddr)
      ensures closed == old(closed) + Closes(conn)
      ensures connections == old(connections) && dialed == old(dialed)
      ensures peerOf == old(peerOf) && sent == old(sent)
    {
      if conn.tcpHandler.Some? && conn.tcpHandler.value.conn.Some? {
        closed := closed + {conn.tcpHandler.value.conn.value};
      }
    }

    /**
     * removeConnection: deletes whatever session is stored under the key
     * and closes it; an absent key changes nothing. It removes by key, not
     * by session.
     */
    method RemoveConnection(clientKey: string)
      requires ValidExcept(clientKey)
      modifies this
      ensures Valid()
      ensures connections == old(connections) - {clientKey}
      ensures clientKey in old(connections) ==> closed == old(closed) + Closes(old(connections)[clientKey])
      ensures clientKey !in old(connections) ==> closed == old(closed)
      ensures dialed == old(dialed) && peerOf == old(peerOf) && sent == old(sent)
    {
      if clientKey in connections {
        var conn := connections[clientKey];
        connections := connections - {clientKey};
        CloseSession(conn);
      }
    }

    /**
     * createClientConnection: dials the server; on success registers a new
     * session for the peer, on failure registers nothing.
     */
    method CreateClientConnection(clientAddr: string, dialOk: bool)
      returns (r: Result<ClientConnection, ClientError>)
      requires Valid()
      modifies this
      ensures Valid()
      ensures !dialOk ==> r == Failure(DialFailed)
      ensures !dialOk ==>
        && connections == old(connections) && dialed == old(dialed)
        && peerOf == old(peerOf) && sent == old(sent)
      ensures dialOk ==>
        && r == Success(NewSession(clientAddr, old(dialed)))
        && connections == old(connections)[clientAddr := r.value]
        && dialed == old(dialed) + 1
        && peerOf == old(peerOf)[old(dialed) := clientAddr]
        && sent == old(sent)[old(dialed) := []]
      ensures closed == old(closed)
    {
      if !dialOk {
        return Failure(DialFailed);
      }
      var carrier := dialed;
      dialed := dialed + 1;
      peerOf := peerOf[carrier := clientAddr];
      sent := sent[carrier := []];
      var conn := NewSession(clientAddr, carrier);
      connections := connections[clientAddr := conn];
      return Success(conn);
    }

    /** SendToServer: one WritePacket on the session's carrier. */
    method SendToServer(conn: ClientConnection, data: seq<byte>, outcome: WriteOutcome)
      returns (err: Option<PacketError>)
      requires Valid() && Issued(conn) && IsConnectionValid(Some(conn))
      modifies this
      ensures Valid()
      ensures err == WriteError(outcome)
      ensures sent == old(sent)[Carrier(conn).value := old(sent)[Carrier(conn).value] + Written(data, outcome)]
      ensures connections == old(connections) && closed == old(closed)
      ensures dialed == old(dialed) && peerOf == old(peerOf)
    {
      var carrier := conn.tcpHandler.value.conn.value;
      sent := sent[carrier := sent[carrier] + Written(data, outcome)];
      err := WriteError(outcome);
    }

    /**
     * The first half of forwardToServer: the peer's session when it passes
     * the nil check; otherwise the stale entry, if any, is removed and
     * closed, and a new session is dialed.
     */
    method SessionFor(clientAddr: string, dialOk: bool) returns (r: Result<ClientConnection, ClientError>)
      requires Valid()
      modifies this
      ensures Valid()
      ensures r.Success? ==> Issued(r.value) && IsConnectionValid(Some(r.value))
      ensures clientAddr in old(connections) && IsConnectionValid(Some(old(connections)[clientAddr])) ==>
        && r == Success(old(connections)[clientAddr])
        && connections == old(connections) && closed == old(closed)
        && dialed == old(dialed) && peerOf == old(peerOf) && sent == old(sent)
      ensures !(clientAddr in old(connections) && IsConnectionValid(Some(old(connections)[clientAddr]))) ==>
        var stale := if clientAddr in old(connections) then Closes(old(connections)[clientAddr]) else {};
        && closed == old(closed) + stale
        && (!dialOk ==>
              && r == Failure(DialFailed)
              && connections == old(connections) - {clientAddr}
              && dialed == old(dialed) && peerOf == old(peerOf) && sent == old(sent))
        && (dialOk ==>
              && r == Success(NewSession(clientAddr, old(dialed)))
              && connections == old(connections)[clientAddr := r.value]
              && dialed == old(dialed) + 1
              && peerOf == old(peerOf)[old(dialed) := clientAddr]
              && sent == old(sent)[old(dialed) := []])
    {
      var clientKey := clientAddr;
      var found := clientKey in connections;
      if found && IsConnectionValid(Some(connections[clientKey])) {
        assert Registered(clientKey);
        return Success(connections[clientKey]);
      }
      if found {
        RemoveConnection(clientKey);
      }
      r := CreateClientConnection(clientAddr, dialOk);
    }

    /**
     * forwardToServer: frames the datagram onto the session SessionFor
     * gives; a failed send removes the key and is reported, with no retry.
     */
    method ForwardToServer(clientAddr: string, data: seq<byte>, dialOk: bool, outcome: WriteOutcome)
      returns (err: Option<ClientError>)
      requires Valid()
      modifies this
      ensures Valid()
      // a session that passes the check is reused: no dial
      ensures clientAddr in old(connections) && IsConnectionValid(Some(old(connections)[clientAddr])) ==>
        var c := Carrier(old(connections)[clientAddr]).value;
        && dialed == old(dialed) && peerOf == old(peerOf)
        && sent == old(sent)[c := old(sent)[c] + Written(data, outcome)]
        && (outcome == BothSucceed ==>
              err == None && connections == old(connections) && closed == old(closed))
        && (outcome != BothSucceed ==>
              && err == Some(SendFailed(WriteError(outcome).value))
              && connections == old(connections) - {clientAddr}
              && closed == old(closed) + {c})
      // otherwise a stale entry is removed and closed before the dial
      ensures !(clientAddr in old(connections) && IsConnectionValid(Some(old(connections)[clientAddr]))) ==>
        var stale := if clientAddr in old(connections) then Closes(old(connections)[clientAddr]) else {};
        && (!dialOk ==>
              && err == Some(DialFailed)
              && connections == old(connections) - {clientAddr}
              && closed == old(closed) + stale
              && dialed == old(dialed) && peerOf == old(peerOf) && sent == old(sent))
        && (dialOk ==>
              && dialed == old(dialed) + 1
              && peerOf == old(peerOf)[old(dialed) := clientAddr]
              && sent == old(sent)[old(dialed) := Written(data, outcome)]
              && (outcome == BothSucceed ==>
                    && err == None
                    && connections == old(connections)[clientAddr := NewSession(clientAddr, old(dialed))]
                    && closed == old(closed) + stale)
              && (outcome != BothSucceed ==>
                    && err == Some(SendFailed(WriteError(outcome).value))
                    && connections == old(connections) - {clientAddr}
                    && closed == old(closed) + stale + {old(dialed)}))
    {
      var clientKey := clientAddr;
      var conn := SessionFor(clientAddr, dialOk);
      if conn.Failure? {
        return Some(DialFailed);
      }
      ghost var c := Carrier(conn.value).value;
      ghost var reused := clientAddr in old(connections) && IsConnectionValid(Some(old(connections)[clientAddr]));
      assert !reused ==> c == old(dialed) && [] + Written(data, outcome) == Written(data, outcome);
      var sendErr := SendToServer(conn.value, data, outcome);
      if sendErr.Some? {
        RemoveConnection(clientKey);
        return Some(SendFailed(sendErr.value));
      }
      return None;
    }

    /**
     * HandleServerResponse: the session's reader relays the carrier's
     * packets to the peer until a read or a send fails; then it closes its
     * own session and removes the key, which by then may hold a newer
     * session of the same peer.
     */
    method HandleServerResponse(conn: ClientConnection, stream: seq<byte>, firstFailedSend: nat)
      returns (responses: seq<seq<byte>>)
      requires Valid() && Issued(conn)
      modifies this
      ensures Valid()
      ensures responses == Relayed(stream, firstFailedSend)
      ensures connections == old(connections) - {conn.clientAddr}
      ensures closed == old(closed) + Closes(conn)
        + (if conn.clientAddr in old(connections) then Closes(old(connections)[conn.clientAddr]) else {})
      ensures dialed == old(dialed) && peerOf == old(peerOf) && sent == old(sent)
    {
      responses := RelayResponses(stream, firstFailedSend);
      CloseSession(conn);
      RemoveConnection(conn.clientAddr);
    }
  }

  /**
   * The replies a session's reader passes to the peer: the non-empty
   * packets of the carrier stream, up to the first failed send (the
   * `firstFailedSend`-th one; none fails when there are fewer replies).
   */
  function Relayed(stream: seq<byte>, firstFailedSend: nat): (responses: seq<seq<byte>>)
    ensures responses <= NonEmpty(Packets(stream))
    ensures |responses| < |NonEmpty(Packets(stream))| <==> firstFailedSend < |NonEmpty(Packets(stream))|
    ensures |responses| <= firstFailedSend
    ensures firstFailedSend < |NonEmpty(Packets(stream))| ==> responses == NonEmpty(Packets(stream))[..firstFailedSend]
  {
    var replies := NonEmpty(Packets(stream));
    if firstFailedSend < |replies| then replies[..firstFailedSend] else replies
  }

  /**
   * The loop of HandleServerResponse: reads packets off the carrier stream
   * and sends every non-empty one to the peer as a datagram, stopping at
   * the first failed read or failed send. `stream` is what the server
   * sends on the carrier; the `firstFailedSend`-th send is the first that
   * fails. Zero-length packets are keep-alives and are never sent on.
   */
  method RelayResponses(stream: seq<byte>, firstFailedSend: nat) returns (responses: seq<seq<byte>>)
    ensures responses == Relayed(stream, firstFailedSend)
  {
    var handler := new PacketConn(stream);
    ghost var read: seq<seq<byte>> := [];
    responses := [];
    while true
      invariant handler.Valid() && handler.input == stream
      invariant Packets(stream) == read + Packets(handler.Remaining())
      invariant responses == NonEmpty(read)
      invariant |responses| <= firstFailedSend
      decreases |handler.Remaining()|
    {
      ghost var rest := handler.Remaining();
      var r := handler.ReadPacket();
      PacketsAfterRead(stream, read, rest);
      if r.Failure? {
        assert responses == NonEmpty(Packets(stream));
        return;
      }
      var data := r.value;
      NonEmptySnoc(read, data);
      read := read + [data];
      if |data| == 0 {
        assert responses + [] == responses;
        continue;
      }
      if |responses| == firstFailedSend {
        SendStopped(stream, read, responses);
        return;
      }
      responses := responses + [data];
    }
  }

  /** When a reply fails to go out, what was sent is a strict prefix of the packets to relay. */
  lemma SendStopped(stream: seq<byte>, read: seq<seq<byte>>, responses: seq<seq<byte>>)
    requires read <= Packets(stream)
    requires |NonEmpty(read)| == |responses| + 1 && responses <= NonEmpty(read)
    ensures |responses| < |NonEmpty(Packets(stream))|
    ensures responses == NonEmpty(Packets(stream))[..|responses|]
  {
    assert Packets(stream)[..|read|] == read;
    NonEmptyPrefix(Packets(stream), |read|);
  }

  /**
   * The late-reader race, step by step: peer p's first session fails a
   * send and is removed; the next datagram from p dials a second session
   * under the same key; then the first session's reader ends and, removing
   * by key, evicts and closes the second session.
   */
  method LateReaderEvictsNewerSession() returns (evicted: bool, newerClosed: bool)
    ensures evicted && newerClosed
  {
    var client := new TunnelClient(":8080", "server.example.com:9090");
    var peer := "127.0.0.1:5000";
    var err := client.ForwardToServer(peer, [1], true, DataFails);
    var first := NewSession(peer, 0);
    err := client.ForwardToServer(peer, [2], true, BothSucceed);
    assert client.connections[peer] == NewSession(peer, 1);
    var replies := client.HandleServerResponse(first, [], 0);
    evicted := peer !in client.connections;
    newerClosed := 1 in client.closed;
  }
}
