/**
 * The server side of one carrier connection (server.go). Frames read from
 * the carrier are written to a datagram socket dialed to the fixed
 * destination; datagrams read from that socket go back framed. A failed
 * destination write closes the socket, resolves the destination again,
 * redials at most three times, and retries the write once.
 *
 * The destination network is an oracle: the k-th resolution, dial and
 * datagram write fail exactly when `Net` lists k. Everything that happens
 * on the destination side is recorded, in order, in an event log, and the
 * datagrams the destination receives are kept beside it.
 */
module Server {
  import opened Wrappers
  import opened Packet

  /** Identity of one destination datagram socket. */
  type SocketId = nat

  /** Which address resolutions, dials and datagram writes fail, by their index. */
  datatype Net = Net(failedResolves: set<nat>, failedDials: set<nat>, failedWrites: set<nat>)
  {
    predicate ResolveOk(k: nat) { k !in failedResolves }
    predicate DialOk(k: nat) { k !in failedDials }
    predicate WriteOk(k: nat) { k !in failedWrites }
  }

  /** What happens on the destination side. */
  datatype DestEvent =
    | CloseSocket(sock: SocketId)
    | Resolve(ok: bool)
    | Dial(ok: bool)
    | Sleep
    | Write(sock: SocketId, data: seq<byte>, ok: bool)

  /**
   * The destination side of a ServerConnection: the current socket, how
   * many sockets, resolutions, dials and writes there have been, the
   * event log, and the datagrams the destination has received.
   */
  datatype Dest = Dest(udpConn: SocketId, sockets: nat, resolves: nat, dials: nat, writes: nat,
                       log: seq<DestEvent>, received: seq<seq<byte>>)

  datatype ServerError =
    | ResolveFailed    // the destination address did not resolve
    | DialUdpFailed    // the first dial of the destination failed
    | RedialFailed     // every redial attempt failed
    | UdpWriteFailed   // a destination write failed and was not recovered

  /** Why the upstream loop (handleClientData) ended. */
  datatype UpstreamEnd = CarrierReadFailed(cause: PacketError) | ForwardFailed(error: ServerError)

  /** One wake-up of the downstream loop: a datagram (with how framing it back goes), a read timeout, or a read error. */
  datatype UdpRead = Datagram(data: seq<byte>, reply: WriteOutcome) | TimedOut | ReadFailed

  /** Why the downstream loop (handleUDPResponse) ended; TraceEnded means the given trace ran out. */
  datatype DownstreamEnd = UdpReadFailed | CarrierWriteFailed(writeError: PacketError) | TraceEnded

  /** The number of dial attempts in a run of reconnectUDP's loop. */
  function Attempts(e: seq<DestEvent>): nat
  {
    (|e| + 1) / 2
  }

  /**
   * The events of reconnectUDP's loop from attempt i on, whose dial is the
   * k-th one: a dial, and after a failed one a sleep unless it was the
   * last attempt; the run stops at the first dial that succeeds.
   */
  function DialAttempts(net: Net, k: nat, i: nat): (e: seq<DestEvent>)
    requires i < UdpRetryCount
    ensures |e| % 2 == 1 && i + Attempts(e) <= UdpRetryCount
    decreases UdpRetryCount - i
  {
    if net.DialOk(k) || i == UdpRetryCount - 1 then [Dial(net.DialOk(k))]
    else [Dial(false), Sleep] + DialAttempts(net, k + 1, i + 1)
  }

  /**
   * The shape of a run of attempts: dials at even positions with the
   * outcomes of consecutive dials, sleeps in between; every dial but the
   * last failed, and the last one succeeded unless the run used every
   * attempt.
   */
  lemma {:induction false} DialAttemptsShape(net: Net, k: nat, i: nat)
    requires i < UdpRetryCount
    ensures var e := DialAttempts(net, k, i);
      && (forall j :: 0 <= j < |e| ==> e[j] == if j % 2 == 0 then Dial(net.DialOk(k + j / 2)) else Sleep)
      && (forall m :: k <= m < k + Attempts(e) - 1 ==> !net.DialOk(m))
      && (net.DialOk(k + Attempts(e) - 1) || i + Attempts(e) == UdpRetryCount)
    decreases UdpRetryCount - i
  {
    if !(net.DialOk(k) || i == UdpRetryCount - 1) {
      DialAttemptsShape(net, k + 1, i + 1);
      var rest := DialAttempts(net, k + 1, i + 1);
      var e := DialAttempts(net, k, i);
      assert e == [Dial(false), Sleep] + rest;
      forall j | 2 <= j < |e|
        ensures e[j] == if j % 2 == 0 then Dial(net.DialOk(k + j / 2)) else Sleep
      {
        assert e[j] == rest[j - 2];
        assert (j - 2) / 2 == j / 2 - 1 && (j - 2) % 2 == j % 2;
      }
    }
  }

  /** A run of attempts holds no write. */
  lemma DialAttemptsWriteNothing(net: Net, k: nat, i: nat)
    requires i < UdpRetryCount
    ensures var e := DialAttempts(net, k, i); forall j :: 0 <= j < |e| ==> !e[j].Write?
  {
    DialAttemptsShape(net, k, i);
  }

  /**
   * Sleeps come only between two dials, never first or last, so a run of
   * attempts sleeps once fewer than it dials: at most UdpRetryCount - 1 times.
   */
  lemma SleepsBetweenAttempts(net: Net, k: nat, i: nat)
    requires i < UdpRetryCount
    ensures var e := DialAttempts(net, k, i);
      && (forall j :: 0 <= j < |e| && e[j] == Sleep ==> 0 < j < |e| - 1 && e[j - 1].Dial? && e[j + 1].Dial?)
      && e[|e| - 1].Dial?
      && |e| - Attempts(e) == Attempts(e) - 1 <= UdpRetryCount - 1
  {
    DialAttemptsShape(net, k, i);
  }

  /**
   * The state reached by reconnectUDP's loop from attempt i on: the first
   * dial that succeeds installs a fresh socket; after the last failed
   * attempt the old socket stays.
   */
  function Redial(net: Net, d: Dest, i: nat): (r: (Dest, Option<ServerError>))
    requires i < UdpRetryCount
    ensures r.1 == None || r.1 == Some(RedialFailed)
    ensures r.0.writes == d.writes && r.0.received == d.received
    decreases UdpRetryCount - i
  {
    var ok := net.DialOk(d.dials);
    var dialed := d.(dials := d.dials + 1, log := d.log + [Dial(ok)]);
    if ok then (dialed.(udpConn := d.sockets, sockets := d.sockets + 1), None)
    else if i == UdpRetryCount - 1 then (dialed, Some(RedialFailed))
    else Redial(net, dialed.(log := dialed.log + [Sleep]), i + 1)
  }

  /**
   * The loop's events: the log grows by exactly one run of attempts, one
   * dial per attempt. Nothing is resolved or written.
   */
  lemma {:induction false} RedialLog(net: Net, d: Dest, i: nat)
    requires i < UdpRetryCount
    ensures var r := Redial(net, d, i).0;
      var e := DialAttempts(net, d.dials, i);
      && r.log == d.log + e && r.dials == d.dials + Attempts(e)
      && r.resolves == d.resolves && r.writes == d.writes && r.received == d.received
    decreases UdpRetryCount - i
  {
    if !(net.DialOk(d.dials) || i == UdpRetryCount - 1) {
      var next := d.(dials := d.dials + 1, log := d.log + [Dial(false)] + [Sleep]);
      RedialLog(net, next, i + 1);
      var rest := DialAttempts(net, d.dials + 1, i + 1);
      Associative(d.log, [Dial(false)] + [Sleep], rest);
    }
  }

  /**
   * The loop's outcome: it succeeds exactly when the last dial did, and
   * only then replaces the socket with a fresh one.
   */
  lemma {:induction false} RedialOutcome(net: Net, d: Dest, i: nat)
    requires i < UdpRetryCount
    ensures var (r, err) := Redial(net, d, i);
      && d.dials < r.dials
      && (err == None <==> net.DialOk(r.dials - 1))
      && (err == None ==> r.udpConn == d.sockets && r.sockets == d.sockets + 1)
      && (err.Some? ==> err == Some(RedialFailed) && r.udpConn == d.udpConn && r.sockets == d.sockets)
    decreases UdpRetryCount - i
  {
    if !(net.DialOk(d.dials) || i == UdpRetryCount - 1) {
      RedialOutcome(net, d.(dials := d.dials + 1, log := d.log + [Dial(false)] + [Sleep]), i + 1);
    }
  }

  /** reconnectUDP on the destination state d: the new state and the error it returns. */
  function Reconnect(net: Net, d: Dest): (r: (Dest, Option<ServerError>))
    ensures r.1 == None || r.1 == Some(ResolveFailed) || r.1 == Some(RedialFailed)
    ensures r.0.writes == d.writes && r.0.received == d.received
  {
    var resolved := net.ResolveOk(d.resolves);
    var closed := d.(resolves := d.resolves + 1, log := d.log + [CloseSocket(d.udpConn)] + [Resolve(resolved)]);
    if !resolved then (closed, Some(ResolveFailed))
    else Redial(net, closed, 0)
  }

  /** One datagram write on the current socket; the destination receives the datagram when the write succeeds. */
  function WriteUdp(net: Net, d: Dest, data: seq<byte>): (r: Dest)
    ensures r.udpConn == d.udpConn && r.sockets == d.sockets && r.writes == d.writes + 1
    ensures r.received == d.received + [data] <==> net.WriteOk(d.writes)
    ensures !net.WriteOk(d.writes) ==> r.received == d.received
  {
    var ok := net.WriteOk(d.writes);
    d.(writes := d.writes + 1, log := d.log + [Write(d.udpConn, data, ok)],
       received := if ok then d.received + [data] else d.received)
  }

  /**
   * forwardToUDP on the destination state d: one write; if it fails, a
   * reconnect, and after a successful reconnect exactly one more write.
   */
  function Forward(net: Net, d: Dest, data: seq<byte>): (r: (Dest, Option<ServerError>))
    ensures r.1 == None || r.1 == Some(UdpWriteFailed)
    ensures d.writes < r.0.writes <= d.writes + 2
  {
    var written := WriteUdp(net, d, data);
    if net.WriteOk(d.writes) then (written, None)
    else
      var (reconnected, err) := Reconnect(net, written);
      if err.Some? then (reconnected, Some(UdpWriteFailed))
      else (WriteUdp(net, reconnected, data), if net.WriteOk(reconnected.writes) then None else Some(UdpWriteFailed))
  }

  /**
   * reconnectUDP first closes the current socket, then resolves; dials
   * come only after both. A failed resolution ends it with no dial; a
   * failed redial leaves the closed socket in place.
   */
  lemma ReconnectOrder(net: Net, d: Dest)
    ensures var (r, err) := Reconnect(net, d);
      && |r.log| >= |d.log| + 2
      && r.log[..|d.log|] == d.log
      && r.log[|d.log|] == CloseSocket(d.udpConn)
      && r.log[|d.log| + 1] == Resolve(net.ResolveOk(d.resolves))
      && (!net.ResolveOk(d.resolves) ==>
            err == Some(ResolveFailed) && r.dials == d.dials && |r.log| == |d.log| + 2)
      && (err.Some? ==> r.udpConn == d.udpConn && r.sockets == d.sockets)
  {
    var resolved := net.ResolveOk(d.resolves);
    var closed := d.(resolves := d.resolves + 1, log := d.log + [CloseSocket(d.udpConn)] + [Resolve(resolved)]);
    if resolved {
      RedialLog(net, closed, 0);
      RedialOutcome(net, closed, 0);
    }
  }

  /**
   * After a successful resolution the log goes on with one run of dial
   * attempts (whose shape DialAttemptsShape states): at most three dials,
   * all but the last failed, and reconnectUDP succeeds exactly when the
   * last one did, installing a fresh socket; a failed redial has used all
   * three attempts.
   */
  lemma ReconnectAttempts(net: Net, d: Dest)
    requires net.ResolveOk(d.resolves)
    ensures var (r, err) := Reconnect(net, d);
      var e := DialAttempts(net, d.dials, 0);
      && r.log == d.log + [CloseSocket(d.udpConn), Resolve(true)] + e
      && r.dials == d.dials + Attempts(e)
      && 1 <= r.dials - d.dials <= UdpRetryCount
      && (forall k :: d.dials <= k < r.dials - 1 ==> !net.DialOk(k))
      && (err == None <==> net.DialOk(r.dials - 1))
      && (err == None ==> r.udpConn == d.sockets && r.sockets == d.sockets + 1)
      && (err.Some? ==> err == Some(RedialFailed) && r.dials == d.dials + UdpRetryCount)
  {
    var closed := d.(resolves := d.resolves + 1, log := d.log + [CloseSocket(d.udpConn)] + [Resolve(true)]);
    RedialLog(net, closed, 0);
    RedialOutcome(net, closed, 0);
    DialAttemptsShape(net, d.dials, 0);
    assert d.log + [CloseSocket(d.udpConn)] + [Resolve(true)] == d.log + [CloseSocket(d.udpConn), Resolve(true)];
  }

  /** reconnectUDP succeeds exactly when the address resolves and one of the next three dials succeeds. */
  lemma ReconnectSucceeds(net: Net, d: Dest)
    ensures Reconnect(net, d).1 == None <==>
      net.ResolveOk(d.resolves) && exists k :: d.dials <= k < d.dials + UdpRetryCount && net.DialOk(k)
  {
    if net.ResolveOk(d.resolves) {
      var e := DialAttempts(net, d.dials, 0);
      DialAttemptsShape(net, d.dials, 0);
      var n := Attempts(e);
      if Reconnect(net, d).1 == None {
        assert net.DialOk(d.dials + n - 1);
      } else {
        assert forall k :: d.dials <= k < d.dials + UdpRetryCount ==> !net.DialOk(k) by {
          forall k | d.dials <= k < d.dials + UdpRetryCount ensures !net.DialOk(k) {
            if k < d.dials + n - 1 {
            } else {
              assert k == d.dials + n - 1;
            }
          }
        }
      }
    }
  }

  /** A first write that succeeds is the whole of forwardToUDP: no reconnect, the socket is kept. */
  lemma ForwardFirstWriteOk(net: Net, d: Dest, data: seq<byte>)
    requires net.WriteOk(d.writes)
    ensures var (r, err) := Forward(net, d, data);
      && err == None
      && r == d.(writes := d.writes + 1, log := d.log + [Write(d.udpConn, data, true)], received := d.received + [data])
  {
  }

  /**
   * After a failed write, forwardToUDP reconnects and writes once more,
   * to the new socket, only if the reconnect succeeded; it succeeds
   * overall exactly when that retry does. It never writes more than twice.
   */
  lemma ForwardRetry(net: Net, d: Dest, data: seq<byte>)
    requires !net.WriteOk(d.writes)
    ensures var (r, err) := Forward(net, d, data);
      var (reconnected, reconnectErr) := Reconnect(net, WriteUdp(net, d, data));
      && (reconnectErr.Some? ==> err == Some(UdpWriteFailed) && r == reconnected)
      && (reconnectErr == None ==>
            && r.writes == d.writes + 2
            && r.log == reconnected.log + [Write(d.sockets, data, net.WriteOk(d.writes + 1))]
            && (err == None <==> net.WriteOk(d.writes + 1)))
      && r.writes <= d.writes + 2
  {
    var written := WriteUdp(net, d, data);
    ReconnectWritesNothing(net, written);
    if Reconnect(net, written).1 == None {
      ReconnectAttempts(net, written);
    }
  }

  /** reconnectUDP only appends to the log and writes nothing: the destination receives nothing. */
  lemma ReconnectWritesNothing(net: Net, d: Dest)
    ensures var r := Reconnect(net, d).0;
      && d.log <= r.log
      && (forall j :: |d.log| <= j < |r.log| ==> !r.log[j].Write?)
      && r.writes == d.writes && r.received == d.received
  {
    var resolved := net.ResolveOk(d.resolves);
    var closed := d.(resolves := d.resolves + 1, log := d.log + [CloseSocket(d.udpConn)] + [Resolve(resolved)]);
    if resolved {
      var e := DialAttempts(net, d.dials, 0);
      RedialLog(net, closed, 0);
      DialAttemptsWriteNothing(net, d.dials, 0);
      NoWritesAfter(d.log, [CloseSocket(d.udpConn), Resolve(true)], e);
    }
  }

  /** Appending two runs of events that hold no write keeps the old log as a prefix and adds no write. */
  lemma NoWritesAfter(log: seq<DestEvent>, a: seq<DestEvent>, e: seq<DestEvent>)
    requires forall j :: 0 <= j < |a| ==> !a[j].Write?
    requires forall j :: 0 <= j < |e| ==> !e[j].Write?
    ensures var all := log + a + e;
      && log <= all
      && forall j :: |log| <= j < |all| ==> !all[j].Write?
  {
    var all := log + a + e;
    forall j | |log| <= j < |all| ensures !all[j].Write? {
      if j < |log| + |a| {
        assert all[j] == a[j - |log|];
      } else {
        assert all[j] == e[j - |log| - |a|];
      }
    }
  }

  /**
   * forwardToUDP delivers the datagram once when it succeeds and not at
   * all when it fails; it only appends to the log, and every write it
   * makes carries that datagram.
   */
  lemma ForwardDelivers(net: Net, d: Dest, data: seq<byte>)
    ensures var (r, err) := Forward(net, d, data);
      && r.received == d.received + (if err == None then [data] else [])
      && d.log <= r.log
      && (forall j :: |d.log| <= j < |r.log| && r.log[j].Write? ==> r.log[j].data == data)
  {
    var written := WriteUdp(net, d, data);
    if !net.WriteOk(d.writes) {
      var (reconnected, err) := Reconnect(net, written);
      ReconnectWritesNothing(net, written);
      assert reconnected.log[|d.log|] == written.log[|d.log|];
      if err == None {
        var r := WriteUdp(net, reconnected, data);
        forall j | |d.log| <= j < |r.log| && r.log[j].Write? ensures r.log[j].data == data {
          if j < |reconnected.log| {
            assert r.log[j] == reconnected.log[j];
          }
        }
      }
    }
  }

  /** Where the upstream loop leaves the destination side, the error that ended it, and how many packets it consumed. */
  datatype Upstreamed = Upstreamed(dest: Dest, err: Option<ServerError>, consumed: nat)

  /**
   * The upstream loop over the packets ps read from the carrier: a
   * zero-length packet is skipped, every other one forwarded, until a
   * forward fails.
   */
  function Upstream(net: Net, d: Dest, ps: seq<seq<byte>>): (u: Upstreamed)
    ensures u.consumed <= |ps|
    ensures u.err == None ==> u.consumed == |ps|
    ensures u.err.Some? ==> 0 < u.consumed && |ps[u.consumed - 1]| > 0 && u.err == Some(UdpWriteFailed)
    decreases |ps|
  {
    if ps == [] then Upstreamed(d, None, 0)
    else if |ps[0]| == 0 then
      var u := Upstream(net, d, ps[1..]);
      u.(consumed := u.consumed + 1)
    else
      var (forwarded, err) := Forward(net, d, ps[0]);
      if err.Some? then Upstreamed(forwarded, err, 1)
      else
        var u := Upstream(net, forwarded, ps[1..]);
        u.(consumed := u.consumed + 1)
  }

  /** Dropping keep-alives, read from the front. */
  lemma {:induction false} NonEmptyCons(p: seq<byte>, ps: seq<seq<byte>>)
    ensures NonEmpty([p] + ps) == (if |p| > 0 then [p] else []) + NonEmpty(ps)
    decreases |ps|
  {
    if ps == [] {
      assert NonEmpty([p] + ps) == NonEmpty([] + [p]) by { assert [p] + ps == [] + [p]; }
      NonEmptySnoc([], p);
    } else {
      var init, last := ps[..|ps| - 1], ps[|ps| - 1];
      NonEmptyCons(p, init);
      assert [p] + ps == ([p] + init) + [last];
      NonEmptySnoc([p] + init, last);
      NonEmptySnoc(init, last);
      assert ps == init + [last];
    }
  }

  /**
   * The upstream loop stops only at a non-empty packet whose forward
   * failed, or after the last packet; it only appends to the log, and
   * every datagram it writes is non-empty.
   */
  lemma {:induction false} UpstreamStops(net: Net, d: Dest, ps: seq<seq<byte>>)
    ensures var u := Upstream(net, d, ps);
      && (u.err == None ==> u.consumed == |ps|)
      && (u.err.Some? ==> 0 < u.consumed && |ps[u.consumed - 1]| > 0)
      && d.log <= u.dest.log
      && (forall j :: |d.log| <= j < |u.dest.log| && u.dest.log[j].Write? ==> |u.dest.log[j].data| > 0)
    decreases |ps|
  {
    if ps != [] {
      var p, tail := ps[0], ps[1..];
      if |p| == 0 {
        UpstreamStops(net, d, tail);
        var u := Upstream(net, d, tail);
        if u.err.Some? {
          assert ps[u.consumed] == tail[u.consumed - 1];
        }
      } else {
        var (forwarded, err) := Forward(net, d, p);
        ForwardDelivers(net, d, p);
        if err == None {
          UpstreamStops(net, forwarded, tail);
          var u := Upstream(net, forwarded, tail);
          if u.err.Some? {
            assert ps[u.consumed] == tail[u.consumed - 1];
          }
          forall j | |d.log| <= j < |u.dest.log| && u.dest.log[j].Write? ensures |u.dest.log[j].data| > 0 {
            if j < |forwarded.log| {
              assert u.dest.log[j] == forwarded.log[j];
            }
          }
        }
      }
    }
  }

  /**
   * The upstream loop delivers, in order, every non-empty packet it
   * consumed, except the one whose forward failed.
   */
  lemma {:induction false} UpstreamDelivers(net: Net, d: Dest, ps: seq<seq<byte>>)
    ensures var u := Upstream(net, d, ps);
      && (u.err == None ==> u.dest.received == d.received + NonEmpty(ps))
      && (u.err.Some? ==> 0 < u.consumed && u.dest.received == d.received + NonEmpty(ps[..u.consumed - 1]))
    decreases |ps|
  {
    if ps == [] {
      assert d.received + NonEmpty(ps) == d.received;
    } else {
      var p, tail := ps[0], ps[1..];
      assert ps == [p] + tail;
      var start := d;
      if |p| > 0 {
        var (forwarded, err) := Forward(net, d, p);
        assert forwarded.received == d.received + (if err == None then [p] else []) by {
          ForwardDelivers(net, d, p);
        }
        if err.Some? {
          assert ps[..0] == [] && d.received + [] == d.received;
          return;
        }
        start := forwarded;
      }
      UpstreamDelivers(net, start, tail);
      var u := Upstream(net, start, tail);
      assert Upstream(net, d, ps) == u.(consumed := u.consumed + 1);
      DeliveredAfter(d.received, start.received, p, tail, u);
    }
  }

  /**
   * One packet p, then the rest of the loop: if p's forward delivered p
   * (when non-empty) and the rest delivered the non-empty packets of tail
   * it consumed, together they delivered those of [p] + tail.
   */
  lemma DeliveredAfter(before: seq<seq<byte>>, start: seq<seq<byte>>, p: seq<byte>, tail: seq<seq<byte>>, u: Upstreamed)
    requires start == before + (if |p| > 0 then [p] else [])
    requires u.consumed <= |tail|
    requires u.err == None ==> u.dest.received == start + NonEmpty(tail)
    requires u.err.Some? ==> 0 < u.consumed && u.dest.received == start + NonEmpty(tail[..u.consumed - 1])
    ensures var ps := [p] + tail;
      && (u.err == None ==> u.dest.received == before + NonEmpty(ps))
      && (u.err.Some? ==> u.dest.received == before + NonEmpty(ps[..u.consumed]))
  {
    var ps := [p] + tail;
    var head := if |p| > 0 then [p] else [];
    if u.err.Some? {
      var rest := tail[..u.consumed - 1];
      NonEmptyCons(p, rest);
      assert ps[..u.consumed] == [p] + rest;
      Associative(before, head, NonEmpty(rest));
    } else {
      NonEmptyCons(p, tail);
      Associative(before, head, NonEmpty(tail));
    }
  }

  lemma Associative<T>(a: seq<T>, b: seq<T>, c: seq<T>)
    ensures a + b + c == a + (b + c)
  {
  }

  /** A wake-up that ends handleUDPResponse: a read error other than a timeout, or a reply that is not written whole. */
  predicate Ends(r: UdpRead)
  {
    r.ReadFailed? || (r.Datagram? && r.reply != BothSucceed)
  }

  /** No wake-up of the trace ends handleUDPResponse. */
  predicate NeverEnds(trace: seq<UdpRead>)
  {
    forall j :: 0 <= j < |trace| ==> !Ends(trace[j])
  }

  /**
   * The frames handleUDPResponse writes to the carrier for the given trace,
   * and why it stops: it runs to the end of the trace exactly when no
   * wake-up in it ends the loop, so a timeout never ends it.
   */
  function Downstream(trace: seq<UdpRead>): (r: (seq<byte>, DownstreamEnd))
    ensures r.1 == TraceEnded <==> NeverEnds(trace)
  {
    if trace == [] then ([], TraceEnded)
    else
      assert forall j :: 1 <= j < |trace| ==> trace[j] == trace[1..][j - 1];
      match trace[0]
      case TimedOut => Downstream(trace[1..])
      case ReadFailed => ([], UdpReadFailed)
      case Datagram(data, reply) =>
        if reply != BothSucceed then (Written(data, reply), CarrierWriteFailed(WriteError(reply).value))
        else
          var rest := Downstream(trace[1..]);
          (Frame(data) + rest.0, rest.1)
  }

  /** The datagrams in the trace, in order; timeouts carry none. */
  function Datagrams(trace: seq<UdpRead>): seq<seq<byte>>
  {
    if trace == [] then []
    else (if trace[0].Datagram? then [trace[0].data] else []) + Datagrams(trace[1..])
  }

  /**
   * When no read fails and every reply is written whole, the carrier
   * carries exactly the frames of the received datagrams, and a timeout
   * ends nothing.
   */
  lemma {:induction false} DownstreamFrames(trace: seq<UdpRead>)
    requires forall j :: 0 <= j < |trace| ==> !trace[j].ReadFailed?
    requires forall j :: 0 <= j < |trace| && trace[j].Datagram? ==> trace[j].reply == BothSucceed
    ensures Downstream(trace) == (Frames(Datagrams(trace)), TraceEnded)
  {
    if trace != [] {
      DownstreamFrames(trace[1..]);
      if trace[0].Datagram? {
        assert Datagrams(trace) == [trace[0].data] + Datagrams(trace[1..]);
        assert ([trace[0].data] + Datagrams(trace[1..]))[1..] == Datagrams(trace[1..]);
      } else {
        assert Datagrams(trace) == Datagrams(trace[1..]);
      }
    }
  }

  /**
   * At the first wake-up j that ends the loop, the carrier holds the frames
   * of the datagrams before j, followed, when j is a reply write that
   * failed, by what that WritePacket got out; the loop reports a read
   * failure or the write's error.
   */
  lemma {:induction false} DownstreamStopsAt(trace: seq<UdpRead>, j: nat)
    requires j < |trace| && Ends(trace[j])
    requires forall i :: 0 <= i < j ==> !Ends(trace[i])
    ensures trace[j].ReadFailed? ==> Downstream(trace) == (Frames(Datagrams(trace[..j])), UdpReadFailed)
    ensures trace[j].Datagram? ==>
      Downstream(trace) == (Frames(Datagrams(trace[..j])) + Written(trace[j].data, trace[j].reply),
                            CarrierWriteFailed(WriteError(trace[j].reply).value))
  {
    if j == 0 {
      assert Frames(Datagrams(trace[..j])) == [] by { assert trace[..j] == []; }
      if trace[0].Datagram? {
        assert [] + Written(trace[0].data, trace[0].reply) == Written(trace[0].data, trace[0].reply);
      }
    } else {
      var tail := trace[1..];
      assert forall i :: 0 <= i < j - 1 ==> tail[i] == trace[i + 1];
      DownstreamStopsAt(tail, j - 1);
      assert trace[..j][1..] == tail[..j - 1];
      var rest := Frames(Datagrams(tail[..j - 1]));
      if trace[0].Datagram? {
        assert Datagrams(trace[..j]) == [trace[0].data] + Datagrams(tail[..j - 1]);
        assert ([trace[0].data] + Datagrams(tail[..j - 1]))[1..] == Datagrams(tail[..j - 1]);
        assert Frames(Datagrams(trace[..j])) == Frame(trace[0].data) + rest;
        if trace[j].Datagram? {
          Associative(Frame(trace[0].data), rest, Written(trace[j].data, trace[j].reply));
        }
      } else {
        assert Datagrams(trace[..j]) == Datagrams(tail[..j - 1]);
      }
    }
  }

  /**
   * End to end on the return path: the client reads back every datagram
   * the downstream loop received, provided each fits the length header.
   */
  lemma DownstreamDecodes(trace: seq<UdpRead>)
    requires forall j :: 0 <= j < |trace| ==> !trace[j].ReadFailed?
    requires forall j :: 0 <= j < |trace| && trace[j].Datagram? ==> trace[j].reply == BothSucceed
    requires forall j :: 0 <= j < |trace| && trace[j].Datagram? ==> |trace[j].data| < HeaderRange
    ensures Packets(Downstream(trace).0) == Datagrams(trace)
  {
    DownstreamFrames(trace);
    DatagramsFit(trace);
    PacketsOfFrames(Datagrams(trace));
  }

  lemma {:induction false} DatagramsFit(trace: seq<UdpRead>)
    requires forall j :: 0 <= j < |trace| && trace[j].Datagram? ==> |trace[j].data| < HeaderRange
    ensures forall i :: 0 <= i < |Datagrams(trace)| ==> |Datagrams(trace)[i]| < HeaderRange
  {
    if trace != [] {
      DatagramsFit(trace[1..]);
      assert forall j :: 0 <= j < |trace[1..]| && trace[1..][j].Datagram? ==> trace[j + 1] == trace[1..][j];
    }
  }

  /**
   * A ServerConnection: the carrier (tcpHandler), the peer's address, the
   * destination address and the destination-side state.
   */
  class ServerConnection {
    const tcpHandler: PacketConn
    const clientAddr: string
    const targetUdp: string
    const net: Net
    var udpConn: SocketId
    var sockets: nat
    var resolves: nat
    var dials: nat
    var writes: nat
    var log: seq<DestEvent>
    var received: seq<seq<byte>>

    /** The destination-side state as a value. */
    function State(): Dest
      reads this
    {
      Dest(udpConn, sockets, resolves, dials, writes, log, received)
    }

    constructor (tcpHandler: PacketConn, clientAddr: string, targetUdp: string, net: Net, d: Dest)
      ensures this.tcpHandler == tcpHandler && this.clientAddr == clientAddr
      ensures this.targetUdp == targetUdp && this.net == net
      ensures State() == d
    {
      this.tcpHandler, this.clientAddr, this.targetUdp, this.net := tcpHandler, clientAddr, targetUdp, net;
      udpConn, sockets, resolves, dials, writes := d.udpConn, d.sockets, d.resolves, d.dials, d.writes;
      log, received := d.log, d.received;
    }

    /**
     * reconnectUDP: closes the current socket (never nil here), resolves
     * the destination again, and makes up to UdpRetryCount dial attempts
     * with a sleep between two of them; the first socket dialed replaces
     * the closed one.
     */
    method ReconnectUdp() returns (err: Option<ServerError>)
      modifies this
      ensures State() == Reconnect(net, old(State())).0
      ensures err == Reconnect(net, old(State())).1
    {
      log := log + [CloseSocket(udpConn)];
      var resolved := net.ResolveOk(resolves);
      resolves := resolves + 1;
      log := log + [Resolve(resolved)];
      if !resolved {
        return Some(ResolveFailed);
      }
      ghost var resolvedState := State();
      var i := 0;
      while i < UdpRetryCount
        invariant 0 <= i <= UdpRetryCount
        invariant i < UdpRetryCount ==> Redial(net, State(), i) == Redial(net, resolvedState, 0)
        invariant i == UdpRetryCount ==> Redial(net, resolvedState, 0) == (State(), Some(RedialFailed))
      {
        var ok := net.DialOk(dials);
        dials := dials + 1;
        log := log + [Dial(ok)];
        if ok {
          udpConn := sockets;
          sockets := sockets + 1;
          return None;
        }
        if i < UdpRetryCount - 1 {
          log := log + [Sleep];
        }
        i := i + 1;
      }
      return Some(RedialFailed);
    }

    /** forwardToUDP: a write, and on failure a reconnect and one retried write. */
    method ForwardToUdp(data: seq<byte>) returns (err: Option<ServerError>)
      modifies this
      ensures State() == Forward(net, old(State()), data).0
      ensures err == Forward(net, old(State()), data).1
    {
      var ok := net.WriteOk(writes);
      writes := writes + 1;
      log := log + [Write(udpConn, data, ok)];
      if ok {
        received := received + [data];
        return None;
      }
      var reconnectErr := ReconnectUdp();
      if reconnectErr.Some? {
        return Some(UdpWriteFailed);
      }
      var retryOk := net.WriteOk(writes);
      writes := writes + 1;
      log := log + [Write(udpConn, data, retryOk)];
      if !retryOk {
        return Some(UdpWriteFailed);
      }
      received := received + [data];
      return None;
    }

    /**
     * handleClientData: reads packets off the carrier and forwards each
     * non-empty one, until a read or a forward fails; the destination side
     * ends as Upstream says for the packets the carrier holds. `packets`
     * counts the packets read.
     */
    method HandleClientData() returns (end: UpstreamEnd, packets: nat)
      requires tcpHandler.Valid()
      modifies this, tcpHandler
      ensures tcpHandler.Valid() && tcpHandler.output == old(tcpHandler.output)
      ensures tcpHandler.closed == old(tcpHandler.closed)
      ensures end.CarrierReadFailed? ==> tcpHandler.Remaining() == []
      ensures var u := Upstream(net, old(State()), Packets(old(tcpHandler.Remaining())));
        && State() == u.dest && packets == u.consumed
        && (end.ForwardFailed? <==> u.err.Some?)
        && (end.ForwardFailed? ==> end.error == u.err.value)
    {
      ghost var stream := tcpHandler.Remaining();
      ghost var d0 := State();
      packets := 0;
      while true
        invariant tcpHandler.Valid() && tcpHandler.output == old(tcpHandler.output)
        invariant tcpHandler.closed == old(tcpHandler.closed)
        invariant var u := Upstream(net, State(), Packets(tcpHandler.Remaining()));
          var u0 := Upstream(net, d0, Packets(stream));
          u.dest == u0.dest && u.err == u0.err && packets + u.consumed == u0.consumed
        decreases |tcpHandler.Remaining()|
      {
        ghost var rest := tcpHandler.Remaining();
        var r := tcpHandler.ReadPacket();
        PacketsStep(rest);
        if r.Failure? {
          return CarrierReadFailed(r.error), packets;
        }
        var data := r.value;
        assert Packets(rest) == [data] + Packets(tcpHandler.Remaining());
        assert ([data] + Packets(tcpHandler.Remaining()))[1..] == Packets(tcpHandler.Remaining());
        packets := packets + 1;
        if |data| == 0 {
          continue;
        }
        var err := ForwardToUdp(data);
        if err.Some? {
          return ForwardFailed(err.value), packets;
        }
      }
    }

    /**
     * handleUDPResponse: frames every datagram read from the destination
     * back onto the carrier; a timeout only re-arms the read, and the loop
     * ends at a read error or a failed carrier write.
     */
    method HandleUdpResponse(trace: seq<UdpRead>) returns (end: DownstreamEnd)
      requires tcpHandler.Valid()
      modifies tcpHandler
      ensures tcpHandler.Valid() && tcpHandler.pos == old(tcpHandler.pos)
      ensures tcpHandler.closed == old(tcpHandler.closed)
      ensures tcpHandler.output == old(tcpHandler.output) + Downstream(trace).0
      ensures end == Downstream(trace).1
    {
      var i := 0;
      while i < |trace|
        invariant 0 <= i <= |trace|
        invariant tcpHandler.Valid() && tcpHandler.pos == old(tcpHandler.pos)
        invariant tcpHandler.closed == old(tcpHandler.closed)
        invariant old(tcpHandler.output) + Downstream(trace).0 == tcpHandler.output + Downstream(trace[i..]).0
        invariant Downstream(trace).1 == Downstream(trace[i..]).1
      {
        assert trace[i..][0] == trace[i] && trace[i..][1..] == trace[i + 1..];
        match trace[i] {
          case TimedOut =>
          case ReadFailed =>
            return UdpReadFailed;
          case Datagram(data, reply) =>
            var err := tcpHandler.WritePacket(data, reply);
            if err.Some? {
              return CarrierWriteFailed(err.value);
            }
        }
        i := i + 1;
      }
      return TraceEnded;
    }

    /** Close: closes the carrier and the current destination socket. */
    method Close()
      modifies this, tcpHandler
      ensures tcpHandler.closed
      ensures tcpHandler.pos == old(tcpHandler.pos) && tcpHandler.output == old(tcpHandler.output)
      ensures State() == old(State()).(log := old(log) + [CloseSocket(udpConn)])
    {
      tcpHandler.Close();
      log := log + [CloseSocket(udpConn)];
    }
  }

  /**
   * NewServerConnection: resolves and dials the destination once; either
   * failing gives an error and no connection.
   */
  method NewServerConnection(tcpConn: PacketConn, clientAddr: string, targetUdp: string, net: Net)
    returns (r: Result<ServerConnection, ServerError>)
    ensures !net.ResolveOk(0) ==> r == Failure(ResolveFailed)
    ensures net.ResolveOk(0) && !net.DialOk(0) ==> r == Failure(DialUdpFailed)
    ensures net.ResolveOk(0) && net.DialOk(0) ==>
      && r.Success? && fresh(r.value)
      && r.value.tcpHandler == tcpConn && r.value.net == net
      && r.value.clientAddr == clientAddr && r.value.targetUdp == targetUdp
      && r.value.State() == Dest(0, 1, 1, 1, 0, [Resolve(true), Dial(true)], [])
  {
    if !net.ResolveOk(0) {
      return Failure(ResolveFailed);
    }
    if !net.DialOk(0) {
      return Failure(DialUdpFailed);
    }
    var sc := new ServerConnection(tcpConn, clientAddr, targetUdp, net, Dest(0, 1, 1, 1, 0, [Resolve(true), Dial(true)], []));
    return Success(sc);
  }
}
