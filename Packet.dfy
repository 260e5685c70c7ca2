/**
 * The frame codec of the tunnel (packet.go). Every datagram crosses the
 * carrier stream as a frame: a two-byte big-endian length, then the payload.
 * There is no magic number and no checksum; the length is the only
 * synchronisation the stream has.
 */
module Packet {
  import opened Wrappers

  /** One octet of a carrier stream or of a datagram. */
  type byte = x: int | 0 <= x < 256

  /** Size of the datagram read buffers (maxPacketSize). */
  const MaxPacketSize: nat := 65536
  /** How often the server redials its destination after a failed write (udpRetryCount). */
  const UdpRetryCount: nat := 3
  /** Width of the length header in bytes (packetLengthSize). */
  const PacketLengthSize: nat := 2
  /** Number of distinct values the two-byte header can carry. */
  const HeaderRange: nat := 0x1_0000

  datatype PacketError =
    | LengthWriteFailed   // writing the header failed
    | DataWriteFailed     // writing the payload failed
    | LengthReadFailed    // the stream ended before two header bytes arrived
    | DataReadFailed      // the stream ended before the announced payload arrived

  /** How far the two conn.Write calls of one WritePacket get. */
  datatype WriteOutcome = HeaderFails | DataFails | BothSucceed

  /** Go's uint16(n): only the low sixteen bits survive, and nothing reports the loss. */
  function ToUint16(n: nat): (v: nat)
    ensures v < HeaderRange
    ensures n < HeaderRange ==> v == n
  {
    n % HeaderRange
  }

  /** binary.BigEndian.Uint16: the value of a two-byte header. */
  function Uint16(b: seq<byte>): (v: nat)
    requires |b| == PacketLengthSize
    ensures v < HeaderRange
    ensures v / 256 == b[0] && v % 256 == b[1]
  {
    b[0] as int * 256 + b[1] as int
  }

  /** The two bytes binary.BigEndian.PutUint16 stores for v. */
  function BigEndian16(v: nat): (b: seq<byte>)
    requires v < HeaderRange
    ensures |b| == PacketLengthSize
    ensures Uint16(b) == v
  {
    [v / 256, v % 256]
  }

  /** Every two-byte header is the encoding of its own value. */
  lemma BigEndian16OfUint16(b: seq<byte>)
    requires |b| == PacketLengthSize
    ensures BigEndian16(Uint16(b)) == b
  {
  }

  /** binary.BigEndian.PutUint16 into a freshly made two-byte buffer. */
  method PutUint16(b: array<byte>, v: nat)
    requires b.Length == PacketLengthSize && v < HeaderRange
    modifies b
    ensures b[..] == BigEndian16(v)
  {
    b[0] := v / 256;
    b[1] := v % 256;
  }

  /**
   * The bytes a WritePacket(data) whose two writes succeed puts on the
   * stream. The header holds |data| modulo 65536: a longer payload is not
   * refused, its length is truncated.
   */
  function Frame(data: seq<byte>): (f: seq<byte>)
    ensures |f| == PacketLengthSize + |data|
    ensures f[PacketLengthSize..] == data
    ensures Uint16(f[..PacketLengthSize]) == |data| % HeaderRange
  {
    BigEndian16(ToUint16(|data|)) + data
  }

  /** The header is big-endian: high byte first, both taken from the length modulo 65536. */
  lemma FrameHeader(data: seq<byte>)
    ensures Frame(data)[0] == (|data| % HeaderRange) / 256
    ensures Frame(data)[1] == |data| % 256
  {
    var n := |data|;
    assert n % HeaderRange % 256 == n % 256 by {
      assert n == (n / HeaderRange) * HeaderRange + n % HeaderRange;
      assert HeaderRange == 256 * 256;
    }
  }

  /** The bytes one WritePacket leaves on the stream: nothing, the header alone, or the whole frame. */
  function Written(data: seq<byte>, outcome: WriteOutcome): seq<byte>
  {
    match outcome
    case HeaderFails => []
    case DataFails => Frame(data)[..PacketLengthSize]
    case BothSucceed => Frame(data)
  }

  /** The error WritePacket returns for an outcome of its two writes. */
  function WriteError(outcome: WriteOutcome): Option<PacketError>
  {
    match outcome
    case HeaderFails => Some(LengthWriteFailed)
    case DataFails => Some(DataWriteFailed)
    case BothSucceed => None
  }

  /**
   * A WritePacket leaves a prefix of the frame on the stream: no payload
   * byte when the header write fails, and the whole frame exactly when it
   * reports no error.
   */
  lemma WrittenPrefix(data: seq<byte>, outcome: WriteOutcome)
    ensures Written(data, outcome) <= Frame(data)
    ensures outcome == HeaderFails ==> Written(data, outcome) == []
    ensures WriteError(outcome).None? ==> Written(data, outcome) == Frame(data)
    ensures WriteError(outcome).Some? && data != [] ==> |Written(data, outcome)| < |Frame(data)|
  {
  }

  /** What one ReadPacket yields on a stream, and how many bytes it takes from the stream. */
  datatype Read = Read(packet: Result<seq<byte>, PacketError>, consumed: nat)

  /**
   * ReadPacket on a stream s: a read that succeeds takes exactly one frame
   * off the front of s; one that fails has used up the whole stream.
   */
  function Decode(s: seq<byte>): (r: Read)
    ensures r.consumed <= |s|
    ensures r.packet.Failure? ==> r.consumed == |s|
    ensures r.packet.Success? ==>
      |r.packet.value| < HeaderRange && s[..r.consumed] == Frame(r.packet.value)
  {
    if |s| < PacketLengthSize then Read(Failure(LengthReadFailed), |s|)
    else
      var header := s[..PacketLengthSize];
      var length := Uint16(header);
      BigEndian16OfUint16(header);
      if length == 0 then Read(Success([]), PacketLengthSize)
      else if |s| < PacketLengthSize + length then Read(Failure(DataReadFailed), |s|)
      else
        var data := s[PacketLengthSize..PacketLengthSize + length];
        assert s[..PacketLengthSize + length] == header + data;
        Read(Success(data), PacketLengthSize + length)
  }

  /**
   * A successful read returns as many bytes as the header announces; a
   * stream shorter than the header, or than the announced payload, fails
   * and never yields a short payload.
   */
  lemma DecodeOutcome(s: seq<byte>)
    ensures |s| < PacketLengthSize ==> Decode(s).packet == Failure(LengthReadFailed)
    ensures |s| >= PacketLengthSize ==>
      var length := Uint16(s[..PacketLengthSize]);
      && (Decode(s).packet.Success? <==> PacketLengthSize + length <= |s|)
      && (PacketLengthSize + length > |s| ==> Decode(s).packet == Failure(DataReadFailed))
      && (Decode(s).packet.Success? ==>
            |Decode(s).packet.value| == length && Decode(s).consumed == PacketLengthSize + length)
  {
  }

  /** A zero header is a valid empty packet; nothing after the header is read. */
  lemma DecodeEmptyFrame(s: seq<byte>)
    requires |s| >= PacketLengthSize && s[0] == 0 && s[1] == 0
    ensures Decode(s) == Read(Success([]), PacketLengthSize)
  {
  }

  /**
   * Reading back a frame: the packet is the payload cut to the truncated
   * length in the header, and the read stops right after it.
   */
  lemma DecodeFrame(data: seq<byte>, rest: seq<byte>)
    ensures var n := |data| % HeaderRange;
      Decode(Frame(data) + rest) == Read(Success(data[..n]), PacketLengthSize + n)
  {
    var n := |data| % HeaderRange;
    var s := Frame(data) + rest;
    assert s[..PacketLengthSize] == Frame(data)[..PacketLengthSize];
    if n > 0 {
      assert s[PacketLengthSize..PacketLengthSize + n] == data[..n];
    }
  }

  /**
   * Round trip: a payload that fits the header is read back unchanged and
   * exactly its frame is consumed.
   */
  lemma RoundTrip(data: seq<byte>, rest: seq<byte>)
    requires |data| < HeaderRange
    ensures Decode(Frame(data) + rest) == Read(Success(data), PacketLengthSize + |data|)
  {
    DecodeFrame(data, rest);
    assert data[..|data|] == data;
  }

  /**
   * A datagram as large as the read buffer (65536 bytes) is framed with
   * header 0: the peer reads an empty packet and then takes the payload's
   * own bytes for the next frames.
   */
  lemma OversizeFrameReadsAsEmpty(data: seq<byte>, rest: seq<byte>)
    requires |data| == MaxPacketSize
    ensures Frame(data)[..PacketLengthSize] == [0, 0]
    ensures Decode(Frame(data) + rest) == Read(Success([]), PacketLengthSize)
  {
    FrameHeader(data);
    DecodeFrame(data, rest);
  }

  /** The packets that successive ReadPacket calls return from s, up to the first failure. */
  function Packets(s: seq<byte>): seq<seq<byte>>
    decreases |s|
  {
    var r := Decode(s);
    if r.packet.Failure? then [] else [r.packet.value] + Packets(s[r.consumed..])
  }

  /**
   * Every packet a ReadPacket returns fits the length header, and each
   * takes at least its two header bytes off the stream.
   */
  lemma {:induction false} PacketsFit(s: seq<byte>)
    ensures forall i :: 0 <= i < |Packets(s)| ==> |Packets(s)[i]| < HeaderRange
    ensures PacketLengthSize * |Packets(s)| <= |s|
    decreases |s|
  {
    var r := Decode(s);
    if r.packet.Success? {
      PacketsFit(s[r.consumed..]);
      assert forall i :: 1 <= i < |Packets(s)| ==> Packets(s)[i] == Packets(s[r.consumed..])[i - 1];
    }
  }

  /** One step of Packets: a successful read contributes its packet and the rest of the stream follows. */
  lemma PacketsStep(s: seq<byte>)
    ensures Decode(s).packet.Failure? ==> Packets(s) == []
    ensures Decode(s).packet.Success? ==>
      Packets(s) == [Decode(s).packet.value] + Packets(s[Decode(s).consumed..])
  {
  }

  /** A reading loop's bookkeeping after one more ReadPacket on the unread part `rest` of a stream. */
  lemma PacketsAfterRead(stream: seq<byte>, read: seq<seq<byte>>, rest: seq<byte>)
    requires Packets(stream) == read + Packets(rest)
    ensures Decode(rest).packet.Failure? ==> Packets(stream) == read
    ensures Decode(rest).packet.Success? ==>
      Packets(stream) == (read + [Decode(rest).packet.value]) + Packets(rest[Decode(rest).consumed..])
  {
    PacketsStep(rest);
    if Decode(rest).packet.Failure? {
      assert read + [] == read;
    }
  }

  /** The stream that successive successful WritePacket calls produce. */
  function Frames(ps: seq<seq<byte>>): seq<byte>
  {
    if ps == [] then [] else Frame(ps[0]) + Frames(ps[1..])
  }

  /** A stream of frames whose payloads fit the header is read back packet for packet. */
  lemma {:induction false} PacketsOfFrames(ps: seq<seq<byte>>)
    requires forall i :: 0 <= i < |ps| ==> |ps[i]| < HeaderRange
    ensures Packets(Frames(ps)) == ps
  {
    if ps != [] {
      var s := Frames(ps);
      RoundTrip(ps[0], Frames(ps[1..]));
      assert s[PacketLengthSize + |ps[0]|..] == Frames(ps[1..]);
      PacketsOfFrames(ps[1..]);
    }
  }

  /** The packets that are passed on: a zero-length packet is a keep-alive and is dropped. */
  function NonEmpty(ps: seq<seq<byte>>): (qs: seq<seq<byte>>)
    ensures |qs| <= |ps|
  {
    if ps == [] then []
    else
      var last := ps[|ps| - 1];
      NonEmpty(ps[..|ps| - 1]) + (if |last| > 0 then [last] else [])
  }

  lemma NonEmptySnoc(ps: seq<seq<byte>>, p: seq<byte>)
    ensures NonEmpty(ps + [p]) == NonEmpty(ps) + (if |p| > 0 then [p] else [])
  {
    assert (ps + [p])[..|ps|] == ps;
  }

  /** What is passed on is exactly the non-empty packets: no keep-alive, and nothing else dropped. */
  lemma {:induction false} NonEmptyMembers(ps: seq<seq<byte>>)
    ensures forall p :: p in NonEmpty(ps) <==> p in ps && |p| > 0
  {
    if ps != [] {
      var init, last := ps[..|ps| - 1], ps[|ps| - 1];
      NonEmptyMembers(init);
      assert ps == init + [last];
    }
  }

  /** Nor is a repeated packet merged: each non-empty packet is passed on as often as it was read. */
  lemma {:induction false} NonEmptyMultiset(ps: seq<seq<byte>>)
    ensures multiset(NonEmpty(ps)) == multiset(ps)[[] := 0]
  {
    if ps != [] {
      var init, last := ps[..|ps| - 1], ps[|ps| - 1];
      NonEmptyMultiset(init);
      assert ps == init + [last];
    }
  }

  /** Dropping keep-alives keeps order: the forwarded packets of a prefix are a prefix of the forwarded packets. */
  lemma {:induction false} NonEmptyPrefix(ps: seq<seq<byte>>, n: nat)
    requires n <= |ps|
    ensures NonEmpty(ps[..n]) <= NonEmpty(ps)
    decreases |ps| - n
  {
    if n < |ps| {
      NonEmptyPrefix(ps, n + 1);
      assert ps[..n + 1][..n] == ps[..n];
    } else {
      assert ps[..n] == ps;
    }
  }

  /**
   * A TCPPacketHandler together with the carrier connection it wraps.
   * `input` is every byte the peer sends before the stream ends, `pos` how
   * many of them have been read, `output` every byte written so far.
   */
  class PacketConn {
    const input: seq<byte>
    var pos: nat
    var output: seq<byte>
    var closed: bool

    ghost predicate Valid()
      reads this
    {
      pos <= |input|
    }

    /** The bytes not yet read. */
    function Remaining(): seq<byte>
      reads this
      requires Valid()
    {
      input[pos..]
    }

    constructor (input: seq<byte>)
      ensures Valid() && this.input == input
      ensures pos == 0 && output == [] && !closed
    {
      this.input := input;
      pos, output, closed := 0, [], false;
    }

    /**
     * io.ReadFull: fills buf from the stream, or fails when the stream ends
     * first, having used up what was left of it.
     */
    method ReadFull(buf: array<byte>) returns (ok: bool)
      requires Valid()
      modifies this, buf
      ensures Valid() && output == old(output) && closed == old(closed)
      ensures ok <==> buf.Length <= |old(Remaining())|
      ensures ok ==> pos == old(pos) + buf.Length && buf[..] == old(Remaining())[..buf.Length]
      ensures !ok ==> pos == |input|
    {
      var n := 0;
      while n < buf.Length && pos < |input|
        invariant 0 <= n <= buf.Length
        invariant pos == old(pos) + n <= |input|
        invariant buf[..n] == input[old(pos)..pos]
        invariant output == old(output) && closed == old(closed)
      {
        buf[n] := input[pos];
        n, pos := n + 1, pos + 1;
      }
      ok := n == buf.Length;
    }

    /**
     * WritePacket: the header, then the payload, as two writes. A failed
     * header write leaves the payload unwritten; success needs both.
     */
    method WritePacket(data: seq<byte>, outcome: WriteOutcome) returns (err: Option<PacketError>)
      requires Valid()
      modifies this
      ensures Valid() && pos == old(pos) && closed == old(closed)
      ensures output == old(output) + Written(data, outcome)
      ensures err == WriteError(outcome)
    {
      var length := ToUint16(|data|);
      var lengthBytes := new byte[PacketLengthSize];
      PutUint16(lengthBytes, length);
      if outcome == HeaderFails {
        return Some(LengthWriteFailed);
      }
      ghost var frame := Frame(data);
      assert lengthBytes[..] == BigEndian16(length) == frame[..PacketLengthSize];
      assert frame == lengthBytes[..] + data;
      output := output + lengthBytes[..];
      if outcome == DataFails {
        return Some(DataWriteFailed);
      }
      output := output + data;
      return None;
    }

    /** ReadPacket: one Decode step on the unread stream. */
    method ReadPacket() returns (r: Result<seq<byte>, PacketError>)
      requires Valid()
      modifies this
      ensures Valid() && output == old(output) && closed == old(closed)
      ensures r == Decode(old(Remaining())).packet
      ensures pos == old(pos) + Decode(old(Remaining())).consumed
      ensures Remaining() == old(Remaining())[Decode(old(Remaining())).consumed..]
    {
      ghost var s := Remaining();
      var lengthBytes := new byte[PacketLengthSize];
      var ok := ReadFull(lengthBytes);
      if !ok {
        return Failure(LengthReadFailed);
      }
      assert lengthBytes[..] == s[..PacketLengthSize];
      var length := Uint16(lengthBytes[..]);
      if length == 0 {
        return Success([]);
      }
      var data := new byte[length];
      ghost var payload := Remaining();
      assert payload == s[PacketLengthSize..];
      ok := ReadFull(data);
      if !ok {
        return Failure(DataReadFailed);
      }
      assert data[..] == payload[..length] == s[PacketLengthSize..PacketLengthSize + length];
      return Success(data[..]);
    }

    /** Closes the carrier connection. */
    method Close()
      modifies this
      ensures closed && pos == old(pos) && output == old(output)
    {
      closed := true;
    }
  }
}
