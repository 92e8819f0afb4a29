/** Both ends of protocol v2 as programs: the phone's writer and the broker's receive loop. */
module WireProgram {
  import opened Bytes
  import opened Options
  import opened WireFormat

  const CHUNK := 64 * 1024

  // ---------------------------------------------------------------- the phone

  /** A long, shifted and cast byte by byte. */
  method Put32(b: array<Byte>, o: nat, value: int)
    requires o + 4 <= b.Length
    modifies b
    ensures b[..] == old(b[..o]) + Be32(value) + old(b[o + 4..])
  {
    b[o] := value / 0x100_0000 % 256;
    b[o + 1] := value / 0x1_0000 % 256;
    b[o + 2] := value / 0x100 % 256;
    b[o + 3] := value % 256;
  }

  method Put64(b: array<Byte>, o: nat, value: int)
    requires o + 8 <= b.Length
    modifies b
    ensures b[..] == old(b[..o]) + Be64(value) + old(b[o + 8..])
  {
    ghost var was := b[..];
    Put32(b, o, value / TWO_32);
    ghost var mid := b[..];
    Put32(b, o + 4, value);
    assert b[..] == mid[..o + 4] + Be32(value) + mid[o + 8..];
    assert mid[..o + 4] == was[..o] + Be32(value / TWO_32) && mid[o + 8..] == was[o + 8..];
  }

  /** The buffered stream to the socket: every byte written so far. */
  class OutputStream {
    var sent: seq<Byte>

    constructor ()
      ensures sent == []
    {
      sent := [];
    }

    method Write(data: array<Byte>)
      modifies this
      ensures sent == old(sent) + data[..]
    {
      sent := sent + data[..];
    }
  }

  function BytesOf(data: array?<Byte>): seq<Byte>
    reads data
  {
    if data == null then [] else data[..]
  }

  /** The packet as the other end can read it: flags to 32 bits, the timestamp to 64. */
  function Sent(first: seq<Byte>, second: seq<Byte>, flags: int, pts: int): Packet {
    Packet(flags % TWO_32, pts % TWO_64, first + second)
  }

  /** The reused header is overwritten whole, so nothing of an earlier packet is left in it. */
  method WritePacket(out: OutputStream, header: array<Byte>, first: array?<Byte>, second: array?<Byte>,
      flags: int, pts: int) returns (ok: bool)
    requires header.Length == PACKET_HEADER && header != first && header != second
    modifies out, header
    ensures ok <==> 0 < |old(BytesOf(first) + BytesOf(second))| <= 2 * 1024 * 1024
    ensures ok ==> out.sent == old(out.sent) + Frame(Sent(old(BytesOf(first)), old(BytesOf(second)), flags, pts))
    ensures ok ==> out.sent[|old(out.sent)| + 16..] == old(BytesOf(first) + BytesOf(second))
    ensures !ok ==> out.sent == old(out.sent) && header[..] == old(header[..])
  {
    var a := if first == null then 0 else first.Length;
    var b := if second == null then 0 else second.Length;
    if a + b <= 0 || a + b > MAX_PAYLOAD { return false; }
    WriteFrame(out, header, first, second, a + b, flags, pts);
    return true;
  }

  method WriteFrame(out: OutputStream, header: array<Byte>, first: array?<Byte>, second: array?<Byte>,
      size: nat, flags: int, pts: int)
    requires header.Length == PACKET_HEADER && header != first && header != second
    requires size == |BytesOf(first)| + |BytesOf(second)|
    modifies out, header
    ensures out.sent == old(out.sent) + Frame(Sent(old(BytesOf(first)), old(BytesOf(second)), flags, pts))
  {
    FrameOfParts(out.sent, BytesOf(first), BytesOf(second), flags, pts);
    FillHeader(header, size, flags, pts);
    WriteParts(out, header, first, second);
  }

  method WriteParts(out: OutputStream, header: array<Byte>, first: array?<Byte>, second: array?<Byte>)
    modifies out
    ensures out.sent == old(out.sent) + header[..] + BytesOf(first) + BytesOf(second)
  {
    out.Write(header);
    if first != null && first.Length != 0 { out.Write(first); }
    if second != null && second.Length != 0 { out.Write(second); }
  }

  lemma FrameOfParts(sent: seq<Byte>, first: seq<Byte>, second: seq<Byte>, flags: int, pts: int)
    ensures sent + (Be32(|first| + |second|) + Be32(flags) + Be64(pts)) + first + second ==
            sent + Frame(Sent(first, second, flags, pts))
  {
    HeadOfSent(first, second, flags, pts);
    var head := Be32(|first| + |second|) + Be32(flags) + Be64(pts);
    assert sent + head + first + second == sent + (head + (first + second));
  }

  method FillHeader(header: array<Byte>, size: nat, flags: int, pts: int)
    requires header.Length == PACKET_HEADER
    modifies header
    ensures header[..] == Be32(size) + Be32(flags) + Be64(pts)
  {
    Put32(header, 0, size);
    assert header[..4] == Be32(size);
    Put32(header, 4, flags);
    assert header[..8] == Be32(size) + Be32(flags);
    Put64(header, 8, pts);
  }

  /** Only the low 32 or 64 bits of a number are printed. */
  lemma HeadOfSent(first: seq<Byte>, second: seq<Byte>, flags: int, pts: int)
    ensures PacketHead(Sent(first, second, flags, pts)) == Be32(|first| + |second|) + Be32(flags) + Be64(pts)
  {
    Low32(flags, flags % TWO_32);
    Low32(pts, pts % TWO_64);
    Cut(pts, pts / TWO_64, pts % TWO_64, TWO_64);
    High32(pts);
    Low32(pts / TWO_32, pts % TWO_64 / TWO_32);
  }

  lemma High32(x: int)
    ensures x / TWO_32 % TWO_32 == x % TWO_64 / TWO_32 % TWO_32
  {
    var h, l := x / TWO_32, x % TWO_32;
    Cut(x, h / TWO_32, h % TWO_32 * TWO_32 + l, TWO_64);
    Cut(h % TWO_32 * TWO_32 + l, h % TWO_32, l, TWO_32);
  }

  lemma Low32(x: int, y: int)
    requires x % TWO_32 == y % TWO_32
    ensures Be32(x) == Be32(y)
  {
    Be32RoundTrip(x, []);
    Be32RoundTrip(y, []);
    FromBe32Bound(Be32(x) + []);
    FromBe32Bound(Be32(y) + []);
  }

  method WriteStreamHeader(out: OutputStream, width: int, height: int, fps: int)
    modifies out
    ensures out.sent == old(out.sent) + HeaderBytes(width, height, fps)
  {
    var stream := new Byte[STREAM_HEADER];
    stream[0], stream[1], stream[2], stream[3] := 77, 67, 86, 50;
    assert stream[..4] == MAGIC;
    Put32(stream, 4, width);
    assert stream[..8] == MAGIC + Be32(width);
    Put32(stream, 8, height);
    assert stream[..12] == MAGIC + Be32(width) + Be32(height);
    Put32(stream, 12, fps);
    assert stream[..16] == MAGIC + Be32(width) + Be32(height) + Be32(fps);
    Put32(stream, 16, 0);
    out.Write(stream);
  }

  // ---------------------------------------------------------------- the broker

  /** The broker's end of a connection: the bytes that reach it, and a timetable that says how many
      each `recv` hands over.  An entry of 0 is a failing `recv` (an error, a timeout, a shutdown);
      past the end of the timetable everything asked for is handed over. */
  class Connection {
    var pending: seq<Byte>
    var timetable: seq<nat>

    constructor (arriving: seq<Byte>, timetable: seq<nat>)
      ensures pending == arriving && this.timetable == timetable
    {
      pending := arriving;
      this.timetable := timetable;
    }

    /** At most `limit` bytes; 0 when the link is closed or fails. */
    method Recv(dst: array<Byte>, at: nat, limit: nat) returns (n: nat)
      requires 0 < limit && at + limit <= dst.Length
      modifies this, dst
      ensures n <= limit && n <= |old(pending)| && pending == old(pending)[n..]
      ensures dst[..] == old(dst[..at]) + old(pending)[..n] + old(dst[at + n..])
      ensures n == 0 ==> pending == [] || 0 in old(timetable)
      ensures forall k :: k in timetable ==> k in old(timetable)
    {
      var give := limit;
      if timetable != [] {
        give := timetable[0];
        timetable := timetable[1..];
      }
      n := if give <= limit then give else limit;
      if |pending| < n { n := |pending|; }
      forall k | 0 <= k < n { dst[at + k] := pending[k]; }
      pending := pending[n..];
    }

    /** Every byte asked for, in as many pieces as it takes, or false. */
    method RecvAll(dst: array<Byte>, bytes: nat) returns (ok: bool)
      requires bytes == dst.Length
      modifies this, dst
      ensures ok ==> bytes <= |old(pending)| && dst[..] == old(pending)[..bytes] && pending == old(pending)[bytes..]
      ensures !ok ==> |old(pending)| - |pending| < bytes && |pending| <= |old(pending)|
      ensures !ok ==> pending == old(pending)[|old(pending)| - |pending|..]
      ensures !ok ==> pending == [] || 0 in old(timetable)
      ensures forall k :: k in timetable ==> k in old(timetable)
    {
      var at, left := 0, bytes;
      ghost var all := pending;
      while 0 < left
        invariant at + left == bytes && 0 <= left && at <= |all|
        invariant dst[..at] == all[..at] && pending == all[at..]
        invariant forall k :: k in timetable ==> k in old(timetable)
        decreases left
      {
        var n := Recv(dst, at, if left <= CHUNK then left else CHUNK);
        if n == 0 { return false; }
        assert all[..at] + all[at..][..n] == all[..at + n];
        at, left := at + n, left - n;
      }
      assert dst[..] == dst[..at];
      return true;
    }

    /** One turn of the loop in `once`: a header, then as many bytes as it announces. */
    method NextPacket() returns (p: Option<Packet>, stop: Stop)
      modifies this
      ensures |pending| <= |old(pending)| && pending == old(pending)[|old(pending)| - |pending|..]
      ensures var taken := old(pending)[..|old(pending)| - |pending|];
              if p.Some? then IsFrame(taken, p.value) else Receive(taken) == Received([], stop)
      ensures p.None? && stop == Closed ==> pending == [] || 0 in old(timetable)
      ensures forall k :: k in timetable ==> k in old(timetable)
    {
      ghost var all := pending;
      var raw := new Byte[PACKET_HEADER];
      var ok := RecvAll(raw, PACKET_HEADER);
      if !ok { return None, Closed; }
      assert raw[..] == all[..PACKET_HEADER];
      var h := ParsePacket(raw[..]);
      if h.None? { return None, Refused; }
      var payload := new Byte[h.value.size];
      ok := RecvAll(payload, h.value.size);
      ghost var taken := all[..|all| - |pending|];
      assert taken[..PACKET_HEADER] == all[..PACKET_HEADER];
      if !ok { return None, Closed; }
      assert taken[PACKET_HEADER..] == payload[..];
      return Some(WireFormat.Packet(h.value.flags, h.value.pts, payload[..])), Closed;
    }

    /** The loop of `once`: packet after packet to the decoder, until the link ends or a header is
        refused.  What was handed over is exactly what the bytes taken off the link say. */
    method ReceivePackets() returns (decoded: seq<Packet>, stop: Stop)
      modifies this
      ensures |pending| <= |old(pending)|
      ensures Receive(old(pending)[..|old(pending)| - |pending|]) == Received(decoded, stop)
      ensures stop == Closed ==> pending == [] || 0 in old(timetable)
    {
      decoded := [];
      ghost var all := pending;
      ghost var from: nat := 0;
      ResumesAtStart(all);
      while true
        invariant from <= |all| && pending == all[from..] && Resumes(all, from, decoded)
        invariant forall k :: k in timetable ==> k in old(timetable)
        decreases |pending|
      {
        var p, why := NextPacket();
        ghost var to := |all| - |pending|;
        assert all[from..][..to - from] == all[from..to];
        if p.None? {
          ResumesEnd(all, from, to, decoded, why);
          return decoded, why;
        }
        ResumesMore(all, from, to, decoded, p.value);
        decoded := decoded + [p.value];
        from := to;
      }
    }

    /** A connection from its first byte: the stream header, then the packets. */
    method Once() returns (session: Session)
      modifies this
      ensures |pending| <= |old(pending)|
      ensures session == Listen(old(pending)[..|old(pending)| - |pending|])
      ensures session.Accepted? && session.received.stop == Closed ==> pending == [] || 0 in old(timetable)
      ensures session.Rejected? ==>
                pending == [] || 0 in old(timetable) || |old(pending)| - |pending| == STREAM_HEADER
    {
      ghost var all := pending;
      var header := new Byte[STREAM_HEADER];
      var ok := RecvAll(header, STREAM_HEADER);
      if !ok { return Rejected; }
      var h := ParseStream(header[..]);
      if h.None? || h.value.fps != 60 {
        assert all[..|all| - |pending|] == header[..];
        return Rejected;
      }
      var decoded, stop := ReceivePackets();
      ghost var taken := all[..|all| - |pending|];
      assert taken[..STREAM_HEADER] == all[..STREAM_HEADER];
      assert taken[STREAM_HEADER..] == all[STREAM_HEADER..][..|all| - STREAM_HEADER - |pending|];
      return Accepted(h.value, Received(decoded, stop));
    }
  }

  // ---------------------------------------------------------------- what the loop has behind it

  /** These bytes are one packet the broker takes. */
  ghost predicate IsFrame(s: seq<Byte>, p: Packet) {
    && PACKET_HEADER <= |s|
    && ParsePacket(s[..PACKET_HEADER]) == Some(PacketHeader(|p.payload|, p.flags, p.pts))
    && s[PACKET_HEADER..] == p.payload
  }

  /** Reading on after these bytes and packets is reading the rest on its own. */
  ghost predicate Splits(s: seq<Byte>, decoded: seq<Packet>, rest: seq<Byte>) {
    Receive(s + rest) == Received(decoded + Receive(rest).packets, Receive(rest).stop)
  }

  /** Past the first `from` bytes the broker has decoded these packets and is at the start of another. */
  ghost predicate Resumes(all: seq<Byte>, from: nat, decoded: seq<Packet>) {
    from <= |all| && forall rest: seq<Byte> :: Splits(all[..from], decoded, rest)
  }

  lemma ResumesAtStart(all: seq<Byte>)
    ensures Resumes(all, 0, [])
  {
    forall rest: seq<Byte> ensures Splits(all[..0], [], rest) {
      assert all[..0] + rest == rest && [] + Receive(rest).packets == Receive(rest).packets;
    }
  }

  lemma ResumesEnd(all: seq<Byte>, from: nat, to: nat, decoded: seq<Packet>, stop: Stop)
    requires from <= to <= |all| && Resumes(all, from, decoded)
    requires Receive(all[from..to]) == Received([], stop)
    ensures Receive(all[..to]) == Received(decoded, stop)
  {
    assert Splits(all[..from], decoded, all[from..to]);
    assert all[..to] == all[..from] + all[from..to];
    assert decoded + [] == decoded;
  }

  lemma FrameFirst(t: seq<Byte>, p: Packet, rest: seq<Byte>)
    requires IsFrame(t, p)
    ensures Splits(t, [p], rest)
  {
    var s := t + rest;
    assert s[..PACKET_HEADER] == t[..PACKET_HEADER];
    assert s[PACKET_HEADER..|t|] == p.payload && s[|t|..] == rest;
  }

  lemma SplitsTwice(s: seq<Byte>, ps: seq<Packet>, t: seq<Byte>, qs: seq<Packet>, rest: seq<Byte>)
    requires Splits(s, ps, t + rest) && Splits(t, qs, rest)
    ensures Splits(s + t, ps + qs, rest)
  {
    assert s + t + rest == s + (t + rest);
    assert ps + (qs + Receive(rest).packets) == ps + qs + Receive(rest).packets;
  }

  lemma ResumesMore(all: seq<Byte>, from: nat, to: nat, decoded: seq<Packet>, p: Packet)
    requires from <= to <= |all| && Resumes(all, from, decoded) && IsFrame(all[from..to], p)
    ensures Resumes(all, to, decoded + [p])
  {
    var s, t := all[..from], all[from..to];
    assert all[..to] == s + t;
    forall rest: seq<Byte> ensures Splits(all[..to], decoded + [p], rest) {
      FrameFirst(t, p, rest);
      assert Splits(s, decoded, t + rest);
      SplitsTwice(s, decoded, t, [p], rest);
    }
  }
}
