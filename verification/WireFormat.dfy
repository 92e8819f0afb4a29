/**
 Protocol v2 of the camera link: a 20-byte stream header and then length-delimited access units.
 The phone prints it, the broker parses it, and the transport may cut it anywhere.
 */
module WireFormat {
  import opened Bytes
  import opened Options

  const STREAM_HEADER := 20
  const PACKET_HEADER := 16
  const MAX_PAYLOAD := 2 * 1024 * 1024
  const MAGIC: seq<Byte> := [77, 67, 86, 50]  // "MCV2"

  datatype StreamHeader = StreamHeader(width: nat, height: nat, fps: nat, flags: nat)

  datatype Packet = Packet(flags: nat, pts: nat, payload: seq<Byte>)

  // ---------------------------------------------------------------- what the phone prints

  function HeaderBytes(width: int, height: int, fps: int): (r: seq<Byte>)
    ensures |r| == STREAM_HEADER
  {
    MAGIC + Be32(width) + Be32(height) + Be32(fps) + Be32(0)
  }

  /** What `writePacket` lets through. */
  predicate Sendable(p: Packet) { 0 < |p.payload| <= MAX_PAYLOAD && p.flags < TWO_32 && p.pts < TWO_64 }

  predicate AllSendable(ps: seq<Packet>) { forall i :: 0 <= i < |ps| ==> Sendable(ps[i]) }

  function PacketHead(p: Packet): (r: seq<Byte>)
    ensures |r| == PACKET_HEADER
  {
    Be32(|p.payload|) + Be32(p.flags) + Be64(p.pts)
  }

  function Frame(p: Packet): seq<Byte> { PacketHead(p) + p.payload }

  function Frames(ps: seq<Packet>): seq<Byte> {
    if ps == [] then [] else Frame(ps[0]) + Frames(ps[1..])
  }

  // ---------------------------------------------------------------- what the broker parses

  predicate InRange(h: StreamHeader) {
    && 160 <= h.width <= 3840 && 120 <= h.height <= 2160 && 1 <= h.fps <= 120
    && h.width % 2 == 0 && h.height % 2 == 0
  }

  function ParseStream(s: seq<Byte>): Option<StreamHeader> {
    if |s| != STREAM_HEADER || s[0] != 77 || s[1] != 67 || s[2] != 86 || s[3] != 50 then None
    else
      var h := StreamHeader(FromBe32(s[4..]), FromBe32(s[8..]), FromBe32(s[12..]), FromBe32(s[16..]));
      if InRange(h) then Some(h) else None
  }

  datatype PacketHeader = PacketHeader(size: nat, flags: nat, pts: nat)

  /** Flags other than the two lowest bits are refused. */
  function ParsePacket(s: seq<Byte>): (r: Option<PacketHeader>)
    ensures r.Some? ==> 0 < r.value.size <= MAX_PAYLOAD
  {
    if |s| != PACKET_HEADER then None
    else
      var h := PacketHeader(FromBe32(s), FromBe32(s[4..]), FromBe64(s[8..]));
      if 0 < h.size <= MAX_PAYLOAD && h.flags < 4 then Some(h) else None
  }

  /** Why the broker stops reading: no more bytes came, or a packet header was refused. */
  datatype Stop = Closed | Refused

  datatype Received = Received(packets: seq<Packet>, stop: Stop)

  /** The packets handed to the decoder when these bytes arrive and then no more. */
  function Receive(s: seq<Byte>): Received
    decreases |s|
  {
    if |s| < PACKET_HEADER then Received([], Closed)
    else
      match ParsePacket(s[..PACKET_HEADER])
      case None => Received([], Refused)
      case Some(h) =>
        if |s| - PACKET_HEADER < h.size then Received([], Closed)
        else
          var payload := s[PACKET_HEADER..PACKET_HEADER + h.size];
          var more := Receive(s[PACKET_HEADER + h.size..]);
          Received([Packet(h.flags, h.pts, payload)] + more.packets, more.stop)
  }

  // ---------------------------------------------------------------- the stream header round trip

  lemma Read32(x: nat)
    requires x < TWO_32
    ensures FromBe32(Be32(x)) == x
  {
    Be32RoundTrip(x, []);
    assert Be32(x) + [] == Be32(x);
  }

  lemma Read64(x: nat)
    requires x < TWO_64
    ensures FromBe64(Be64(x)) == x
  {
    Be64RoundTrip(x, []);
    assert Be64(x) + [] == Be64(x);
  }

  lemma StreamFields(a: seq<Byte>, b: seq<Byte>, c: seq<Byte>, d: seq<Byte>)
    requires |a| == 4 && |b| == 4 && |c| == 4 && |d| == 4
    ensures var h := StreamHeader(FromBe32(a), FromBe32(b), FromBe32(c), FromBe32(d));
            ParseStream(MAGIC + a + b + c + d) == if InRange(h) then Some(h) else None
  {
    var s := MAGIC + a + b + c + d;
    assert s[4..] == a + b + c + d && s[8..] == b + c + d && s[12..] == c + d && s[16..] == d;
  }

  /** The header printed is read back exactly when it is within the ranges the broker checks. */
  lemma HeaderRoundTrip(width: nat, height: nat, fps: nat)
    requires width < TWO_32 && height < TWO_32 && fps < TWO_32
    ensures ParseStream(HeaderBytes(width, height, fps)) ==
            if 160 <= width <= 3840 && 120 <= height <= 2160 && 1 <= fps <= 120 && width % 2 == 0 && height % 2 == 0
            then Some(StreamHeader(width, height, fps, 0)) else None
  {
    Read32(width);
    Read32(height);
    Read32(fps);
    Read32(0);
    StreamFields(Be32(width), Be32(height), Be32(fps), Be32(0));
  }

  // ---------------------------------------------------------------- the bytes on the link

  /** The stream header byte for byte: "MCV2", then the three numbers and a zero, high byte first. */
  lemma HeaderLayout(width: nat, height: nat, fps: nat)
    requires width < TWO_32 && height < TWO_32 && fps < TWO_32
    ensures var b := HeaderBytes(width, height, fps);
            && |b| == 20 && b[..4] == [77, 67, 86, 50]
            && width == b[4] as int * 0x100_0000 + b[5] as int * 0x1_0000 + b[6] as int * 0x100 + b[7] as int
            && height == b[8] as int * 0x100_0000 + b[9] as int * 0x1_0000 + b[10] as int * 0x100 + b[11] as int
            && fps == b[12] as int * 0x100_0000 + b[13] as int * 0x1_0000 + b[14] as int * 0x100 + b[15] as int
            && b[16..] == [0, 0, 0, 0]
  {
    Be32Sum(width);
    Be32Sum(height);
    Be32Sum(fps);
    var b := HeaderBytes(width, height, fps);
    assert b[4..8] == Be32(width) && b[8..12] == Be32(height) && b[12..16] == Be32(fps) && b[16..] == Be32(0);
    assert b[4] == b[4..8][0] && b[5] == b[4..8][1] && b[6] == b[4..8][2] && b[7] == b[4..8][3];
    assert b[8] == b[8..12][0] && b[9] == b[8..12][1] && b[10] == b[8..12][2] && b[11] == b[8..12][3];
    assert b[12] == b[12..16][0] && b[13] == b[12..16][1] && b[14] == b[12..16][2] && b[15] == b[12..16][3];
  }

  lemma Be32Sum(x: nat)
    requires x < TWO_32
    ensures var b := Be32(x); x == b[0] as int * 0x100_0000 + b[1] as int * 0x1_0000 + b[2] as int * 0x100 + b[3] as int
  {
    Be32Digits(x);
  }

  /** A packet byte for byte: its size, its flags and its timestamp, high byte first, then the payload. */
  lemma FrameLayout(p: Packet)
    requires Sendable(p)
    ensures var b := Frame(p);
            && |b| == 16 + |p.payload| && b[16..] == p.payload
            && |p.payload| == b[0] as int * 0x100_0000 + b[1] as int * 0x1_0000 + b[2] as int * 0x100 + b[3] as int
            && p.flags == b[4] as int * 0x100_0000 + b[5] as int * 0x1_0000 + b[6] as int * 0x100 + b[7] as int
            && p.pts == 0x1_0000_0000 * (b[8] as int * 0x100_0000 + b[9] as int * 0x1_0000 + b[10] as int * 0x100 + b[11] as int)
                        + b[12] as int * 0x100_0000 + b[13] as int * 0x1_0000 + b[14] as int * 0x100 + b[15] as int
  {
    Be32Sum(|p.payload|);
    Be32Sum(p.flags);
    Be64Sum(p.pts);
    var head := PacketHead(p);
    assert head[..4] == Be32(|p.payload|) && head[4..8] == Be32(p.flags) && head[8..16] == Be64(p.pts);
    assert Frame(p)[..16] == head;
    SameBytes(Frame(p), head);
    EightBytes(head[8..16], head);
  }

  lemma SameBytes(b: seq<Byte>, head: seq<Byte>)
    requires |head| == 16 <= |b| && b[..16] == head
    ensures forall i :: 0 <= i < 16 ==> b[i] == head[i]
  {}

  lemma EightBytes(s: seq<Byte>, head: seq<Byte>)
    requires |head| == 16 && s == head[8..16]
    ensures forall i :: 0 <= i < 8 ==> head[8 + i] == s[i]
  {}

  lemma Be64Sum(x: nat)
    requires x < TWO_64
    ensures var b := Be64(x);
            x == 0x1_0000_0000 * (b[0] as int * 0x100_0000 + b[1] as int * 0x1_0000 + b[2] as int * 0x100 + b[3] as int)
                 + b[4] as int * 0x100_0000 + b[5] as int * 0x1_0000 + b[6] as int * 0x100 + b[7] as int
  {
    Be32Sum(x / TWO_32);
    Be32Digits(x);
  }

  // ---------------------------------------------------------------- packets, cut anywhere

  lemma PacketFields(a: seq<Byte>, b: seq<Byte>, c: seq<Byte>)
    requires |a| == 4 && |b| == 4 && |c| == 8
    ensures var h := PacketHeader(FromBe32(a), FromBe32(b), FromBe64(c));
            ParsePacket(a + b + c) == if 0 < h.size <= MAX_PAYLOAD && h.flags < 4 then Some(h) else None
  {
    var s := a + b + c;
    assert s[4..] == b + c && s[8..] == c;
  }

  /** A packet header is read back exactly within the broker's limits. */
  lemma HeadRoundTrip(p: Packet)
    requires |p.payload| < TWO_32 && p.flags < TWO_32 && p.pts < TWO_64
    ensures ParsePacket(PacketHead(p)) ==
            if 0 < |p.payload| <= 2 * 1024 * 1024 && p.flags < 4
            then Some(PacketHeader(|p.payload|, p.flags, p.pts)) else None
  {
    Read32(|p.payload|);
    Read32(p.flags);
    Read64(p.pts);
    PacketFields(Be32(|p.payload|), Be32(p.flags), Be64(p.pts));
  }

  /** How many packets lie entirely within the first n bytes. */
  function Whole(ps: seq<Packet>, n: nat): (k: nat)
    ensures k <= |ps|
  {
    if ps == [] || n < PACKET_HEADER + |ps[0].payload| then 0
    else 1 + Whole(ps[1..], n - PACKET_HEADER - |ps[0].payload|)
  }

  /** How many packets come before the first with flags the broker refuses. */
  function Leading(ps: seq<Packet>): (k: nat)
    ensures k <= |ps|
    ensures forall i :: 0 <= i < k ==> ps[i].flags < 4
    ensures k < |ps| ==> ps[k].flags >= 4
  {
    if ps == [] || ps[0].flags >= 4 then 0 else 1 + Leading(ps[1..])
  }

  function Min(a: nat, b: nat): nat { if a < b then a else b }

  /** Bytes in three parts, cut at n. */
  lemma PartsCut(head: seq<Byte>, payload: seq<Byte>, rest: seq<Byte>, n: nat)
    requires |head| <= n <= |head| + |payload| + |rest|
    ensures var s, h, m := (head + payload + rest)[..n], |head|, |head| + |payload|;
            && s[..h] == head
            && (m <= n ==> s[h..m] == payload && s[m..] == rest[..n - m])
  {}

  /** The bytes of the first packet, cut. */
  lemma FirstCut(ps: seq<Packet>, n: nat)
    requires ps != [] && PACKET_HEADER <= n <= |Frames(ps)|
    ensures var s, m := Frames(ps)[..n], PACKET_HEADER + |ps[0].payload|;
            && s[..PACKET_HEADER] == PacketHead(ps[0])
            && (m <= n ==> n - m <= |Frames(ps[1..])| && s[PACKET_HEADER..m] == ps[0].payload
                           && s[m..] == Frames(ps[1..])[..n - m])
  {
    PartsCut(PacketHead(ps[0]), ps[0].payload, Frames(ps[1..]), n);
  }

  /** What the broker does when the bytes begin with a printed packet header. */
  lemma ReceiveFirst(s: seq<Byte>, p: Packet)
    requires PACKET_HEADER <= |s| && s[..PACKET_HEADER] == PacketHead(p) && Sendable(p)
    ensures var m := PACKET_HEADER + |p.payload|;
            Receive(s) ==
              if p.flags >= 4 then Received([], Refused)
              else if |s| < m then Received([], Closed)
              else Received([Packet(p.flags, p.pts, s[PACKET_HEADER..m])] + Receive(s[m..]).packets, Receive(s[m..]).stop)
  {
    HeadRoundTrip(p);
  }

  /** A whole first packet is taken, and reading goes on behind it. */
  lemma FirstTaken(ps: seq<Packet>, n: nat)
    requires ps != [] && Sendable(ps[0]) && ps[0].flags < 4
    requires PACKET_HEADER + |ps[0].payload| <= n <= |Frames(ps)|
    ensures var k := n - PACKET_HEADER - |ps[0].payload|;
            var rest := Receive(Frames(ps[1..])[..k]);
            k <= |Frames(ps[1..])| && Receive(Frames(ps)[..n]) == Received([ps[0]] + rest.packets, rest.stop)
  {
    FirstCut(ps, n);
    ReceiveFirst(Frames(ps)[..n], ps[0]);
  }

  /** A first packet that is cut or carries unknown flags is not taken. */
  lemma FirstNotTaken(ps: seq<Packet>, n: nat)
    requires ps != [] && Sendable(ps[0]) && n <= |Frames(ps)|
    requires ps[0].flags >= 4 || n < PACKET_HEADER + |ps[0].payload|
    ensures var got := Receive(Frames(ps)[..n]);
            got.packets == [] && (got.stop == Refused ==> ps[0].flags >= 4)
  {
    if PACKET_HEADER <= n {
      FirstCut(ps, n);
      ReceiveFirst(Frames(ps)[..n], ps[0]);
    }
  }

  /** Whatever byte the transport stops at, the broker gets exactly the packets that arrived whole,
      in order, with their flags, timestamps and payloads, up to the first it refuses. */
  lemma {:induction false} CutRecovers(ps: seq<Packet>, n: nat)
    requires AllSendable(ps) && n <= |Frames(ps)|
    ensures Receive(Frames(ps)[..n]).packets == ps[..Min(Whole(ps, n), Leading(ps))]
    decreases |ps|
  {
    if ps != [] {
      var m := PACKET_HEADER + |ps[0].payload|;
      if ps[0].flags < 4 && m <= n {
        FirstTaken(ps, n);
        CutRecovers(ps[1..], n - m);
        OneMore(ps, n);
      } else {
        FirstNotTaken(ps, n);
      }
    }
  }

  lemma OneMore(ps: seq<Packet>, n: nat)
    requires ps != [] && ps[0].flags < 4 && PACKET_HEADER + |ps[0].payload| <= n
    ensures var k := Min(Whole(ps[1..], n - PACKET_HEADER - |ps[0].payload|), Leading(ps[1..]));
            ps[..Min(Whole(ps, n), Leading(ps))] == [ps[0]] + ps[1..][..k]
  {}

  /** A refusal means that every packet before the first with unknown flags had arrived. */
  lemma {:induction false} RefusedCut(ps: seq<Packet>, n: nat)
    requires AllSendable(ps) && n <= |Frames(ps)| && Receive(Frames(ps)[..n]).stop == Refused
    ensures Leading(ps) <= Whole(ps, n)
    decreases |ps|
  {
    if ps != [] {
      var m := PACKET_HEADER + |ps[0].payload|;
      if ps[0].flags < 4 && m <= n {
        FirstTaken(ps, n);
        RefusedCut(ps[1..], n - m);
      } else {
        FirstNotTaken(ps, n);
      }
    }
  }

  lemma {:induction false} WholeGrows(ps: seq<Packet>, m: nat, n: nat)
    requires m <= n
    ensures Whole(ps, m) <= Whole(ps, n)
    decreases |ps|
  {
    if ps != [] && PACKET_HEADER + |ps[0].payload| <= m {
      WholeGrows(ps[1..], m - PACKET_HEADER - |ps[0].payload|, n - PACKET_HEADER - |ps[0].payload|);
    }
  }

  /** Everything the phone can send without unknown flags arrives whole and unchanged. */
  lemma FramesRoundTrip(ps: seq<Packet>)
    requires AllSendable(ps)
    ensures Receive(Frames(ps)) == Received(ps, Closed) <==> forall i :: 0 <= i < |ps| ==> ps[i].flags < 4
  {
    var d := Frames(ps);
    assert d[..|d|] == d;
    CutRecovers(ps, |d|);
    WholeIsAll(ps);
    if Leading(ps) == |ps| {
      EndsClosed(ps);
      assert ps[..|ps|] == ps;
    }
  }

  /** A packet the phone can send and the broker refuses: a third flag. */
  lemma UnknownFlagRefused()
    ensures var p := Packet(4, 0, [0]);
            Sendable(p) && Receive(Frames([p])) == Received([], Refused)
  {
    var p := Packet(4, 0, [0]);
    ReceiveFirst(Frames([p]), p);
  }

  lemma {:induction false} WholeIsAll(ps: seq<Packet>)
    ensures Whole(ps, |Frames(ps)|) == |ps|
  {
    if ps != [] { WholeIsAll(ps[1..]); }
  }

  lemma {:induction false} EndsClosed(ps: seq<Packet>)
    requires AllSendable(ps) && Leading(ps) == |ps|
    ensures Receive(Frames(ps)).stop == Closed
  {
    if ps != [] {
      var d := Frames(ps);
      assert d[..|d|] == d;
      FirstCut(ps, |d|);
      ReceiveFirst(d, ps[0]);
      var rest := Frames(ps[1..]);
      assert rest[..|rest|] == rest;
      EndsClosed(ps[1..]);
    }
  }

  /** Conversely, whatever bytes come, the packets accepted are ones the phone could have sent, and
      their printed form is what those bytes begin with. */
  lemma {:induction false} ReceivedWasSent(s: seq<Byte>)
    ensures AllSendable(Receive(s).packets) && Frames(Receive(s).packets) <= s
    ensures forall i :: 0 <= i < |Receive(s).packets| ==> Receive(s).packets[i].flags < 4
    decreases |s|
  {
    if PACKET_HEADER <= |s| {
      var o := ParsePacket(s[..PACKET_HEADER]);
      if o.Some? && o.value.size <= |s| - PACKET_HEADER {
        var h := o.value;
        var m := PACKET_HEADER + h.size;
        var p := Packet(h.flags, h.pts, s[PACKET_HEADER..m]);
        var more := Receive(s[m..]).packets;
        HeadWasSent(s[..PACKET_HEADER]);
        ReceivedWasSent(s[m..]);
        assert ([p] + more)[1..] == more;
        assert Frame(p) == s[..m];
        assert s == s[..m] + s[m..];
      }
    }
  }

  lemma HeadWasSent(s: seq<Byte>)
    requires ParsePacket(s).Some?
    ensures var h := ParsePacket(s).value;
            h.pts < TWO_64 && Be32(h.size) + Be32(h.flags) + Be64(h.pts) == s
  {
    FromBe32Bound(s);
    FromBe32Bound(s[4..]);
    Be64Digits(s[8..]);
    assert s == s[..4] + s[4..][..4] + s[8..];
  }

  lemma Be64Digits(s: seq<Byte>)
    requires |s| == 8
    ensures FromBe64(s) < TWO_64 && Be64(FromBe64(s)) == s
  {
    FromBe32Bound(s);
    FromBe32Bound(s[4..]);
    var h, l := FromBe32(s), FromBe32(s[4..]);
    Cut(h * TWO_32 + l, h, l, TWO_32);
    Be32Low(h, l);
    assert s == s[..4] + s[4..];
    assert s[4..][..4] == s[4..];
  }

  lemma Be32Low(h: nat, l: nat)
    requires l < TWO_32
    ensures Be32(h * TWO_32 + l) == Be32(l)
  {
    Be32RoundTrip(h * TWO_32 + l, []);
    Be32RoundTrip(l, []);
    Cut(h * TWO_32 + l, h, l, TWO_32);
    FromBe32Bound(Be32(h * TWO_32 + l) + []);
    FromBe32Bound(Be32(l) + []);
  }

  // ---------------------------------------------------------------- the whole session

  /** What the broker makes of the bytes of one connection: nothing without a header it takes for a
      60 fps stream, else that header and the packets after it. */
  datatype Session = Rejected | Accepted(header: StreamHeader, received: Received)

  function Listen(s: seq<Byte>): Session {
    if |s| < STREAM_HEADER then Rejected
    else
      match ParseStream(s[..STREAM_HEADER])
      case None => Rejected
      case Some(h) => if h.fps != 60 then Rejected else Accepted(h, Receive(s[STREAM_HEADER..]))
  }

  /** From the phone's camera to the decoder: if the link breaks n bytes after the header, what was
      printed up to there is recovered and nothing else. */
  lemma SessionRecovers(width: nat, height: nat, fps: nat, ps: seq<Packet>, n: nat)
    requires width < TWO_32 && height < TWO_32 && fps < TWO_32
    requires AllSendable(ps) && n <= |Frames(ps)|
    ensures var h := StreamHeader(width, height, fps, 0);
            var got := Listen(HeaderBytes(width, height, fps) + Frames(ps)[..n]);
            && (got.Accepted? <==> InRange(h) && fps == 60)
            && (got.Accepted? ==> got.header == h && got.received.packets == ps[..Min(Whole(ps, n), Leading(ps))])
  {
    var b := HeaderBytes(width, height, fps);
    var s := b + Frames(ps)[..n];
    assert s[..STREAM_HEADER] == b && s[STREAM_HEADER..] == Frames(ps)[..n];
    HeaderRoundTrip(width, height, fps);
    CutRecovers(ps, n);
  }
}
