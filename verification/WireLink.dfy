/**
 The camera link from end to end: the phone's writer, a transport that may cut the stream into any
 pieces and break it at any byte, and the broker's receive loop.
 */
module WireLink {
  import opened Bytes
  import opened WireFormat
  import opened WireProgram
  import RingLayout

  /** The packets a link can bring that broke n bytes after the stream header. */
  function Brought(ps: seq<Packet>, n: nat): seq<Packet> { ps[..Min(Whole(ps, n), Leading(ps))] }

  /** The loop of the camera: packet after packet, with one header buffer for all. */
  method SendPackets(out: OutputStream, ps: seq<Packet>)
    requires AllSendable(ps)
    modifies out
    ensures out.sent == old(out.sent) + Frames(ps)
  {
    var header := new Byte[PACKET_HEADER];
    var i := 0;
    assert ps[0..] == ps;
    while i < |ps|
      invariant 0 <= i <= |ps| && out.sent + Frames(ps[i..]) == old(out.sent) + Frames(ps)
      modifies out, header
    {
      var p, before := ps[i], out.sent;
      var data := new Byte[|p.payload|](k requires 0 <= k < |p.payload| => p.payload[k]);
      assert data[..] == p.payload && [] + p.payload == p.payload;
      var ok := WritePacket(out, header, null, data, p.flags, p.pts);
      SentBack(p);
      FramesFrom(ps, i, before);
      i := i + 1;
    }
    assert ps[i..] == [];
  }

  lemma SentBack(p: Packet)
    requires Sendable(p)
    ensures Sent([], p.payload, p.flags, p.pts) == p
  {
    assert [] + p.payload == p.payload;
  }

  lemma FramesFrom(ps: seq<Packet>, i: nat, sent: seq<Byte>)
    requires i < |ps|
    ensures sent + Frames(ps[i..]) == sent + Frame(ps[i]) + Frames(ps[i + 1..])
  {
    assert ps[i..][1..] == ps[i + 1..];
    assert sent + (Frame(ps[i]) + Frames(ps[i + 1..])) == sent + Frame(ps[i]) + Frames(ps[i + 1..]);
  }

  /** What the first m bytes that the broker takes off a broken link say: never anything the phone did
      not send, and all that was brought once the link is used up or a header refused. */
  lemma TakenRecovers(width: nat, height: nat, fps: nat, ps: seq<Packet>, n: nat, m: nat)
    requires width < TWO_32 && height < TWO_32 && fps < TWO_32 && AllSendable(ps)
    requires n <= |Frames(ps)| && m <= STREAM_HEADER + n
    ensures var h := StreamHeader(width, height, fps, 0);
            var got := Listen((HeaderBytes(width, height, fps) + Frames(ps)[..n])[..m]);
            && (got.Accepted? <==> STREAM_HEADER <= m && InRange(h) && fps == 60)
            && (got.Accepted? ==> got.header == h && got.received.packets <= Brought(ps, n))
            && (got.Accepted? && (m == STREAM_HEADER + n || got.received.stop == Refused) ==>
                  got.received.packets == Brought(ps, n))
  {
    if STREAM_HEADER <= m {
      var k := m - STREAM_HEADER;
      TakenBytes(HeaderBytes(width, height, fps), Frames(ps), n, m, k);
      SessionRecovers(width, height, fps, ps, k);
      Cuts(ps, k, n);
    }
  }

  lemma TakenBytes(head: seq<Byte>, rest: seq<Byte>, n: nat, m: nat, k: nat)
    requires n <= |rest| && |head| <= m <= |head| + n && k == m - |head|
    ensures (head + rest[..n])[..m] == head + rest[..k] && (head + rest[..k])[|head|..] == rest[..k]
  {}

  /** What an earlier cut brings is the beginning of what a later one brings, and all of it if the
      broker stopped at a refused header. */
  lemma Cuts(ps: seq<Packet>, k: nat, n: nat)
    requires AllSendable(ps) && k <= n <= |Frames(ps)|
    ensures Receive(Frames(ps)[..k]).packets <= Brought(ps, n)
    ensures Receive(Frames(ps)[..k]).stop == Refused ==> Receive(Frames(ps)[..k]).packets == Brought(ps, n)
  {
    CutRecovers(ps, k);
    WholeGrows(ps, k, n);
    if Receive(Frames(ps)[..k]).stop == Refused { RefusedCut(ps, k); }
  }

  /** One connection.  The link breaks after n bytes of packets, `timetable` says how the bytes come in
      pieces and where `recv` fails.  The broker ends up with the phone's header and packets: nothing
      else, in order, and unless `recv` failed all that were brought. */
  method Link(width: nat, height: nat, fps: nat, ps: seq<Packet>, n: nat, timetable: seq<nat>) returns (session: Session)
    requires width < TWO_32 && height < TWO_32 && fps < TWO_32 && AllSendable(ps) && n <= |Frames(ps)|
    ensures session.Accepted? ==>
              var h := StreamHeader(width, height, fps, 0);
              InRange(h) && fps == 60 && session.header == h && session.received.packets <= Brought(ps, n)
    ensures 0 !in timetable ==>
              (session.Accepted? <==> InRange(StreamHeader(width, height, fps, 0)) && fps == 60)
    ensures 0 !in timetable && session.Accepted? ==> session.received.packets == Brought(ps, n)
    ensures 0 !in timetable && session.Accepted? && n == |Frames(ps)| && (forall i :: 0 <= i < |ps| ==> ps[i].flags < 4) ==>
              session.received.packets == ps
  {
    var bytes := Printed(width, height, fps, ps);
    CutBytes(HeaderBytes(width, height, fps), Frames(ps), n);
    var link := new Connection(bytes[..STREAM_HEADER + n], timetable);
    ghost var all := link.pending;
    session := link.Once();
    LinkEnds(width, height, fps, ps, n, all, |link.pending|, 0 !in timetable, session);
    BroughtAll(ps);
  }

  /** What the broker made of all but the last `rest` bytes; there are such only if a `recv` failed
      or a header was refused. */
  lemma LinkEnds(width: nat, height: nat, fps: nat, ps: seq<Packet>, n: nat, all: seq<Byte>, rest: nat, willing: bool,
                 session: Session)
    requires width < TWO_32 && height < TWO_32 && fps < TWO_32 && AllSendable(ps) && n <= |Frames(ps)|
    requires all == HeaderBytes(width, height, fps) + Frames(ps)[..n] && rest <= |all|
    requires session == Listen(all[..|all| - rest])
    requires willing && session.Accepted? && session.received.stop == Closed ==> rest == 0
    requires willing && session.Rejected? ==> rest == 0 || |all| - rest == STREAM_HEADER
    ensures var h := StreamHeader(width, height, fps, 0);
            && (session.Accepted? ==> InRange(h) && fps == 60 && session.header == h && session.received.packets <= Brought(ps, n))
            && (willing ==> (session.Accepted? <==> InRange(h) && fps == 60))
            && (willing && session.Accepted? ==> session.received.packets == Brought(ps, n))
  {
    TakenRecovers(width, height, fps, ps, n, |all| - rest);
  }

  /** All that the phone writes into one connection. */
  method Printed(width: nat, height: nat, fps: nat, ps: seq<Packet>) returns (bytes: seq<Byte>)
    requires AllSendable(ps)
    ensures bytes == HeaderBytes(width, height, fps) + Frames(ps)
  {
    var out := new OutputStream();
    WriteStreamHeader(out, width, height, fps);
    SendPackets(out, ps);
    bytes := out.sent;
  }

  /** Every stream the broker accepts gets a ring, and one that cameras accept. */
  lemma AcceptedGetsRing(s: seq<Byte>)
    requires Listen(s).Accepted?
    ensures var h := Listen(s).header;
            && RingLayout.Creatable(h.width, h.height, h.fps)
            && RingLayout.Accepts(RingLayout.Created(h.width, h.height, h.fps))
  {
    var h := Listen(s).header;
    RingLayout.OpenAcceptsCreated(h.width, h.height, h.fps);
  }

  lemma CutBytes(head: seq<Byte>, rest: seq<Byte>, n: nat)
    requires n <= |rest|
    ensures (head + rest)[..|head| + n] == head + rest[..n]
  {}

  /** Nothing is missing from a whole stream of packets with known flags. */
  lemma BroughtAll(ps: seq<Packet>)
    ensures (forall i :: 0 <= i < |ps| ==> ps[i].flags < 4) ==> Brought(ps, |Frames(ps)|) == ps
  {
    WholeIsAll(ps);
    if Leading(ps) == |ps| { assert ps[..|ps|] == ps; }
  }
}
