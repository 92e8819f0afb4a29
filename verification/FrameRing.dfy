/**
 The broker's end of the ring as the program has it: one flat mapping, addressed with the
 layout of `create`, and an object that stores into it.  Every store is shown to be the next
 step of the protocol's broker, so what is proved about the protocol is true of this code.
 */
module FrameRing {
  import opened Bytes
  import opened RingLayout
  import opened RingProtocol

  function Put(m: Memory, i: nat, s: Slot): Memory
    requires i < |m.slots|
  {
    m.(slots := m.slots[i := s])
  }

  /** The shared object: header fields, the 64-bit cells of the slots, and the bytes. */
  class Mapping {
    const header: Header
    const bytes: array<Byte>
    const sequence: array<int>
    const timestamp: array<int>
    const size: array<int>
    var published: int
    var totalFrames: int
    var lastQpc: int

    constructor (header: Header)
      ensures this.header == header && fresh(bytes) && fresh(sequence) && fresh(timestamp) && fresh(size)
      ensures bytes.Length == RING_HEADER + header.slotStride * RING_SLOTS
      ensures sequence.Length == timestamp.Length == size.Length == RING_SLOTS
      ensures forall i :: 0 <= i < bytes.Length ==> bytes[i] == 0
      ensures forall i :: 0 <= i < RING_SLOTS ==> sequence[i] == timestamp[i] == size[i] == 0
      ensures published == totalFrames == lastQpc == 0
      ensures sequence != timestamp && sequence != size && timestamp != size
    {
      this.header := header;
      bytes := new Byte[RING_HEADER + header.slotStride * RING_SLOTS](_ => 0);
      sequence := new int[RING_SLOTS](_ => 0);
      timestamp := new int[RING_SLOTS](_ => 0);
      size := new int[RING_SLOTS](_ => 0);
      published, totalFrames, lastQpc := 0, 0, 0;
    }

    ghost predicate Sound()
      reads this
    {
      && bytes.Length == RING_HEADER + header.slotStride * RING_SLOTS
      && sequence.Length == timestamp.Length == size.Length == RING_SLOTS
      && sequence != timestamp && sequence != size && timestamp != size
      && SLOT_HEADER + header.frameBytes <= header.slotStride
    }

    /** Where the picture of slot j starts. */
    function DataAt(j: nat): nat { SlotBase(header.slotStride, j) + SLOT_HEADER }

    /** A slot's picture ends inside its slot, and the slots follow one another. */
    lemma DataInside(j: nat)
      requires Sound() && j < RING_SLOTS
      ensures DataAt(j) + header.frameBytes <= SlotBase(header.slotStride, j + 1) <= bytes.Length
    {
      assert j == 0 || j == 1 || j == 2;
    }

    /** The picture of slot j in the bytes of a mapping. */
    ghost function Picture(d: seq<Byte>, j: nat): seq<Byte>
      requires DataAt(j) + header.frameBytes <= |d|
    {
      d[DataAt(j)..DataAt(j) + header.frameBytes]
    }

    ghost function SlotView(j: nat): Slot
      reads this, bytes, sequence, timestamp, size
      requires Sound() && j < RING_SLOTS
    {
      DataInside(j);
      Slot(sequence[j], timestamp[j], size[j], Picture(bytes[..], j))
    }

    ghost function View(): Memory
      reads this, bytes, sequence, timestamp, size
      requires Sound()
    {
      Memory(header.frameBytes, [SlotView(0), SlotView(1), SlotView(2)], published, totalFrames, lastQpc)
    }

    /** A byte of slot i's picture lies in no other slot's picture. */
    lemma DataApart(i: nat, j: nat)
      requires Sound() && i < j < RING_SLOTS
      ensures DataAt(i) + header.frameBytes <= DataAt(j)
    {
      assert (i == 0 && (j == 1 || j == 2)) || (i == 1 && j == 2);
    }

    /** A byte written into the stretch at `p`, seen from the stretch at `q`, which is the same or apart. */
    static lemma OneByte(was: seq<Byte>, p: nat, q: nat, n: nat, k: nat, x: Byte)
      requires k < n && p + n <= |was| && q + n <= |was| && (p == q || p + n <= q || q + n <= p)
      ensures was[p + k := x][q..q + n] == if p == q then was[q..q + n][k := x] else was[q..q + n]
    {}

    lemma PictureAfter(was: seq<Byte>, i: nat, j: nat, k: nat, x: Byte)
      requires Sound() && i < RING_SLOTS && j < RING_SLOTS && k < header.frameBytes && |was| == bytes.Length
      ensures DataAt(i) + header.frameBytes <= |was| && DataAt(j) + header.frameBytes <= |was|
      ensures Picture(was[DataAt(i) + k := x], j) == if i == j then Picture(was, j)[k := x] else Picture(was, j)
    {
      DataInside(i);
      DataInside(j);
      if j < i { DataApart(j, i); } else if i < j { DataApart(i, j); }
      OneByte(was, DataAt(i), DataAt(j), header.frameBytes, k, x);
      if i != j && header.frameBytes != 0 { assert DataAt(i) != DataAt(j); }
    }

    /** Storing one byte of slot i's picture changes that byte of that slot and nothing else. */
    method StoreByte(i: nat, k: nat, x: Byte)
      requires Sound() && i < RING_SLOTS && k < header.frameBytes
      modifies bytes
      ensures View() == Put(old(View()), i, old(SlotView(i)).(data := old(SlotView(i)).data[k := x]))
    {
      DataInside(i);
      ghost var was := bytes[..];
      bytes[DataAt(i) + k] := x;
      assert bytes[..] == was[DataAt(i) + k := x];
      PictureAfter(was, i, 0, k, x);
      PictureAfter(was, i, 1, k, x);
      PictureAfter(was, i, 2, k, x);
      assert View().slots == Put(old(View()), i, SlotView(i)).slots;
    }

    method StoreSequence(i: nat, x: int)
      requires Sound() && i < RING_SLOTS
      modifies sequence
      ensures View() == Put(old(View()), i, old(SlotView(i)).(sequence := x))
    {
      sequence[i] := x;
      assert View().slots == Put(old(View()), i, SlotView(i)).slots;
    }

    method StoreTimestamp(i: nat, x: int)
      requires Sound() && i < RING_SLOTS
      modifies timestamp
      ensures View() == Put(old(View()), i, old(SlotView(i)).(timestamp := x))
    {
      timestamp[i] := x;
      assert View().slots == Put(old(View()), i, SlotView(i)).slots;
    }

    method StoreSize(i: nat, x: int)
      requires Sound() && i < RING_SLOTS
      modifies size
      ensures View() == Put(old(View()), i, old(SlotView(i)).(bytes := x))
    {
      size[i] := x;
      assert View().slots == Put(old(View()), i, SlotView(i)).slots;
    }

    lemma BlankView()
      requires Sound() && published == totalFrames == lastQpc == 0
      requires forall i :: 0 <= i < bytes.Length ==> bytes[i] == 0
      requires forall i :: 0 <= i < RING_SLOTS ==> sequence[i] == timestamp[i] == size[i] == 0
      ensures View() == NewBroker(header.frameBytes).mem
    {
      forall j: nat | j < RING_SLOTS ensures SlotView(j) == Slot(0, 0, 0, seq(header.frameBytes, _ => 0)) {
        DataInside(j);
      }
      assert View().slots == NewBroker(header.frameBytes).mem.slots;
    }

    /** All mutable cells of the object. */
    ghost function Cells(): set<object> { {this, bytes, sequence, timestamp, size} }
  }

  /** These bytes from a place on. */
  ghost predicate StandsAt(d: seq<Byte>, at: nat, pixels: seq<Byte>) {
    at + |pixels| <= |d| && d[at..at + |pixels|] == pixels
  }

  class FrameRing {
    var mapping: Mapping?
    var next: nat
    ghost var log: seq<Shot>

    ghost predicate Valid()
      reads this, mapping, if mapping == null then {} else mapping.Cells()
    {
      mapping != null ==> mapping.Sound() && BrokerInv(View())
    }

    /** The broker of the protocol, at rest between two calls. */
    ghost function View(): Broker
      reads this, mapping, if mapping == null then {} else mapping.Cells()
      requires mapping != null && mapping.Sound()
    {
      Broker(mapping.View(), Idle, next, log)
    }

    constructor ()
      ensures Valid() && mapping == null
    {
      mapping, next, log := null, 0, [];
    }

    method Close()
      modifies this
      ensures mapping == null && next == old(next)
    {
      mapping := null;
    }

    /** `nameFree`: the system reported no existing object; `systemOk`: both of its calls worked. */
    method Create(width: nat, height: nat, fps: nat, nameFree: bool, systemOk: bool) returns (ok: bool)
      modifies this
      ensures Valid()
      ensures ok <==>
        && 1 <= fps <= 120 && 1 <= width <= 3840 && 1 <= height <= 2160 && width % 2 == 0 && height % 2 == 0
        && nameFree && systemOk
      ensures ok <==> mapping != null
      ensures ok ==> fresh(mapping) && mapping.header == Created(width, height, fps)
                     && View() == NewBroker(Payload(width, height))
    {
      Close();
      if fps < 1 || fps > 120 || width == 0 || height == 0 || width > 3840 || height > 2160
         || width % 2 == 1 || height % 2 == 1 {
        return false;
      }
      var header := Layout(width, height, fps);
      if !systemOk || !nameFree { return false; }
      Initialise(header);
      ok := true;
    }

    /** The layout arithmetic; its guard against a size beyond 32 bits never fires. */
    static method Layout(width: nat, height: nat, fps: nat) returns (header: Header)
      requires Creatable(width, height, fps)
      ensures header == Created(width, height, fps) && SLOT_HEADER + header.frameBytes <= header.slotStride
    {
      var payload := width * height * 3 / 2;
      var stride := (SLOT_HEADER + payload + 63) / 64 * 64;
      var size := RING_HEADER + stride * RING_SLOTS;
      LayoutSound(width, height, fps);
      assert size <= DWORD_MAX;
      header := Header(MAGIC, VERSION, width, height, width, payload, stride, fps);
    }

    method Initialise(header: Header)
      requires SLOT_HEADER + header.frameBytes <= header.slotStride
      modifies this
      ensures Valid() && fresh(mapping) && mapping != null && mapping.header == header
      ensures View() == NewBroker(header.frameBytes)
    {
      mapping := new Mapping(header);
      next, log := 0, [];
      mapping.BlankView();
      NewBrokerInv(header.frameBytes);
    }

    /** The copy of the picture into slot i: as many broker steps as there are bytes. */
    method CopyPicture(m: Mapping, nv12: array<Byte>, i: nat, ghost b: Broker, ghost qpc: int)
      requires m.Sound() && m.bytes != nv12 && nv12.Length == m.header.frameBytes
      requires BrokerInv(b) && b.pc == Copying(0) && b.mem == m.View()
      requires i == Index(b.next) && b.log[b.next - 1].pixels == nv12[..]
      modifies m.bytes
      ensures Advances(b, qpc, nv12.Length) == b.(mem := m.View(), pc := Copying(nv12.Length))
    {
      var k := 0;
      while k < nv12.Length
        invariant 0 <= k <= nv12.Length
        invariant Advances(b, qpc, k) == b.(mem := m.View(), pc := Copying(k))
      {
        CopyByte(m, nv12, i, k, b, qpc);
        k := k + 1;
      }
    }

    method CopyByte(m: Mapping, nv12: array<Byte>, i: nat, k: nat, ghost b: Broker, ghost qpc: int)
      requires m.Sound() && m.bytes != nv12 && k < nv12.Length == m.header.frameBytes
      requires BrokerInv(b) && b.pc == Copying(0) && b.mem.frameBytes == nv12.Length
      requires i == Index(b.next) && b.log[b.next - 1].pixels == nv12[..]
      requires Advances(b, qpc, k) == b.(mem := m.View(), pc := Copying(k))
      modifies m.bytes
      ensures Advances(b, qpc, k + 1) == b.(mem := m.View(), pc := Copying(k + 1))
    {
      CopyOne(b, qpc, k, m.View());
      m.StoreByte(i, k, nv12[k]);
    }

    /** The stores after the copy: the slot's time, size and even mark, then the counters. */
    method Announce(m: Mapping, i: nat, pts: int, qpc: int, ghost b: Broker)
      requires m.Sound() && BrokerInv(b) && b.pc == Copying(b.mem.frameBytes) && b.mem == m.View()
      requires i == Index(b.next) && next == b.next && b.log[b.next - 1].timestamp == pts
      requires m as object != this
      modifies m, m.sequence, m.timestamp, m.size
      ensures Advances(b, qpc, TAIL) == b.(mem := m.View(), pc := Idle)
    {
      CloseSlot(m, i, pts, qpc, b);
      ghost var c := Advances(b, qpc, 3);
      Count(m, qpc, c);
      AdvancesAdd(b, qpc, 3, 3);
    }

    method CloseSlot(m: Mapping, i: nat, pts: int, ghost qpc: int, ghost b: Broker)
      requires m.Sound() && BrokerInv(b) && b.pc == Copying(b.mem.frameBytes) && b.mem == m.View()
      requires i == Index(b.next) && next == b.next && b.log[b.next - 1].timestamp == pts
      modifies m.sequence, m.timestamp, m.size
      ensures Advances(b, qpc, 3) == b.(mem := m.View(), pc := Sealed)
    {
      m.StoreTimestamp(i, pts);
      assert Advances(b, qpc, 1) == b.(mem := m.View(), pc := Timed);
      m.StoreSize(i, m.header.frameBytes);
      assert Advances(b, qpc, 2) == b.(mem := m.View(), pc := Sized);
      m.StoreSequence(i, 2 * next);
    }

    method Count(m: Mapping, qpc: int, ghost b: Broker)
      requires m.Sound() && BrokerInv(b) && b.pc == Sealed && b.mem == m.View() && next == b.next
      requires m as object != this
      modifies m
      ensures Advances(b, qpc, 3) == b.(mem := m.View(), pc := Idle)
    {
      m.published := next;
      assert Advances(b, qpc, 1) == b.(mem := m.View(), pc := Announced);
      m.totalFrames := m.totalFrames + 1;
      assert Advances(b, qpc, 2) == b.(mem := m.View(), pc := Counted);
      m.lastQpc := qpc;
    }

    /** One call: `nv12` may be null, `pts` is the picture's time and `qpc` the clock at the end. */
    method Publish(nv12: array?<Byte>, pts: int, qpc: int) returns (ok: bool)
      requires Valid()
      requires mapping != null ==> mapping.bytes != nv12
      modifies this, mapping, if mapping == null then {} else mapping.Cells()
      ensures Valid() && mapping == old(mapping)
      ensures ok <==> mapping != null && nv12 != null && nv12.Length == mapping.header.frameBytes
      ensures !ok && mapping != null ==> View() == old(View())
      ensures ok ==> View() == Published(old(View()), Shot(nv12[..], pts), qpc)
      ensures ok ==>
        next == old(next) + 1 && StandsAt(mapping.bytes[..], 64 + old(next) % 3 * mapping.header.slotStride + 64, nv12[..])
    {
      if mapping == null || nv12 == null || nv12.Length != mapping.header.frameBytes { return false; }
      Store(mapping, nv12, pts, qpc, View());
      ok := true;
    }

    /** The picture of a finished call, as a stretch of the mapping's bytes. */
    lemma NewestStands(m: Mapping, b: Broker, shot: Shot, qpc: int, i: nat, n: nat, log: seq<Shot>)
      requires m.Sound() && BrokerInv(b) && b.pc.Idle? && |shot.pixels| == m.header.frameBytes == b.mem.frameBytes
      requires Broker(m.View(), Idle, n, log) == Published(b, shot, qpc) && i == b.next % RING_SLOTS
      ensures n == b.next + 1 && StandsAt(m.bytes[..], 64 + i * m.header.slotStride + 64, shot.pixels)
    {
      PublishedMeans(b, shot, qpc);
      WhereSlot(m, i, shot.pixels);
    }

    lemma WhereSlot(m: Mapping, i: nat, pixels: seq<Byte>)
      requires m.Sound() && i < RING_SLOTS && m.View().slots[i].data == pixels
      ensures StandsAt(m.bytes[..], 64 + i * m.header.slotStride + 64, pixels)
    {
      m.DataInside(i);
      assert i == 0 || i == 1 || i == 2;
      assert m.View().slots[i] == m.SlotView(i);
    }

    /** The odd mark and the picture. */
    method MarkAndCopy(m: Mapping, nv12: array<Byte>, pts: int, ghost qpc: int, ghost b: Broker) returns (ghost c: Broker)
      requires m.Sound() && BrokerInv(b) && b == Broker(m.View(), Idle, next, log) && m as object != this
      requires m.bytes != nv12 && nv12.Length == m.header.frameBytes
      modifies this`next, this`log, m.sequence, m.bytes
      ensures log == old(log) + [Shot(nv12[..], pts)] && next == old(next) + 1
      ensures BrokerInv(c) && c == Broker(m.View(), Copying(c.mem.frameBytes), next, log)
      ensures Advances(c, qpc, TAIL) == Published(b, Shot(nv12[..], pts), qpc)
    {
      ghost var shot := Shot(nv12[..], pts);
      WriterStepInv(b, Start(shot));
      ghost var b1 := WriterStep(b, Start(shot));
      var i := next % RING_SLOTS;
      next := next + 1;
      log := log + [shot];
      m.StoreSequence(i, 2 * next - 1);
      assert b1 == Broker(m.View(), Copying(0), next, log);
      CopyPicture(m, nv12, i, b1, qpc);
      PublishedFromCopy(b, shot, qpc);
      c := Advances(b1, qpc, nv12.Length);
    }

    /** All stores of a call that was let in. */
    method Store(m: Mapping, nv12: array<Byte>, pts: int, qpc: int, ghost b: Broker)
      requires m.Sound() && BrokerInv(b) && b == Broker(m.View(), Idle, next, log) && m as object != this
      requires m.bytes != nv12 && nv12.Length == m.header.frameBytes
      modifies this`next, this`log, m.Cells()
      ensures Broker(m.View(), Idle, next, log) == Published(b, Shot(nv12[..], pts), qpc)
      ensures next == old(next) + 1 && StandsAt(m.bytes[..], 64 + old(next) % 3 * m.header.slotStride + 64, nv12[..])
    {
      var i := next % RING_SLOTS;
      ghost var c := MarkAndCopy(m, nv12, pts, qpc, b);
      Announce(m, i, pts, qpc, c);
      NewestStands(m, b, Shot(nv12[..], pts), qpc, i, next, log);
    }
  }
}
