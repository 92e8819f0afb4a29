/**
 The shared-memory frame ring as a protocol: one broker process stores frames into three
 slots, any number of camera processes copy them out without a lock.  Every shared load and
 every shared store is a step of its own (the picture is copied one byte a step), and a run
 is an arbitrary list of events, so every interleaving is covered.  Steps are interleaved
 atomically: the barriers and interlocked stores of the program aim for exactly that.
 */
module RingProtocol {
  import opened Bytes
  import opened RingLayout

  /** One call of `publish` that was let in: the picture and its time. */
  datatype Shot = Shot(pixels: seq<Byte>, timestamp: int)

  datatype Slot = Slot(sequence: int, timestamp: int, bytes: int, data: seq<Byte>)

  datatype Memory = Memory(frameBytes: nat, slots: seq<Slot>, published: int, totalFrames: int, lastQpc: int)

  /** Where the broker is inside `publish`: the constructor names the last store made. */
  datatype Writer =
    | Idle
    | Copying(k: nat)
    | Timed
    | Sized
    | Sealed
    | Announced
    | Counted

  /** The broker: shared memory, its program counter, the private counter `next_`, and the
      list of all shots ever accepted (history only; no branch reads it). */
  datatype Broker = Broker(mem: Memory, pc: Writer, next: nat, log: seq<Shot>)

  datatype WriterEvent = Start(shot: Shot) | Advance(qpc: int)

  function Index(p: int): int { (p - 1) % RING_SLOTS }

  /** The slot that holds (or will hold) frame `p`. */
  function SlotOf(m: Memory, p: int): Slot
    requires |m.slots| == RING_SLOTS
  {
    m.slots[Index(p)]
  }

  function SetSlot(m: Memory, p: int, s: Slot): Memory
    requires |m.slots| == RING_SLOTS
  {
    m.(slots := m.slots[Index(p) := s])
  }

  function NewBroker(frameBytes: nat): Broker {
    Broker(Memory(frameBytes, seq(RING_SLOTS, _ => Slot(0, 0, 0, seq(frameBytes, _ => 0))), 0, 0, 0), Idle, 0, [])
  }

  ghost predicate Shape(b: Broker) {
    && |b.mem.slots| == RING_SLOTS
    && (forall j :: 0 <= j < RING_SLOTS ==> |b.mem.slots[j].data| == b.mem.frameBytes)
    && |b.log| == b.next
    && (forall i :: 0 <= i < |b.log| ==> |b.log[i].pixels| == b.mem.frameBytes)
    && (!b.pc.Idle? ==> 1 <= b.next)
    && (b.pc.Copying? ==> b.pc.k <= b.mem.frameBytes)
  }

  /** One store of `publish`, in program order.  `Start` is refused for a picture of the wrong
      size; while a call is under way there is no second one (one broker thread). */
  function WriterStep(b: Broker, e: WriterEvent): Broker
    requires Shape(b)
  {
    var m := b.mem;
    match e
    case Start(shot) =>
      if !b.pc.Idle? || |shot.pixels| != m.frameBytes then b else
      var n := b.next + 1;
      Broker(SetSlot(m, n, SlotOf(m, n).(sequence := 2 * n - 1)), Copying(0), n, b.log + [shot])
    case Advance(qpc) =>
      var n := b.next;
      match b.pc
      case Idle => b
      case Copying(k) =>
        var s, shot := SlotOf(m, n), b.log[n - 1];
        if k < m.frameBytes
        then b.(mem := SetSlot(m, n, s.(data := s.data[k := shot.pixels[k]])), pc := Copying(k + 1))
        else b.(mem := SetSlot(m, n, s.(timestamp := shot.timestamp)), pc := Timed)
      case Timed => b.(mem := SetSlot(m, n, SlotOf(m, n).(bytes := m.frameBytes)), pc := Sized)
      case Sized => b.(mem := SetSlot(m, n, SlotOf(m, n).(sequence := 2 * n)), pc := Sealed)
      case Sealed => b.(mem := m.(published := n), pc := Announced)
      case Announced => b.(mem := m.(totalFrames := m.totalFrames + 1), pc := Counted)
      case Counted => b.(mem := m.(lastQpc := qpc), pc := Idle)
  }

  // ---------------------------------------------------------------- the broker's invariant

  /** The last frame number `<= n` that falls into slot `j`, or 0 when there is none yet. */
  function Last(n: nat, j: int): nat {
    var m := n - (n - 1 - j) % RING_SLOTS;
    if n == 0 || m < 0 then 0 else m
  }

  /** The store that makes frame `next` the newest one has not happened yet. */
  predicate Open(b: Broker) { b.pc.Copying? || b.pc.Timed? || b.pc.Sized? }

  ghost predicate SlotInv(b: Broker, j: int)
    requires Shape(b) && 0 <= j < RING_SLOTS
  {
    var s, m := b.mem.slots[j], Last(b.next, j);
    if Open(b) && j == Index(b.next) then
      var shot := b.log[b.next - 1];
      && s.sequence == 2 * b.next - 1
      && s.data[..if b.pc.Copying? then b.pc.k else b.mem.frameBytes]
         == shot.pixels[..if b.pc.Copying? then b.pc.k else b.mem.frameBytes]
      && (!b.pc.Copying? ==> s.timestamp == shot.timestamp)
      && (b.pc.Sized? || RING_SLOTS < b.next ==> s.bytes == b.mem.frameBytes)
    else
      && s.sequence == 2 * m
      && (0 < m ==> s.data == b.log[m - 1].pixels && s.timestamp == b.log[m - 1].timestamp
                    && s.bytes == b.mem.frameBytes)
  }

  ghost predicate BrokerInv(b: Broker) {
    && Shape(b)
    && b.mem.published == (if Open(b) || b.pc.Sealed? then b.next - 1 else b.next)
    && b.mem.totalFrames == (if b.pc.Idle? || b.pc.Counted? then b.next else b.next - 1)
    && (forall j :: 0 <= j < RING_SLOTS ==> SlotInv(b, j))
  }

  /** What any number of broker steps can do to what a reader already knows. */
  ghost predicate Later(a: Broker, b: Broker) {
    && Shape(a) && Shape(b)
    && a.mem.frameBytes == b.mem.frameBytes
    && a.log <= b.log
    && a.mem.published <= b.mem.published
    && (forall j :: 0 <= j < RING_SLOTS ==> a.mem.slots[j].sequence <= b.mem.slots[j].sequence)
  }

  lemma NewBrokerInv(frameBytes: nat)
    ensures BrokerInv(NewBroker(frameBytes))
  {}

  lemma LastOf(n: nat, j: int)
    requires 0 <= j < RING_SLOTS
    ensures n - RING_SLOTS < Last(n, j) <= n || Last(n, j) == 0
    ensures n < Last(n, j) + RING_SLOTS
    ensures 0 < Last(n, j) ==> Index(Last(n, j)) == j
    ensures 0 < n ==> (j == Index(n) <==> Last(n, j) == n)
    ensures Last(n + 1, j) == if j == Index(n + 1) then n + 1 else Last(n, j)
  {}

  lemma StartInv(b: Broker, shot: Shot)
    requires BrokerInv(b) && b.pc.Idle? && |shot.pixels| == b.mem.frameBytes
    ensures BrokerInv(WriterStep(b, Start(shot))) && Later(b, WriterStep(b, Start(shot)))
  {
    var c := WriterStep(b, Start(shot));
    forall j | 0 <= j < RING_SLOTS
      ensures SlotInv(c, j) && b.mem.slots[j].sequence <= c.mem.slots[j].sequence
    {
      assert SlotInv(b, j);
      LastOf(b.next, j);
      if j == Index(c.next) {
        assert c.mem.slots[j].data[..0] == shot.pixels[..0];
      }
    }
  }

  lemma CopyByteInv(b: Broker, qpc: int)
    requires BrokerInv(b) && b.pc.Copying? && b.pc.k < b.mem.frameBytes
    ensures BrokerInv(WriterStep(b, Advance(qpc))) && Later(b, WriterStep(b, Advance(qpc)))
  {
    var c := WriterStep(b, Advance(qpc));
    var k := b.pc.k;
    forall j | 0 <= j < RING_SLOTS
      ensures SlotInv(c, j) && b.mem.slots[j].sequence <= c.mem.slots[j].sequence
    {
      assert SlotInv(b, j);
      if j == Index(b.next) {
        var was, now, want := b.mem.slots[j].data, c.mem.slots[j].data, b.log[b.next - 1].pixels;
        assert now[..k + 1] == was[..k] + [want[k]] == want[..k + 1];
      }
    }
  }

  /** The stores after the picture that still touch the slot: its time, its size, its seal. */
  lemma CloseSlotInv(b: Broker, qpc: int, j: int)
    requires BrokerInv(b) && 0 <= j < RING_SLOTS
    requires b.pc.Timed? || b.pc.Sized? || (b.pc.Copying? && b.pc.k == b.mem.frameBytes)
    ensures var c := WriterStep(b, Advance(qpc));
            Shape(c) && SlotInv(c, j) && b.mem.slots[j].sequence <= c.mem.slots[j].sequence
  {
    assert SlotInv(b, j);
    LastOf(b.next, j);
    var F, s, shot := b.mem.frameBytes, b.mem.slots[j], b.log[b.next - 1];
    if j == Index(b.next) {
      assert s.data[..F] == s.data && shot.pixels[..F] == shot.pixels;
    }
  }

  /** The stores into the header: counters only, no slot changes. */
  lemma HeaderInv(b: Broker, qpc: int, j: int)
    requires BrokerInv(b) && 0 <= j < RING_SLOTS
    requires b.pc.Idle? || b.pc.Sealed? || b.pc.Announced? || b.pc.Counted?
    ensures var c := WriterStep(b, Advance(qpc));
            Shape(c) && SlotInv(c, j) && b.mem.slots[j].sequence <= c.mem.slots[j].sequence
  {
    assert SlotInv(b, j);
  }

  lemma WriterStepInv(b: Broker, e: WriterEvent)
    requires BrokerInv(b)
    ensures BrokerInv(WriterStep(b, e)) && Later(b, WriterStep(b, e))
  {
    match e
    case Start(shot) =>
      if b.pc.Idle? && |shot.pixels| == b.mem.frameBytes { StartInv(b, shot); }
    case Advance(qpc) =>
      if b.pc.Copying? && b.pc.k < b.mem.frameBytes { CopyByteInv(b, qpc); } else {
        forall j | 0 <= j < RING_SLOTS
          ensures SlotInv(WriterStep(b, e), j)
               && b.mem.slots[j].sequence <= WriterStep(b, e).mem.slots[j].sequence
        {
          if Open(b) { CloseSlotInv(b, qpc, j); } else { HeaderInv(b, qpc, j); }
        }
      }
  }

  // ---------------------------------------------------------------- a whole call of publish

  /** The broker after n more of its own steps. */
  ghost function Advances(b: Broker, qpc: int, n: nat): (c: Broker)
    requires BrokerInv(b)
    ensures BrokerInv(c)
  {
    if n == 0 then b
    else
      WriterStepInv(Advances(b, qpc, n - 1), Advance(qpc));
      WriterStep(Advances(b, qpc, n - 1), Advance(qpc))
  }

  /** The stores of one call after the picture: time, size, even mark and three counters. */
  const TAIL := 6

  ghost function Published(b: Broker, shot: Shot, qpc: int): (c: Broker)
    requires BrokerInv(b)
    ensures BrokerInv(c)
  {
    WriterStepInv(b, Start(shot));
    Advances(WriterStep(b, Start(shot)), qpc, b.mem.frameBytes + TAIL)
  }

  lemma {:induction false} CopiesAll(b: Broker, qpc: int, n: nat)
    requires BrokerInv(b) && b.pc == Copying(0) && n <= b.mem.frameBytes
    ensures var c := Advances(b, qpc, n);
            && c.pc == Copying(n) && c.next == b.next && c.log == b.log
            && c.mem.frameBytes == b.mem.frameBytes && c.mem.published == b.mem.published
  {
    if n != 0 {
      CopiesAll(b, qpc, n - 1);
      CopiesOne(Advances(b, qpc, n - 1), qpc);
    }
  }

  lemma CopiesOne(b: Broker, qpc: int)
    requires BrokerInv(b) && b.pc.Copying? && b.pc.k < b.mem.frameBytes
    ensures var c := WriterStep(b, Advance(qpc));
            && c.pc == Copying(b.pc.k + 1) && c.next == b.next && c.log == b.log
            && c.mem.frameBytes == b.mem.frameBytes && c.mem.published == b.mem.published
  {}

  lemma {:induction false} AdvancesAdd(b: Broker, qpc: int, m: nat, n: nat)
    requires BrokerInv(b)
    ensures Advances(Advances(b, qpc, m), qpc, n) == Advances(b, qpc, m + n)
  {
    if n != 0 { AdvancesAdd(b, qpc, m, n - 1); }
  }

  /** How many steps the call under way has still to make. */
  function Remaining(b: Broker): nat
    requires Shape(b)
  {
    match b.pc
    case Copying(k) => b.mem.frameBytes - k + TAIL
    case Timed => 5
    case Sized => 4
    case Sealed => 3
    case Announced => 2
    case Counted => 1
    case Idle => 0
  }

  lemma OneStepLess(b: Broker, qpc: int)
    requires BrokerInv(b) && BrokerInv(WriterStep(b, Advance(qpc))) && !b.pc.Idle?
    ensures var c := WriterStep(b, Advance(qpc));
            && Remaining(c) == Remaining(b) - 1 && c.next == b.next && c.log == b.log
            && c.mem.frameBytes == b.mem.frameBytes && (c.pc.Idle? ==> c.mem.lastQpc == qpc)
  {}

  /** From wherever it stands, the broker comes to rest with its frame announced. */
  lemma {:induction false} ComesToRest(b: Broker, qpc: int)
    requires BrokerInv(b)
    ensures var c := Advances(b, qpc, Remaining(b));
            && c.pc.Idle? && c.next == b.next && c.log == b.log && c.mem.frameBytes == b.mem.frameBytes
            && c.mem.published == b.next && (!b.pc.Idle? ==> c.mem.lastQpc == qpc)
    decreases Remaining(b)
  {
    if !b.pc.Idle? {
      WriterStepInv(b, Advance(qpc));
      var c := WriterStep(b, Advance(qpc));
      OneStepLess(b, qpc);
      ComesToRest(c, qpc);
      AdvancesFront(b, qpc, Remaining(c));
      assert c.pc.Idle? ==> Remaining(c) == 0;
    }
  }

  lemma AdvancesFront(b: Broker, qpc: int, n: nat)
    requires BrokerInv(b) && BrokerInv(WriterStep(b, Advance(qpc)))
    ensures Advances(b, qpc, n + 1) == Advances(WriterStep(b, Advance(qpc)), qpc, n)
  {
    AdvancesAdd(b, qpc, 1, n);
    assert Advances(b, qpc, 0) == b;
    assert Advances(b, qpc, 1) == WriterStep(b, Advance(qpc));
  }

  /** A call of `publish` that was let in leaves the broker at rest with one more frame, whole in
      its slot and announced. */
  lemma PublishedMeans(b: Broker, shot: Shot, qpc: int)
    requires BrokerInv(b) && b.pc.Idle? && |shot.pixels| == b.mem.frameBytes
    ensures var c := Published(b, shot, qpc);
            && c.pc.Idle? && c.next == b.next + 1 && c.log == b.log + [shot]
            && c.mem.published == c.mem.totalFrames == b.next + 1 && c.mem.lastQpc == qpc
            && SlotOf(c.mem, c.next) == Slot(2 * c.next, shot.timestamp, b.mem.frameBytes, shot.pixels)
  {
    WriterStepInv(b, Start(shot));
    ComesToRest(WriterStep(b, Start(shot)), qpc);
    NewestSealed(Published(b, shot, qpc), shot);
  }

  lemma NewestSealed(c: Broker, shot: Shot)
    requires BrokerInv(c) && c.pc.Idle? && c.log != [] && c.log[|c.log| - 1] == shot
    ensures SlotOf(c.mem, c.next) == Slot(2 * c.next, shot.timestamp, c.mem.frameBytes, shot.pixels)
  {
    assert SlotInv(c, Index(c.next));
    LastOf(c.next, Index(c.next));
  }

  /** The next step of a broker in the middle of its copy. */
  lemma CopyOne(b: Broker, qpc: int, k: nat, m: Memory)
    requires BrokerInv(b) && b.pc == Copying(0) && k < b.mem.frameBytes
    requires Advances(b, qpc, k) == b.(mem := m, pc := Copying(k))
    ensures |m.slots| == RING_SLOTS && k < |SlotOf(m, b.next).data|
    ensures var s := SlotOf(m, b.next);
            Advances(b, qpc, k + 1)
            == b.(mem := SetSlot(m, b.next, s.(data := s.data[k := b.log[b.next - 1].pixels[k]])), pc := Copying(k + 1))
  {
    CopiesAll(b, qpc, k);
  }

  /** A call of `publish`, cut after its copy. */
  lemma PublishedFromCopy(b: Broker, shot: Shot, qpc: int)
    requires BrokerInv(b) && BrokerInv(WriterStep(b, Start(shot)))
    ensures Published(b, shot, qpc) == Advances(Advances(WriterStep(b, Start(shot)), qpc, b.mem.frameBytes), qpc, TAIL)
  {
    AdvancesAdd(WriterStep(b, Start(shot)), qpc, b.mem.frameBytes, TAIL);
  }
}
