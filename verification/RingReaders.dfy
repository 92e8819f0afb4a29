/**
 The camera processes: any number of readers run `copy_latest` against the broker's memory.
 A run of the whole system is an arbitrary list of events, each of which moves one process
 over one shared access.
 */
module RingReaders {
  import opened Bytes
  import opened RingLayout
  import opened RingProtocol

  const ATTEMPTS := 3

  /** Where a reader is inside `copy_latest`: `i` is the attempt, `p` the counter it loaded. */
  datatype ReaderPc =
    | Rest
    | Load(i: nat)
    | Check(i: nat, p: int)
    | Size(i: nat, p: int)
    | Copy(i: nat, p: int, k: nat)
    | Recheck(i: nat, p: int)
    | Took(p: int)  // returned true with seq == p
    | Refused       // returned false: the buffer is too small
    | Empty         // returned false: nothing published at this load
    | GaveUp        // returned false: three attempts failed

  /** A reader: its destination buffer and two pieces of history, the counter the running call
      loaded first and all sequence numbers its calls have returned (`lastFrame_` is the last). */
  datatype Reader = Reader(pc: ReaderPc, dst: seq<Byte>, first: int, taken: seq<int>)

  function Retry(i: nat): ReaderPc { if i + 1 < ATTEMPTS then Load(i + 1) else GaveUp }

  predicate Active(r: Reader) { r.pc.Load? || r.pc.Check? || r.pc.Size? || r.pc.Copy? || r.pc.Recheck? }

  ghost predicate Fits(m: Memory, r: Reader) {
    && |m.slots| == RING_SLOTS
    && (forall j :: 0 <= j < RING_SLOTS ==> |m.slots[j].data| == m.frameBytes)
    && (Active(r) || r.pc.Took? ==> m.frameBytes <= |r.dst|)
  }

  function CallStep(m: Memory, r: Reader, buffer: seq<Byte>): Reader {
    if Active(r) then r
    else r.(dst := buffer, pc := if |buffer| < m.frameBytes then Refused else Load(0))
  }

  /** One shared load of `copy_latest` (the last byte's step finds the copy loop at its end). */
  function ReaderStep(m: Memory, r: Reader): Reader
    requires Fits(m, r)
  {
    match r.pc
    case Load(i) =>
      var p := m.published;
      var first := if i == 0 then p else r.first;
      r.(pc := if p <= 0 then Empty else Check(i, p), first := first)
    case Check(i, p) => r.(pc := if SlotOf(m, p).sequence != 2 * p then Retry(i) else Size(i, p))
    case Size(i, p) => r.(pc := if SlotOf(m, p).bytes != m.frameBytes then Retry(i) else Copy(i, p, 0))
    case Copy(i, p, k) =>
      if k < m.frameBytes
      then r.(dst := r.dst[k := SlotOf(m, p).data[k]], pc := Copy(i, p, k + 1))
      else r.(pc := Recheck(i, p))
    case Recheck(i, p) =>
      if SlotOf(m, p).sequence == 2 * p then r.(pc := Took(p), taken := r.taken + [p]) else r.(pc := Retry(i))
    case _ => r
  }

  // ---------------------------------------------------------------- the reader's invariant

  /** What an attempt for frame `p` may rely on once it has loaded the counter. */
  ghost predicate Attempt(b: Broker, r: Reader, i: nat, p: int)
    requires Shape(b)
  {
    && i < ATTEMPTS
    && 1 <= r.first && r.first + 2 * i <= p <= b.mem.published
    && (r.taken != [] ==> r.taken[|r.taken| - 1] <= p)
    && 2 * p <= SlotOf(b.mem, p).sequence
  }

  /** `dst` holds the first `k` bytes of frame `p`, as long as the slot still carries `p`. */
  ghost predicate Held(b: Broker, r: Reader, p: int, k: int)
    requires BrokerInv(b)
    requires 1 <= p <= b.mem.published && 0 <= k <= b.mem.frameBytes <= |r.dst|
  {
    SlotOf(b.mem, p).sequence == 2 * p ==> r.dst[..k] == b.log[p - 1].pixels[..k]
  }

  ghost predicate Ascending(s: seq<int>) { forall i, j :: 0 <= i < j < |s| ==> s[i] <= s[j] }

  ghost predicate ReaderInv(b: Broker, r: Reader)
    requires BrokerInv(b)
  {
    && Fits(b.mem, r)
    && Ascending(r.taken)
    && (forall i :: 0 <= i < |r.taken| ==> 1 <= r.taken[i] <= b.mem.published)
    && match r.pc
       case Rest => true
       case Load(i) => i < ATTEMPTS && (0 < i ==> 1 <= r.first && r.first + 2 * i <= b.mem.published)
       case Check(i, p) => Attempt(b, r, i, p)
       case Size(i, p) => Attempt(b, r, i, p)
       case Copy(i, p, k) => Attempt(b, r, i, p) && k <= b.mem.frameBytes && Held(b, r, p, k)
       case Recheck(i, p) => Attempt(b, r, i, p) && Held(b, r, p, b.mem.frameBytes)
       case Took(p) =>
         && 1 <= r.first <= p <= b.mem.published
         && r.dst[..b.mem.frameBytes] == b.log[p - 1].pixels
         && r.taken != [] && r.taken[|r.taken| - 1] == p
       case Refused => |r.dst| < b.mem.frameBytes
       case Empty => r.first <= 0
       case GaveUp => 1 <= r.first && r.first + 2 * ATTEMPTS <= b.mem.published
  }

  /** A slot that carries an even number carries that frame, whole. */
  lemma SlotHolds(b: Broker, p: int)
    requires BrokerInv(b) && 1 <= p <= b.mem.published
    ensures 2 * p <= SlotOf(b.mem, p).sequence
    ensures SlotOf(b.mem, p).bytes == b.mem.frameBytes
    ensures SlotOf(b.mem, p).sequence == 2 * p ==> SlotOf(b.mem, p).data == b.log[p - 1].pixels
    ensures SlotOf(b.mem, p).sequence == 2 * p ==> b.mem.published <= p + 2
    ensures SlotOf(b.mem, p).sequence != 2 * p ==> p + 2 <= b.mem.published
  {
    var j := Index(p);
    assert SlotInv(b, j);
    LastOf(b.next, j);
  }

  /** Broker steps do not disturb what a reader knows. */
  lemma ReaderKept(a: Broker, b: Broker, r: Reader)
    requires BrokerInv(a) && BrokerInv(b) && Later(a, b) && ReaderInv(a, r)
    ensures ReaderInv(b, r)
  {
    match r.pc
    case Check(_, p) => assert a.mem.slots[Index(p)].sequence <= b.mem.slots[Index(p)].sequence;
    case Size(_, p) => assert a.mem.slots[Index(p)].sequence <= b.mem.slots[Index(p)].sequence;
    case Copy(_, p, k) => assert a.mem.slots[Index(p)].sequence <= b.mem.slots[Index(p)].sequence;
    case Recheck(_, p) => assert a.mem.slots[Index(p)].sequence <= b.mem.slots[Index(p)].sequence;
    case _ =>
  }

  lemma LoadInv(b: Broker, r: Reader)
    requires BrokerInv(b) && ReaderInv(b, r) && r.pc.Load?
    ensures ReaderInv(b, ReaderStep(b.mem, r))
  {
    if 0 < b.mem.published { SlotHolds(b, b.mem.published); }
  }

  /** The three tests: a failed one proves that two more frames have been announced. */
  lemma TestInv(b: Broker, r: Reader)
    requires BrokerInv(b) && ReaderInv(b, r) && (r.pc.Check? || r.pc.Size? || r.pc.Recheck?)
    ensures ReaderInv(b, ReaderStep(b.mem, r))
  {
    SlotHolds(b, r.pc.p);
    var want := b.log[r.pc.p - 1].pixels;
    assert want[..b.mem.frameBytes] == want;
  }

  lemma CopyInv(b: Broker, r: Reader)
    requires BrokerInv(b) && ReaderInv(b, r) && r.pc.Copy?
    ensures ReaderInv(b, ReaderStep(b.mem, r))
  {
    var k, p := r.pc.k, r.pc.p;
    SlotHolds(b, p);
    if k < b.mem.frameBytes {
      var dst, want := ReaderStep(b.mem, r).dst, b.log[p - 1].pixels;
      assert dst[..k + 1] == r.dst[..k] + [dst[k]];
      assert want[..k + 1] == want[..k] + [want[k]];
    }
  }

  lemma ReaderStepInv(b: Broker, r: Reader)
    requires BrokerInv(b) && ReaderInv(b, r)
    ensures ReaderInv(b, ReaderStep(b.mem, r))
  {
    if r.pc.Load? { LoadInv(b, r); } else if r.pc.Copy? { CopyInv(b, r); } else if Active(r) { TestInv(b, r); }
  }

  // ---------------------------------------------------------------- the whole system

  datatype System = System(broker: Broker, readers: map<nat, Reader>)

  datatype Event =
    | Write(w: WriterEvent)
    | Call(id: nat, buffer: seq<Byte>)
    | Read(id: nat)

  ghost predicate Inv(s: System) {
    && BrokerInv(s.broker)
    && forall id :: id in s.readers ==> ReaderInv(s.broker, s.readers[id])
  }

  function NewReader(): Reader { Reader(Rest, [], 0, []) }

  ghost function Move(s: System, e: Event): System
    requires Inv(s)
  {
    match e
    case Write(w) => s.(broker := WriterStep(s.broker, w))
    case Call(id, buffer) =>
      var r := if id in s.readers then s.readers[id] else NewReader();
      s.(readers := s.readers[id := CallStep(s.broker.mem, r, buffer)])
    case Read(id) =>
      if id in s.readers then s.(readers := s.readers[id := ReaderStep(s.broker.mem, s.readers[id])]) else s
  }

  lemma MoveInv(s: System, e: Event)
    requires Inv(s)
    ensures Inv(Move(s, e)) && Later(s.broker, Move(s, e).broker)
  {
    match e
    case Write(w) =>
      WriterStepInv(s.broker, w);
      forall id | id in s.readers ensures ReaderInv(Move(s, e).broker, s.readers[id]) {
        ReaderKept(s.broker, Move(s, e).broker, s.readers[id]);
      }
    case Call(_, _) =>
    case Read(id) => if id in s.readers { ReaderStepInv(s.broker, s.readers[id]); }
  }

  /** One event of the system; the invariant comes with it. */
  ghost function Step(s: System, e: Event): (t: System)
    requires Inv(s)
    ensures Inv(t) && Later(s.broker, t.broker)
  {
    MoveInv(s, e);
    Move(s, e)
  }

  ghost function Run(s: System, events: seq<Event>): (t: System)
    requires Inv(s)
    ensures Inv(t) && Later(s.broker, t.broker)
    decreases |events|
  {
    if events == [] then s else Run(Step(s, events[0]), events[1..])
  }

  ghost function Reached(frameBytes: nat, events: seq<Event>): System {
    NewBrokerInv(frameBytes);
    Run(System(NewBroker(frameBytes), map[]), events)
  }
}
