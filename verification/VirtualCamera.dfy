/**
 The camera process as the program has it: `SharedReader` copies frames out of the mapping while
 the broker goes on, and `CameraPin` hands samples to an application.  Between any two loads of
 the reader the broker makes as many steps as an arbitrary agenda says, so a contract here holds
 under every interference.
 */
module VirtualCamera {
  import opened Bytes
  import opened RingLayout
  import opened RingProtocol
  import opened RingReaders
  import Planes

  ghost predicate Clocked(events: seq<WriterEvent>) { forall i :: 0 <= i < |events| ==> events[i].Advance? ==> events[i].qpc != 0 }

  ghost predicate Ticking(agenda: seq<seq<WriterEvent>>) { forall i :: 0 <= i < |agenda| ==> Clocked(agenda[i]) }

  /** The mapping as a camera sees it: a header that no longer changes (see RingLifecycle), and the
      broker behind it, which moves only when the camera's process is not running. */
  class SharedRing {
    const header: Header
    var broker: Broker
    var agenda: seq<seq<WriterEvent>>

    ghost predicate Valid()
      reads this
    {
      BrokerInv(broker) && broker.mem.frameBytes == header.frameBytes
    }

    /** The broker has finished a call, and its clock never reads zero. */
    ghost predicate Warm()
      reads this
    {
      broker.mem.lastQpc != 0 && Ticking(agenda)
    }

    constructor (header: Header, agenda: seq<seq<WriterEvent>>)
      ensures Valid() && this.header == header && broker == NewBroker(header.frameBytes)
    {
      this.header := header;
      this.agenda := agenda;
      broker := NewBroker(header.frameBytes);
      NewBrokerInv(header.frameBytes);
    }

    /** The other process runs for a while. */
    method Elapse()
      requires Valid()
      modifies this`broker, this`agenda
      ensures Valid() && Later(old(broker), broker)
      ensures old(Warm()) ==> Warm()
      ensures agenda == if old(agenda) == [] then [] else old(agenda)[1..]
    {
      if agenda == [] { return; }
      var burst := agenda[0];
      agenda := agenda[1..];
      for i := 0 to |burst|
        invariant Valid() && Later(old(broker), broker)
        invariant old(Warm()) ==> Warm() && Clocked(burst)
        invariant agenda == old(agenda)[1..]
      {
        WriterStepInv(broker, burst[i]);
        broker := WriterStep(broker, burst[i]);
      }
    }

    /** The broker runs for a while, then the reader makes its next load. */
    method Turn(ghost r: Reader) returns (ghost s: Reader)
      requires Valid() && ReaderInv(broker, r)
      modifies this`broker, this`agenda
      ensures Valid() && Later(old(broker), broker) && |agenda| <= |old(agenda)|
      ensures ReaderInv(broker, r) && s == ReaderStep(broker.mem, r) && ReaderInv(broker, s)
    {
      ghost var before := broker;
      Elapse();
      ReaderKept(before, broker, r);
      ReaderStepInv(broker, r);
      s := ReaderStep(broker.mem, r);
    }
  }

  /** What is left of an agenda after n turns. */
  function Behind<T>(agenda: seq<T>, n: nat): seq<T> { if |agenda| <= n then [] else agenda[n..] }

  /** How one attempt of `copy_latest` ends. */
  datatype Outcome = Nothing | Again | Copied(p: int)

  class SharedReader {
    var mapping: SharedRing?
    var width: nat
    var height: nat
    var fps: nat
    var lastFrame: int

    ghost predicate Valid()
      reads this, mapping
    {
      mapping != null ==>
        && mapping.Valid() && Accepts(mapping.header)
        && width == mapping.header.width && height == mapping.header.height && fps == mapping.header.fps
    }

    constructor ()
      ensures Valid() && mapping == null && width == 1920 && height == 1080 && fps == 60
    {
      mapping := null;
      width, height, fps, lastFrame := 1920, 1080, 60, 0;
    }

    method Close()
      modifies this`mapping
      ensures mapping == null
    {
      mapping := null;
    }

    /** `named`: what the system finds under the ring's name and can map, or null. */
    method Open(named: SharedRing?) returns (ok: bool)
      requires Valid() && (named != null ==> named.Valid())
      modifies this`mapping, this`width, this`height, this`fps
      ensures Valid()
      ensures ok <==> old(mapping) != null || (named != null && Accepts(named.header))
      ensures mapping == if old(mapping) != null then old(mapping) else if ok then named else null
      ensures old(mapping) != null || !ok ==> width == old(width) && height == old(height) && fps == old(fps)
    {
      if mapping != null { return true; }
      if named == null { return false; }
      var h := named.header;
      AcceptsIff(h);
      if h.magic != MAGIC || h.version != VERSION || h.width < 160 || h.width > 3840
         || h.height < 120 || h.height > 2160 || h.width % 2 == 1 || h.height % 2 == 1
         || h.pitch != h.width || h.fps != 60 || h.frameBytes != h.width * h.height * 3 / 2
         || h.slotStride < h.frameBytes + SLOT_HEADER || h.slotStride > MAX_STRIDE {
        Close();
        return false;
      }
      mapping := named;
      width, height, fps := h.width, h.height, h.fps;
      ok := true;
    }

    method Latest() returns (published: int)
      requires Valid()
      modifies if mapping == null then {} else {mapping}
      ensures Valid()
      ensures mapping == null ==> published == 0
      ensures mapping != null ==> Later(old(mapping.broker), mapping.broker) && published == mapping.broker.mem.published
      ensures mapping != null && old(mapping.Warm()) ==> mapping.Warm()
      ensures mapping != null ==> mapping.agenda == if old(mapping.agenda) == [] then [] else old(mapping.agenda)[1..]
    {
      if mapping == null { return 0; }
      mapping.Elapse();
      published := mapping.broker.mem.published;
    }

    /** Copies the newest frame into `dst`.  Where it succeeds, `dst` holds one accepted picture,
        not older than the newest one at the call; it fails only for the three reasons named. */
    method CopyLatest(dst: array<Byte>, capacity: nat) returns (ok: bool, seqOut: int)
      requires Valid() && capacity <= dst.Length
      modifies this`lastFrame, dst, if mapping == null then {} else {mapping}
      ensures Valid() && mapping == old(mapping)
      ensures mapping != null ==> Later(old(mapping.broker), mapping.broker) && |mapping.agenda| <= |old(mapping.agenda)|
      ensures ok ==>
        && mapping != null && mapping.header.frameBytes <= capacity
        && 1 <= seqOut <= mapping.broker.mem.published <= |mapping.broker.log|
        && old(mapping.broker.mem.published) <= seqOut
        && dst[..mapping.header.frameBytes] == mapping.broker.log[seqOut - 1].pixels
        && lastFrame == seqOut
      ensures !ok && mapping != null && mapping.header.frameBytes <= capacity && 0 < old(mapping.broker.mem.published) ==>
        old(mapping.broker.mem.published) + 6 <= mapping.broker.mem.published
      ensures forall i :: capacity <= i < dst.Length ==> dst[i] == old(dst[i])
    {
      ok, seqOut := false, 0;
      if mapping == null || capacity < mapping.header.frameBytes { return; }
      ghost var r := CallStep(mapping.broker.mem, NewReader(), dst[..capacity]);
      var i := 0;
      while i < ATTEMPTS
        invariant 0 <= i <= ATTEMPTS && mapping.Valid() && Later(old(mapping.broker), mapping.broker)
        invariant |mapping.agenda| <= |old(mapping.agenda)|
        invariant ReaderInv(mapping.broker, r) && r.dst == dst[..capacity]
        invariant r.pc == if i < ATTEMPTS then Load(i) else GaveUp
        invariant 0 < i ==> old(mapping.broker.mem.published) <= r.first
        invariant forall j :: capacity <= j < dst.Length ==> dst[j] == old(dst[j])
      {
        var outcome;
        outcome, r := Attempt(mapping, dst, capacity, i, r);
        match outcome {
          case Nothing => return;
          case Again => i := i + 1;
          case Copied(p) =>
            lastFrame := p;
            assert dst[..mapping.header.frameBytes] == r.dst[..mapping.header.frameBytes];
            return true, p;
        }
      }
    }

    /** One turn of the loop of `copy_latest`. */
    method Attempt(m: SharedRing, dst: array<Byte>, capacity: nat, ghost i: nat, ghost r: Reader)
      returns (outcome: Outcome, ghost s: Reader)
      requires m.Valid() && capacity <= dst.Length && ReaderInv(m.broker, r) && r.dst == dst[..capacity]
      requires r.pc == Load(i) && m.header.frameBytes <= capacity
      modifies m`broker, m`agenda, dst
      ensures m.Valid() && Later(old(m.broker), m.broker) && |m.agenda| <= |old(m.agenda)|
      ensures ReaderInv(m.broker, s) && s.dst == dst[..capacity]
      ensures s.pc == (match outcome case Nothing => Empty case Copied(p) => Took(p) case Again => Retry(i))
      ensures if i == 0 then old(m.broker.mem.published) <= s.first else s.first == r.first
      ensures forall j :: capacity <= j < dst.Length ==> dst[j] == old(dst[j])
    {
      s := m.Turn(r);
      var published := m.broker.mem.published;
      if published <= 0 { return Nothing, s; }
      outcome, s := Examine(m, dst, capacity, published, s);
    }

    /** The attempt from the loaded counter on. */
    method Examine(m: SharedRing, dst: array<Byte>, capacity: nat, published: int, ghost r: Reader)
      returns (outcome: Outcome, ghost s: Reader)
      requires m.Valid() && capacity <= dst.Length && ReaderInv(m.broker, r) && r.dst == dst[..capacity]
      requires r.pc.Check? && r.pc.p == published && m.header.frameBytes <= capacity
      modifies m`broker, m`agenda, dst
      ensures m.Valid() && Later(old(m.broker), m.broker) && |m.agenda| <= |old(m.agenda)|
      ensures ReaderInv(m.broker, s) && s.dst == dst[..capacity] && s.first == r.first
      ensures outcome == Again || outcome == Copied(published)
      ensures s.pc == if outcome == Again then Retry(r.pc.i) else Took(published)
      ensures forall j :: capacity <= j < dst.Length ==> dst[j] == old(dst[j])
    {
      var index := (published - 1) % RING_SLOTS;
      s := m.Turn(r);
      if m.broker.mem.slots[index].sequence != published * 2 { return Again, s; }
      outcome, s := Take(m, dst, capacity, published, index, s);
    }

    /** The rest of an attempt, once the slot shows the expected number. */
    method Take(m: SharedRing, dst: array<Byte>, capacity: nat, published: int, index: nat, ghost r: Reader)
      returns (outcome: Outcome, ghost s: Reader)
      requires m.Valid() && capacity <= dst.Length && ReaderInv(m.broker, r) && r.dst == dst[..capacity]
      requires r.pc.Size? && r.pc.p == published && index == Index(published) && m.header.frameBytes <= capacity
      modifies m`broker, m`agenda, dst
      ensures m.Valid() && Later(old(m.broker), m.broker) && |m.agenda| <= |old(m.agenda)|
      ensures ReaderInv(m.broker, s) && s.dst == dst[..capacity] && s.first == r.first
      ensures outcome == Again || outcome == Copied(published)
      ensures s.pc == if outcome == Again then Retry(r.pc.i) else Took(published)
      ensures forall j :: capacity <= j < dst.Length ==> dst[j] == old(dst[j])
    {
      s := m.Turn(r);
      if m.broker.mem.slots[index].bytes != m.header.frameBytes { return Again, s; }
      s := CopySlot(m, index, dst, capacity, s);
      s := m.Turn(s);
      outcome := if m.broker.mem.slots[index].sequence == published * 2 then Copied(published) else Again;
    }

    /** The copy out of the slot, with the broker running between any two bytes. */
    method CopySlot(m: SharedRing, index: nat, dst: array<Byte>, capacity: nat, ghost r: Reader) returns (ghost s: Reader)
      requires m.Valid() && capacity <= dst.Length && ReaderInv(m.broker, r) && r.dst == dst[..capacity]
      requires r.pc.Copy? && r.pc.k == 0 && index == Index(r.pc.p)
      modifies m`broker, m`agenda, dst
      ensures m.Valid() && Later(old(m.broker), m.broker) && |m.agenda| <= |old(m.agenda)|
      ensures ReaderInv(m.broker, s) && s == r.(dst := dst[..capacity], pc := Recheck(r.pc.i, r.pc.p))
      ensures forall j :: capacity <= j < dst.Length ==> dst[j] == old(dst[j])
    {
      s := r;
      var k := 0;
      while k < m.header.frameBytes
        invariant 0 <= k <= m.header.frameBytes && m.Valid() && Later(old(m.broker), m.broker) && ReaderInv(m.broker, s)
        invariant |m.agenda| <= |old(m.agenda)|
        invariant s == r.(dst := dst[..capacity], pc := Copy(r.pc.i, r.pc.p, k))
        invariant forall j :: capacity <= j < dst.Length ==> dst[j] == old(dst[j])
      {
        s := m.Turn(s);
        dst[k] := m.broker.mem.slots[index].data[k];
        assert s.dst == dst[..capacity];
        k := k + 1;
      }
      ReaderStepInv(m.broker, s);
      s := ReaderStep(m.broker.mem, s);
    }
  }

  // ---------------------------------------------------------------- samples for an application

  /** The picture shown when there is no frame: luma 16, chroma 128, in `size` bytes. */
  function BlackNv12(luma: nat, size: nat): seq<Byte> { seq(size, i => if i < luma then 16 else 128) }

  /** As YUY2, in whole groups of two pixels. */
  function BlackYuy2(size: nat): (r: seq<Byte>)
    ensures |r| <= size
  {
    if size < 4 then [] else BlackYuy2(size - 4) + [16, 128, 16, 128]
  }

  /** Sizes that are made of such groups. */
  predicate Whole(size: nat) { |BlackYuy2(size)| == size }

  lemma {:induction false} NextWhole(i: nat, size: nat)
    requires Whole(i) && Whole(size) && i < size
    ensures i + 4 <= size && Whole(i + 4)
    decreases size
  {
    assert 4 <= size;
    if 4 <= i { NextWhole(i - 4, size - 4); }
  }

  lemma {:induction false} WholeEven(size: nat)
    requires Whole(size)
    ensures size % 2 == 0
    decreases size
  {
    if 4 <= size { WholeEven(size - 4); }
  }

  /** Every pixel is black: luma 16, chroma 128. */
  lemma {:induction false} BlackAt(size: nat, i: nat)
    requires Whole(size) && i < size
    ensures BlackYuy2(size)[i] == if i % 2 == 0 then 16 else 128
    decreases size
  {
    NextWhole(0, size);
    if i < size - 4 {
      BlackAt(size - 4, i);
    } else {
      WholeEven(size - 4);
      var k := i - (size - 4);
      assert BlackYuy2(size)[i] == [16, 128, 16, 128][k];
      assert i % 2 == k % 2;
    }
  }

  lemma {:induction false} GroupsWhole(groups: nat)
    ensures Whole(4 * groups)
  {
    if groups != 0 { GroupsWhole(groups - 1); }
  }

  /** n black pixels of YUY2. */
  function BlackPixels(n: nat): (r: seq<Byte>)
    ensures |r| == 2 * n
  {
    if n == 0 then [] else BlackPixels(n - 1) + [16, 128]
  }

  lemma {:induction false} PixelsJoined(m: nat, n: nat)
    ensures BlackPixels(m) + BlackPixels(n) == BlackPixels(m + n)
  {
    if n == 0 {
      assert BlackPixels(m) + [] == BlackPixels(m);
    } else {
      PixelsJoined(m, n - 1);
      assert BlackPixels(m) + (BlackPixels(n - 1) + [16, 128]) == BlackPixels(m) + BlackPixels(n - 1) + [16, 128];
    }
  }

  ghost predicate All(s: seq<Byte>, x: Byte) { forall i :: 0 <= i < |s| ==> s[i] == x }

  lemma {:induction false} BlackRow(luma: seq<Byte>, chroma: seq<Byte>)
    requires |luma| == |chroma| && All(luma, 16) && All(chroma, 128)
    ensures Planes.YuyRow(luma, chroma) == BlackPixels(|luma|)
    decreases |luma|
  {
    if luma != [] { BlackRow(luma[..|luma| - 1], chroma[..|luma| - 1]); }
  }

  lemma {:induction false} BlackRows(luma: seq<Byte>, chroma: seq<Byte>, width: nat, rows: nat)
    requires Planes.Covers(|luma|, |chroma|, width, rows) && All(luma, 16) && All(chroma, 128)
    ensures Planes.Yuy2(luma, chroma, width, rows) == BlackPixels(Planes.Span(rows, width))
  {
    if rows != 0 {
      var y := rows - 1;
      Planes.CoversRow(|luma|, |chroma|, width, rows, y);
      BlackRows(luma, chroma, width, y);
      BlackRow(Planes.Row(luma, width, width, y), Planes.Row(chroma, width, width, Planes.Half(y)));
      PixelsJoined(Planes.Span(y, width), width);
    }
  }

  lemma {:induction false} BlackGroups(groups: nat)
    ensures BlackYuy2(4 * groups) == BlackPixels(2 * groups)
  {
    if groups != 0 {
      BlackGroups(groups - 1);
      assert BlackPixels(2 * groups) == BlackPixels(2 * groups - 2) + [16, 128] + [16, 128];
    }
  }

  lemma BlackPicture(nv12: seq<Byte>, width: nat, height: nat)
    requires Planes.IsNv12(|nv12|, width, height)
    requires forall i :: 0 <= i < |nv12| ==> nv12[i] == if i < Planes.Span(height, width) then 16 else 128
    ensures Planes.Converted(nv12, width, height) == BlackPixels(Planes.Span(height, width))
  {
    var n := Planes.Span(height, width);
    Planes.Nv12Covers(|nv12|, width, height);
    BlackPlanes(nv12, n);
    BlackRows(nv12[..n], nv12[n..], width, height);
  }

  lemma BlackPlanes(nv12: seq<Byte>, n: nat)
    requires n <= |nv12| && forall i :: 0 <= i < |nv12| ==> nv12[i] == if i < n then 16 else 128
    ensures All(nv12[..n], 16) && All(nv12[n..], 128)
  {}

  /** The two black pictures are one picture: converting the first gives the second. */
  lemma BlackConverted(width: nat, height: nat)
    requires height % 2 == 0
    ensures var nv12 := BlackNv12(width * height, width * height * 3 / 2);
            && Planes.IsNv12(|nv12|, width, height)
            && Planes.Converted(nv12, width, height) == BlackYuy2(width * height * 2)
  {
    var groups := Planes.Span(Planes.Half(height), width);
    Planes.Nv12Size(width, height);
    Planes.Yuy2Groups(width, height);
    BlackPicture(BlackNv12(width * height, width * height * 3 / 2), width, height);
    assert width * height == 2 * groups;
    BlackGroups(groups);
  }

  method FillNv12(dst: array<Byte>, luma: nat, size: nat)
    requires luma <= size <= dst.Length
    modifies dst
    ensures dst[..size] == BlackNv12(luma, size)
    ensures forall i :: size <= i < dst.Length ==> dst[i] == old(dst[i])
  {
    forall i | 0 <= i < luma { dst[i] := 16; }
    forall i | luma <= i < size { dst[i] := 128; }
  }

  /** The first `i` bytes are black. */
  ghost predicate BlackTo(was: seq<Byte>, out: seq<Byte>, i: nat) {
    i <= |was| && Whole(i) && out == Planes.Placed(was, 0, BlackYuy2(i))
  }

  method FillGroup(dst: array<Byte>, i: nat, ghost was: seq<Byte>)
    requires i + 4 <= dst.Length == |was| && BlackTo(was, dst[..], i)
    modifies dst
    ensures BlackTo(was, dst[..], i + 4)
  {
    Planes.PlacedMore(was, 0, BlackYuy2(i), [16, 128, 16, 128]);
    Planes.StoreQuad(dst, i, 16, 128, 16, 128);
  }

  method FillYuy2(dst: array<Byte>, size: nat)
    requires Whole(size) && size <= dst.Length
    modifies dst
    ensures BlackTo(old(dst[..]), dst[..], size)
  {
    ghost var was := dst[..];
    Planes.NothingPlaced(was, 0);
    var i := 0;
    while i < size
      invariant 0 <= i <= size && BlackTo(was, dst[..], i)
    {
      NextWhole(i, size);
      FillGroup(dst, i, was);
      i := i + 4;
    }
  }

  lemma FrontPlaced(was: seq<Byte>, now: seq<Byte>, sample: seq<Byte>)
    requires |sample| <= |was| && now == Planes.Placed(was, 0, sample)
    ensures now[..|sample|] == sample && |now| == |was| && forall i :: |sample| <= i < |now| ==> now[i] == was[i]
  {}

  function OutSize(width: nat, height: nat, yuy2: bool): nat {
    if yuy2 then width * height * 2 else width * height * 3 / 2
  }

  /** A whole sample: the black picture, or one accepted picture in the format asked for. */
  ghost predicate Shows(sample: seq<Byte>, width: nat, height: nat, yuy2: bool, copied: int, log: seq<Shot>) {
    if copied == 0 then
      sample == if yuy2 then BlackYuy2(width * height * 2) else BlackNv12(width * height, width * height * 3 / 2)
    else
      && 1 <= copied <= |log|
      && var pixels := log[copied - 1].pixels;
      && Planes.IsNv12(|pixels|, width, height)
      && sample == if yuy2 then Planes.Converted(pixels, width, height) else pixels
  }

  class CameraPin {
    const reader: SharedReader
    const scratch: array<Byte>
    var width: nat
    var height: nat
    var frameTime: int
    var sampleTime: int
    var lastSeen: int
    var yuy2: bool
    ghost var delivered: nat

    ghost predicate Valid()
      reads this, reader, reader.mapping
    {
      && reader.Valid()
      && 160 <= width <= 3840 && width % 2 == 0 && 120 <= height <= 2160 && height % 2 == 0
      && scratch.Length == width * height * 3 / 2
      && sampleTime == delivered * frameTime
      && (if reader.mapping == null then lastSeen == 0 else 0 <= lastSeen <= reader.mapping.broker.mem.published)
    }

    /** The mapping a sample is taken from: the one the reader has, or the one it can open. */
    function Chosen(named: SharedRing?): SharedRing?
      reads reader
    {
      if reader.mapping != null then reader.mapping
      else if named != null && Accepts(named.header) then named
      else null
    }

    /** The pin as a streaming thread finds it: the constructor's reader, the negotiated format,
        and what `OnThreadCreate` sets. */
    constructor (named: SharedRing?, yuy2: bool)
      requires named != null ==> named.Valid()
      ensures Valid() && fresh(reader) && fresh(scratch) && delivered == 0 && sampleTime == 0 && lastSeen == 0
      ensures this.yuy2 == yuy2 && frameTime == 166667
      ensures if named != null && Accepts(named.header)
              then reader.mapping == named && width == named.header.width && height == named.header.height
              else reader.mapping == null && width == 1920 && height == 1080
    {
      var r := new SharedReader();
      var ok := r.Open(named);
      if ok {
        AcceptsIff(r.mapping.header);
      }
      width, height := r.width, r.height;
      frameTime := (10000000 + r.fps / 2) / r.fps;
      sampleTime, lastSeen, delivered := 0, 0, 0;
      this.yuy2 := yuy2;
      reader := r;
      scratch := new Byte[r.width * r.height * 3 / 2](_ => 0);
    }

    /** Looks for a frame the application has not had yet, and up to 35 times more: no more often than
        it takes, and fewer times only if there is one. */
    method WaitForFrame() returns (waits: nat)
      requires Valid()
      modifies if reader.mapping == null then {} else {reader.mapping}
      ensures Valid() && reader.mapping == old(reader.mapping) && waits <= 35
      ensures reader.mapping == null ==> waits == 35
      ensures reader.mapping != null ==>
        && Later(old(reader.mapping.broker), reader.mapping.broker)
        && reader.mapping.agenda == Behind(old(reader.mapping.agenda), waits + 1)
        && (waits < 35 ==> lastSeen < reader.mapping.broker.mem.published)
        && (0 < waits ==> lastSeen == old(reader.mapping.broker.mem.published))
      ensures reader.mapping != null && old(reader.mapping.Warm()) ==> reader.mapping.Warm()
    {
      var seen := reader.Latest();
      waits := 0;
      while waits < 35 && seen == lastSeen
        invariant Valid() && reader.mapping == old(reader.mapping) && waits <= 35
        invariant reader.mapping == null ==> seen == 0
        invariant reader.mapping != null ==>
          && Later(old(reader.mapping.broker), reader.mapping.broker) && seen == reader.mapping.broker.mem.published
          && reader.mapping.agenda == Behind(old(reader.mapping.agenda), waits + 1)
          && (0 < waits ==> lastSeen == old(reader.mapping.broker.mem.published))
        invariant reader.mapping != null && old(reader.mapping.Warm()) ==> reader.mapping.Warm()
      {
        seen := reader.Latest();
        waits := waits + 1;
      }
    }

    /** The frame, in the format asked for, or nothing; nothing only if six more frames came. */
    method TryFrame(dst: array<Byte>) returns (got: bool, copied: int)
      requires Valid() && reader.mapping != null && dst != scratch
      requires reader.width == width && reader.height == height && OutSize(width, height, yuy2) <= dst.Length
      modifies reader`lastFrame, scratch, dst, reader.mapping
      ensures Valid() && reader.mapping == old(reader.mapping) && Later(old(reader.mapping.broker), reader.mapping.broker)
      ensures |reader.mapping.agenda| <= |old(reader.mapping.agenda)|
      ensures got ==>
        && 1 <= copied && old(reader.mapping.broker.mem.published) <= copied <= reader.mapping.broker.mem.published
        && Shows(dst[..OutSize(width, height, yuy2)], width, height, yuy2, copied, reader.mapping.broker.log)
      ensures !got && 0 < old(reader.mapping.broker.mem.published) ==>
        old(reader.mapping.broker.mem.published) + 6 <= reader.mapping.broker.mem.published
      ensures forall i :: OutSize(width, height, yuy2) <= i < dst.Length ==> dst[i] == old(dst[i])
    {
      Planes.Nv12Size(width, height);
      AcceptsIff(reader.mapping.header);
      if yuy2 {
        got, copied := reader.CopyLatest(scratch, scratch.Length);
        if got {
          assert scratch[..] == scratch[..scratch.Length];
          ghost var was := dst[..];
          Planes.EvenIs(width);
          Planes.Nv12ToYuy2(scratch, dst, width, height);
          FrontPlaced(was, dst[..], Planes.Converted(scratch[..], width, height));
        }
      } else {
        got, copied := reader.CopyLatest(dst, width * height * 3 / 2);
      }
    }

    /** Every byte of the sample is black: luma 16, chroma 128. */
    ghost predicate IsBlack(dst: seq<Byte>)
      reads this
      requires OutSize(width, height, yuy2) <= |dst|
    {
      if yuy2 then forall i :: 0 <= i < width * height * 2 ==> dst[i] == if i % 2 == 0 then 16 else 128
      else forall i :: 0 <= i < width * height * 3 / 2 ==> dst[i] == if i < width * height then 16 else 128
    }

    method FillBlack(dst: array<Byte>)
      requires Valid() && OutSize(width, height, yuy2) <= dst.Length
      modifies dst
      ensures Shows(dst[..OutSize(width, height, yuy2)], width, height, yuy2, 0, [])
      ensures IsBlack(dst[..])
      ensures forall i :: OutSize(width, height, yuy2) <= i < dst.Length ==> dst[i] == old(dst[i])
    {
      if !yuy2 {
        FillNv12(dst, width * height, width * height * 3 / 2);
      } else {
        Planes.Yuy2Groups(width, height);
        ghost var was := dst[..];
        GroupsWhole(Planes.Span(Planes.Half(height), width));
        FillYuy2(dst, width * height * 2);
        FrontPlaced(was, dst[..], BlackYuy2(width * height * 2));
        forall i | 0 <= i < width * height * 2 ensures dst[..width * height * 2][i] == if i % 2 == 0 then 16 else 128 {
          BlackAt(width * height * 2, i);
        }
      }
    }

    /** Why a sample is black: no ring, a stale or a different one, or one that was still empty or
        overtook the copy by six frames. */
    ghost predicate Excused(before: Broker, warm: bool, isFresh: bool, m: SharedRing)
      reads this, reader, m
    {
      !isFresh || !warm || reader.width != width || reader.height != height
      || before.mem.published <= 0 || before.mem.published + 6 <= m.broker.mem.published
    }

    /** A frame, if the ring has one for this format and it is not stale, or black. */
    method FrameOrBlack(dst: array<Byte>, isFresh: bool) returns (copied: int)
      requires Valid() && dst != scratch && OutSize(width, height, yuy2) <= dst.Length
      modifies reader`lastFrame, scratch, dst, if reader.mapping == null then {} else {reader.mapping}
      ensures Valid() && reader.mapping == old(reader.mapping)
      ensures Shows(dst[..OutSize(width, height, yuy2)], width, height, yuy2, copied,
                    if reader.mapping == null then [] else reader.mapping.broker.log)
      ensures copied == 0 ==> IsBlack(dst[..])
      ensures copied != 0 ==>
        reader.mapping != null && isFresh && old(reader.mapping.broker.mem.published) <= copied <= reader.mapping.broker.mem.published
      ensures reader.mapping != null ==>
        && Later(old(reader.mapping.broker), reader.mapping.broker)
        && |reader.mapping.agenda| <= |old(reader.mapping.agenda)|
        && (copied == 0 ==> Excused(old(reader.mapping.broker), old(reader.mapping.Warm()), isFresh, reader.mapping))
      ensures forall i :: OutSize(width, height, yuy2) <= i < dst.Length ==> dst[i] == old(dst[i])
    {
      var got := false;
      copied := 0;
      if reader.mapping != null && reader.mapping.broker.mem.lastQpc != 0 && isFresh
         && reader.width == width && reader.height == height {
        got, copied := TryFrame(dst);
      }
      if !got {
        copied := 0;
        FillBlack(dst);
      }
    }

    /** The part of a sample after the reader had its chance to open the ring. */
    method TakeSample(dst: array<Byte>, isFresh: bool) returns (copied: int)
      requires Valid() && dst != scratch && OutSize(width, height, yuy2) <= dst.Length
      modifies this`lastSeen, reader`lastFrame, scratch, dst, if reader.mapping == null then {} else {reader.mapping}
      ensures Valid() && reader.mapping == old(reader.mapping)
      ensures Shows(dst[..OutSize(width, height, yuy2)], width, height, yuy2, copied,
                    if reader.mapping == null then [] else reader.mapping.broker.log)
      ensures lastSeen == if copied != 0 then copied else old(lastSeen)
      ensures copied == 0 ==> IsBlack(dst[..])
      ensures copied != 0 ==>
        reader.mapping != null && isFresh && old(lastSeen) <= copied && old(reader.mapping.broker.mem.published) <= copied
      ensures copied == 0 && reader.mapping != null ==>
        Excused(old(reader.mapping.broker), old(reader.mapping.Warm()), isFresh, reader.mapping)
      ensures copied == old(lastSeen) != 0 ==>
        reader.mapping.agenda == [] || |reader.mapping.agenda| + 36 <= |old(reader.mapping.agenda)|
      ensures forall i :: OutSize(width, height, yuy2) <= i < dst.Length ==> dst[i] == old(dst[i])
    {
      var _ := WaitForFrame();
      copied := FrameOrBlack(dst, isFresh);
      if copied != 0 { lastSeen := copied; }
    }

    /** One interval follows the other. */
    method NextInterval() returns (start: int, end: int)
      requires sampleTime == delivered * frameTime
      modifies this`sampleTime, this`delivered
      ensures delivered == old(delivered) + 1 && sampleTime == delivered * frameTime
      ensures start == old(delivered) * frameTime && end == (old(delivered) + 1) * frameTime
    {
      start, end := sampleTime, sampleTime + frameTime;
      sampleTime := end;
      delivered := delivered + 1;
      assert (old(delivered) + 1) * frameTime == old(delivered) * frameTime + frameTime;
    }

    /** One sample.  `dst` is null when the sample has no buffer; `named` is what the ring's name
        stands for now; `isFresh` is the clock's verdict on the last publish time.  `copied` tells
        which frame the sample shows, 0 for black.  Frames never go back, are not older than the
        newest one at the call, and black comes for the named reasons only. */
    method FillBuffer(dst: array?<Byte>, named: SharedRing?, isFresh: bool)
      returns (ok: bool, start: int, end: int, copied: int)
      requires Valid() && dst != scratch && (named != null ==> named.Valid())
      modifies this, reader, scratch, if dst == null then {} else {dst},
        if reader.mapping == null then {} else {reader.mapping}, if named == null then {} else {named}
      ensures Valid()
      ensures ok <==> dst != null && OutSize(width, height, yuy2) <= dst.Length
      ensures width == old(width) && height == old(height) && yuy2 == old(yuy2) && frameTime == old(frameTime)
      ensures !ok ==> delivered == old(delivered) && (dst != null ==> dst[..] == old(dst[..]))
      ensures reader.mapping == if ok then old(Chosen(named)) else old(reader.mapping)
      ensures ok ==>
        && delivered == old(delivered) + 1
        && start == old(delivered) * frameTime && end == (old(delivered) + 1) * frameTime
        && 0 <= copied
      ensures lastSeen == if ok && copied != 0 then copied else old(lastSeen)
      ensures ok && copied != 0 ==>
        var m := old(Chosen(named));
        && m != null && isFresh && old(lastSeen) <= copied && old(m.broker.mem.published) <= copied <= |m.broker.log|
        && var pixels := m.broker.log[copied - 1].pixels;
           && Planes.IsNv12(|pixels|, width, height)
           && (if yuy2 then dst[..width * height * 2] == Planes.Converted(pixels, width, height)
               else dst[..width * height * 3 / 2] == pixels)
      ensures ok && copied == 0 ==>
        var m := old(Chosen(named));
        m != null ==>
          !isFresh || !old(m.Warm()) || m.header.width != width || m.header.height != height
          || old(m.broker.mem.published) <= 0 || old(m.broker.mem.published) + 6 <= m.broker.mem.published
      ensures ok && copied == old(lastSeen) != 0 ==>
        var m := old(Chosen(named));
        m != null && (m.agenda == [] || |m.agenda| + 36 <= |old(m.agenda)|)
      ensures ok && copied == 0 && !yuy2 ==>
        forall i :: 0 <= i < width * height * 3 / 2 ==> dst[i] == if i < width * height then 16 else 128
      ensures ok && copied == 0 && yuy2 ==> forall i :: 0 <= i < width * height * 2 ==> dst[i] == if i % 2 == 0 then 16 else 128
      ensures ok ==> forall i :: OutSize(width, height, yuy2) <= i < dst.Length ==> dst[i] == old(dst[i])
    {
      ok, start, end, copied := false, 0, 0, 0;
      if dst == null || dst.Length < OutSize(width, height, yuy2) { return; }
      var _ := reader.Open(named);
      copied := TakeSample(dst, isFresh);
      start, end := NextInterval();
      ok := true;
    }
  }
}
