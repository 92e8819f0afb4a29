/** What the frame ring promises, over every run of one broker and any number of readers. */
module RingTheorems {
  import opened RingLayout
  import opened RingProtocol
  import opened RingReaders

  /** A call that returned true with sequence `p` has filled the destination with exactly the
      p-th picture ever accepted by `publish`, never a mix of two. */
  lemma NoTornFrame(frameBytes: nat, events: seq<Event>, id: nat)
    requires id in Reached(frameBytes, events).readers
    requires Reached(frameBytes, events).readers[id].pc.Took?
    ensures var s := Reached(frameBytes, events);
            var r := s.readers[id];
            && 1 <= r.pc.p <= s.broker.mem.published <= |s.broker.log|
            && s.broker.mem.frameBytes == frameBytes <= |r.dst|
            && r.dst[..frameBytes] == s.broker.log[r.pc.p - 1].pixels
  {
    var s := Reached(frameBytes, events);
    assert ReaderInv(s.broker, s.readers[id]);
  }

  /** The sequence numbers one reader gets from one mapping never go back. */
  lemma NeverBackwards(frameBytes: nat, events: seq<Event>, id: nat, i: nat, j: nat)
    requires id in Reached(frameBytes, events).readers
    requires i < j < |Reached(frameBytes, events).readers[id].taken|
    ensures var r := Reached(frameBytes, events).readers[id]; 1 <= r.taken[i] <= r.taken[j]
  {
    var s := Reached(frameBytes, events);
    assert ReaderInv(s.broker, s.readers[id]);
  }

  /** When the second sequence check for `p` succeeds, at most two newer frames are out; it can
      fail only if at least two are. */
  lemma BoundedStaleness(frameBytes: nat, events: seq<Event>, id: nat)
    requires id in Reached(frameBytes, events).readers
    requires Reached(frameBytes, events).readers[id].pc.Recheck?
    ensures var s := Reached(frameBytes, events);
            var p := s.readers[id].pc.p;
            var published := s.broker.mem.published;
            if Step(s, Read(id)).readers[id].pc == Took(p) then p <= published <= p + 2 else p + 2 <= published
  {
    var s := Reached(frameBytes, events);
    assert ReaderInv(s.broker, s.readers[id]);
    SlotHolds(s.broker, s.readers[id].pc.p);
  }

  predicate Failed(r: Reader) { r.pc.Refused? || r.pc.Empty? || r.pc.GaveUp? }

  /** Reader `id` is in the call whose first load found `first`. */
  ghost predicate InCall(s: System, id: nat, first: int) {
    id in s.readers && s.readers[id].first == first && (s.readers[id].pc.Load? ==> 0 < s.readers[id].pc.i)
  }

  lemma StepInCall(s: System, e: Event, id: nat, first: int)
    requires Inv(s) && InCall(s, id, first) && !(e.Call? && e.id == id)
    ensures InCall(Step(s, e), id, first) && |Step(s, e).readers[id].dst| == |s.readers[id].dst|
  {}

  /** The running call keeps its first loaded counter and its buffer size. */
  lemma {:induction false} SameCall(s: System, events: seq<Event>, id: nat, first: int)
    requires Inv(s) && InCall(s, id, first)
    requires forall e :: e in events ==> !(e.Call? && e.id == id)
    ensures InCall(Run(s, events), id, first) && |Run(s, events).readers[id].dst| == |s.readers[id].dst|
    decreases |events|
  {
    if events != [] {
      assert events[0] in events;
      StepInCall(s, events[0], id, first);
      SameCall(Step(s, events[0]), events[1..], id, first);
    }
  }

  /** A call whose first load finds a published frame, into a buffer that is large enough,
      fails only if six further frames were announced before it returned. */
  lemma FailureNeedsSixFrames(frameBytes: nat, before: seq<Event>, id: nat, during: seq<Event>)
    requires var s := Reached(frameBytes, before);
             id in s.readers && s.readers[id].pc == Load(0) && 0 < s.broker.mem.published
    requires forall e :: e in during ==> !(e.Call? && e.id == id)
    ensures var s := Reached(frameBytes, before);
            var t := Run(s, [Read(id)] + during);
            && id in t.readers
            && (Failed(t.readers[id]) ==> s.broker.mem.published + 6 <= t.broker.mem.published)
  {
    var s := Reached(frameBytes, before);
    var u := Step(s, Read(id));
    assert ([Read(id)] + during)[1..] == during;
    FirstLoad(s, id);
    SameCall(u, during, id, s.broker.mem.published);
    FailedLate(Run(u, during), id, s.broker.mem.published);
  }

  lemma FirstLoad(s: System, id: nat)
    requires Inv(s) && id in s.readers && s.readers[id].pc == Load(0) && 0 < s.broker.mem.published
    ensures InCall(Step(s, Read(id)), id, s.broker.mem.published)
    ensures |Step(s, Read(id)).readers[id].dst| == |s.readers[id].dst| >= s.broker.mem.frameBytes
  {
    assert ReaderInv(s.broker, s.readers[id]);
  }

  lemma FailedLate(t: System, id: nat, first: int)
    requires Inv(t) && InCall(t, id, first) && 0 < first && t.broker.mem.frameBytes <= |t.readers[id].dst|
    ensures Failed(t.readers[id]) ==> first + 6 <= t.broker.mem.published
  {
    assert ReaderInv(t.broker, t.readers[id]);
  }

  // ------------------------------------------------------- the call does succeed when left alone

  function Reads(id: nat, n: nat): seq<Event> { seq(n, _ => Read(id)) }

  lemma RunRead(s: System, id: nat, n: nat)
    requires Inv(s)
    ensures Run(s, Reads(id, n + 1)) == Run(Step(s, Read(id)), Reads(id, n))
  {
    assert Reads(id, n + 1)[1..] == Reads(id, n);
  }

  lemma RecheckStep(s: System, id: nat)
    requires Inv(s) && id in s.readers && s.readers[id].pc.Recheck?
    requires var p := s.readers[id].pc.p; SlotOf(s.broker.mem, p).sequence == 2 * p
    ensures var t := Step(s, Read(id));
            t.broker == s.broker && id in t.readers && t.readers[id].pc == Took(s.readers[id].pc.p)
  {}

  lemma RecheckAlone(s: System, id: nat)
    requires Inv(s) && id in s.readers && s.readers[id].pc.Recheck?
    requires var p := s.readers[id].pc.p; SlotOf(s.broker.mem, p).sequence == 2 * p
    ensures var t := Run(s, Reads(id, 1));
            t.broker == s.broker && id in t.readers && t.readers[id].pc == Took(s.readers[id].pc.p)
  {
    RecheckStep(s, id);
    RunRead(s, id, 0);
    NoReads(Step(s, Read(id)), id);
  }

  lemma NoReads(s: System, id: nat)
    requires Inv(s)
    ensures Run(s, Reads(id, 0)) == s
  {
    assert Reads(id, 0) == [];
  }

  lemma CopyStep(s: System, id: nat)
    requires Inv(s) && id in s.readers && s.readers[id].pc.Copy?
    ensures var r, t := s.readers[id], Step(s, Read(id));
            && t.broker == s.broker && id in t.readers
            && t.readers[id].pc == (if r.pc.k < s.broker.mem.frameBytes then Copy(r.pc.i, r.pc.p, r.pc.k + 1)
                                    else Recheck(r.pc.i, r.pc.p))
  {}

  /** n loads: the rest of the picture, the end of the copy loop and the second check. */
  lemma {:induction false} CopyAlone(s: System, id: nat, n: nat)
    requires Inv(s) && id in s.readers && s.readers[id].pc.Copy? && n == s.broker.mem.frameBytes - s.readers[id].pc.k + 2
    requires var p := s.readers[id].pc.p; SlotOf(s.broker.mem, p).sequence == 2 * p
    ensures var t := Run(s, Reads(id, n));
            t.broker == s.broker && id in t.readers && t.readers[id].pc == Took(s.readers[id].pc.p)
    decreases n
  {
    var u := Step(s, Read(id));
    CopyStep(s, id);
    RunRead(s, id, n - 1);
    if s.readers[id].pc.k < s.broker.mem.frameBytes {
      CopyAlone(u, id, n - 1);
    } else {
      assert n == 2;
      RecheckAlone(u, id);
    }
  }

  lemma NewestIsWhole(b: Broker)
    requires BrokerInv(b) && 0 < b.mem.published
    ensures var p := b.mem.published;
            SlotOf(b.mem, p).sequence == 2 * p && SlotOf(b.mem, p).bytes == b.mem.frameBytes
  {
    assert SlotInv(b, Index(b.mem.published));
    LastOf(b.next, Index(b.mem.published));
  }

  /** The three loads before the copy, with no broker step in between. */
  lemma LoadAlone(s: System, id: nat)
    requires Inv(s) && id in s.readers && s.readers[id].pc == Load(0) && 0 < s.broker.mem.published
    ensures var p := s.broker.mem.published;
            var t := Step(Step(Step(s, Read(id)), Read(id)), Read(id));
            && t.broker == s.broker && id in t.readers && t.readers[id].pc == Copy(0, p, 0)
            && SlotOf(t.broker.mem, p).sequence == 2 * p
  {
    NewestIsWhole(s.broker);
    var s1 := Step(s, Read(id));
    assert s1.broker == s.broker && s1.readers[id].pc == Check(0, s.broker.mem.published);
    var s2 := Step(s1, Read(id));
    assert s2.broker == s.broker && s2.readers[id].pc == Size(0, s.broker.mem.published);
  }

  /** Left alone by the broker, a call returns the newest announced frame at its first attempt,
      also while the broker stands in the middle of the next one. */
  lemma UndisturbedCallSucceeds(frameBytes: nat, before: seq<Event>, id: nat)
    requires var s := Reached(frameBytes, before);
             id in s.readers && s.readers[id].pc == Load(0) && 0 < s.broker.mem.published
    ensures var s := Reached(frameBytes, before);
            var t := Run(s, Reads(id, frameBytes + 5));
            && id in t.readers && t.readers[id].pc == Took(s.broker.mem.published)
            && t.readers[id].dst[..frameBytes] == s.broker.log[s.broker.mem.published - 1].pixels
  {
    var s := Reached(frameBytes, before);
    LoadAlone(s, id);
    var u := Step(Step(Step(s, Read(id)), Read(id)), Read(id));
    ThreeReads(s, id, frameBytes + 2);
    CopyAlone(u, id, frameBytes + 2);
    TookWhole(Run(u, Reads(id, frameBytes + 2)), id);
  }

  lemma ThreeReads(s: System, id: nat, n: nat)
    requires Inv(s)
    ensures Run(s, Reads(id, n + 3)) == Run(Step(Step(Step(s, Read(id)), Read(id)), Read(id)), Reads(id, n))
  {
    RunRead(s, id, n + 2);
    RunRead(Step(s, Read(id)), id, n + 1);
    RunRead(Step(Step(s, Read(id)), Read(id)), id, n);
  }

  lemma TookWhole(t: System, id: nat)
    requires Inv(t) && id in t.readers && t.readers[id].pc.Took?
    ensures var r, p := t.readers[id], t.readers[id].pc.p;
            && 1 <= p <= |t.broker.log| && t.broker.mem.frameBytes <= |r.dst|
            && r.dst[..t.broker.mem.frameBytes] == t.broker.log[p - 1].pixels
  {
    assert ReaderInv(t.broker, t.readers[id]);
  }
}
