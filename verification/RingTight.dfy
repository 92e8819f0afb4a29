/** The six-frame bound is exact: a broker that is fast enough makes a call fail with just six. */
module RingTight {
  import opened RingLayout
  import opened RingProtocol
  import opened RingReaders
  import opened RingTheorems

  function Writes(n: nat): seq<Event> { seq(n, _ => Write(Advance(0))) }

  lemma {:induction false} RunJoined(s: System, a: seq<Event>, b: seq<Event>)
    requires Inv(s)
    ensures Run(s, a + b) == Run(Run(s, a), b)
    decreases |a|
  {
    if a == [] {
      assert a + b == b;
    } else {
      assert (a + b)[1..] == a[1..] + b;
      RunJoined(Step(s, a[0]), a[1..], b);
    }
  }

  lemma RunOne(s: System, e: Event)
    requires Inv(s)
    ensures Run(s, [e]) == Step(s, e)
  {
    assert [e][1..] == [];
    assert Run(Step(s, e), []) == Step(s, e);
  }

  lemma {:induction false} RunWrites(s: System, n: nat)
    requires Inv(s)
    ensures Run(s, Writes(n)) == s.(broker := Advances(s.broker, 0, n))
    decreases n
  {
    if n == 0 {
      assert Writes(0) == [];
    } else {
      assert Writes(n) == Writes(n - 1) + [Write(Advance(0))];
      RunWrites(s, n - 1);
      RunJoined(s, Writes(n - 1), [Write(Advance(0))]);
      RunOne(Run(s, Writes(n - 1)), Write(Advance(0)));
    }
  }

  /** The frame under way to its end, and the odd mark of the next one. */
  function Finish(n: nat, shot: Shot): seq<Event> { Writes(n) + [Write(Start(shot))] }

  predicate AtMark(b: Broker) { b.pc == Copying(0) }

  lemma NextMarked(b: Broker, shot: Shot)
    requires BrokerInv(b) && |shot.pixels| == b.mem.frameBytes
    ensures var c := WriterStep(Advances(b, 0, Remaining(b)), Start(shot));
            && AtMark(c) && c.next == b.next + 1 && c.mem.frameBytes == b.mem.frameBytes && c.mem.published == b.next
  {
    ComesToRest(b, 0);
  }

  lemma RunFinish(s: System, n: nat, shot: Shot)
    requires Inv(s) && |shot.pixels| == s.broker.mem.frameBytes && n == Remaining(s.broker)
    ensures var t := Run(s, Finish(n, shot));
            && t.readers == s.readers && AtMark(t.broker) && t.broker.next == s.broker.next + 1
            && t.broker.mem.frameBytes == s.broker.mem.frameBytes && t.broker.mem.published == s.broker.next
  {
    NextMarked(s.broker, shot);
    RunWrites(s, n);
    RunJoined(s, Writes(n), [Write(Start(shot))]);
    RunOne(Run(s, Writes(n)), Write(Start(shot)));
  }

  /** One failed attempt: the reader loads the counter, the broker finishes the frame it is at and
      one more and marks a third, the reader looks. */
  function Lap(id: nat, n: nat, shot: Shot): seq<Event> {
    [Read(id)] + Finish(n, shot) + Finish(|shot.pixels| + TAIL, shot) + [Read(id)]
  }

  lemma LapFails(s: System, id: nat, i: nat, n: nat, shot: Shot)
    requires Inv(s) && |shot.pixels| == s.broker.mem.frameBytes && n == Remaining(s.broker)
    requires 0 < s.broker.mem.published && s.broker.next == s.broker.mem.published + 1
    requires id in s.readers && s.readers[id].pc == Load(i)
    ensures var t := Run(s, Lap(id, n, shot));
            && id in t.readers && t.readers[id].pc == Retry(i) && AtMark(t.broker)
            && t.broker.mem.frameBytes == s.broker.mem.frameBytes
            && t.broker.mem.published == s.broker.mem.published + 2 && t.broker.next == t.broker.mem.published + 1
  {
    var full := |shot.pixels| + TAIL;
    var s1 := Step(s, Read(id));
    var s2 := Run(s1, Finish(n, shot));
    RunOne(s, Read(id));
    RunFinish(s1, n, shot);
    RunFinish(s2, full, shot);
    RunLap(s, id, n, shot);
    Lapped(Run(s2, Finish(full, shot)).broker, s.broker.mem.published);
  }

  lemma RunLap(s: System, id: nat, n: nat, shot: Shot)
    requires Inv(s)
    ensures Run(s, Lap(id, n, shot)) ==
            Step(Run(Run(Step(s, Read(id)), Finish(n, shot)), Finish(|shot.pixels| + TAIL, shot)), Read(id))
  {
    var a, b := Finish(n, shot), Finish(|shot.pixels| + TAIL, shot);
    RunOne(s, Read(id));
    RunJoined(s, [Read(id)], a);
    RunJoined(s, [Read(id)] + a, b);
    RunJoined(s, [Read(id)] + a + b, [Read(id)]);
    RunOne(Run(Run(Step(s, Read(id)), a), b), Read(id));
  }

  /** The slot of a frame two behind the newest carries the odd mark of the next frame. */
  lemma Lapped(b: Broker, p: int)
    requires BrokerInv(b) && AtMark(b) && 1 <= p && b.mem.published == p + 2
    ensures SlotOf(b.mem, p).sequence == 2 * (p + 3) - 1
  {
    assert Index(p) == Index(b.next);
    assert SlotInv(b, Index(p));
  }

  /** Three laps, the first of which picks the broker up wherever it stands in a frame. */
  function Laps(id: nat, n: nat, shot: Shot): seq<Event> {
    Lap(id, n, shot) + Lap(id, |shot.pixels| + TAIL, shot) + Lap(id, |shot.pixels| + TAIL, shot)
  }

  lemma LapsFail(s: System, id: nat, n: nat, shot: Shot)
    requires Inv(s) && |shot.pixels| == s.broker.mem.frameBytes && n == Remaining(s.broker)
    requires 0 < s.broker.mem.published && s.broker.next == s.broker.mem.published + 1
    requires id in s.readers && s.readers[id].pc == Load(0)
    ensures var t := Run(s, Laps(id, n, shot));
            id in t.readers && t.readers[id].pc.GaveUp? && t.broker.mem.published == s.broker.mem.published + 6
  {
    var full := |shot.pixels| + TAIL;
    var a, b := Lap(id, n, shot), Lap(id, full, shot);
    LapFails(s, id, 0, n, shot);
    LapFails(Run(s, a), id, 1, full, shot);
    LapFails(Run(Run(s, a), b), id, 2, full, shot);
    RunJoined(s, a, b);
    RunJoined(s, a + b, b);
  }

  /** A run that makes the call fail: when the broker is at no frame, it starts one first. */
  function Trap(b: Broker, id: nat, shot: Shot): seq<Event>
    requires Shape(b)
  {
    if b.next == b.mem.published + 1 then Laps(id, Remaining(b), shot)
    else Finish(Remaining(b), shot) + Laps(id, |shot.pixels| + TAIL, shot)
  }

  /** From every reachable state in which a call is about to make its first load and a frame has been
      announced, wherever the broker stands, some run of the broker and this reader alone makes the call
      fail with exactly six more frames announced. */
  lemma SixFramesSuffice(frameBytes: nat, before: seq<Event>, id: nat, shot: Shot)
    requires var s := Reached(frameBytes, before);
             id in s.readers && s.readers[id].pc == Load(0) && 0 < s.broker.mem.published
             && |shot.pixels| == s.broker.mem.frameBytes
    ensures var s := Reached(frameBytes, before);
            var t := Run(s, Trap(s.broker, id, shot));
            && id in t.readers && t.readers[id].pc.GaveUp? && t.broker.mem.published == s.broker.mem.published + 6
  {
    var s := Reached(frameBytes, before);
    var n, full := Remaining(s.broker), |shot.pixels| + TAIL;
    if s.broker.next == s.broker.mem.published + 1 {
      LapsFail(s, id, n, shot);
    } else {
      RunFinish(s, n, shot);
      LapsFail(Run(s, Finish(n, shot)), id, full, shot);
      RunJoined(s, Finish(n, shot), Laps(id, full, shot));
    }
  }

  /** Nothing in that run starts another call. */
  lemma TrapHasNoCall(b: Broker, id: nat, shot: Shot)
    requires Shape(b)
    ensures forall e :: e in Trap(b, id, shot) ==> !e.Call?
  {}
}
