/**
 H.264 access units between two framings: 4-byte length prefixes, as some encoders deliver them,
 and the byte stream of Annex B of Rec. ITU-T H.264.  `normalize` must keep the list of NAL units;
 an Annex B reader written from sections B.1 and B.2 of that recommendation says whether it does.
 */
module AnnexB {
  import opened Bytes
  import opened Options

  type Nal = seq<Byte>

  const PREFIX: seq<Byte> := [0, 0, 0, 1]

  // ---------------------------------------------------------------- the two framings, printed

  function Join(us: seq<Nal>): seq<Byte> {
    if us == [] then [] else Be32(|us[0]|) + us[0] + Join(us[1..])
  }

  function Stream(us: seq<Nal>): seq<Byte> {
    if us == [] then [] else PREFIX + us[0] + Stream(us[1..])
  }

  /** Units that a length prefix can announce. */
  ghost predicate Units(us: seq<Nal>) { forall i :: 0 <= i < |us| ==> 0 < |us[i]| < TWO_32 }

  // ---------------------------------------------------------------- the length-prefixed grammar

  /** The units of a length-prefixed sequence, if the bytes are one. */
  function Split(d: seq<Byte>): Option<seq<Nal>>
    decreases |d|
  {
    if d == [] then Some([])
    else if |d| <= 4 then None
    else
      var n := FromBe32(d);
      if n == 0 || n > |d| - 4 then None
      else
        match Split(d[4 + n..])
        case None => None
        case Some(us) => Some([d[4..4 + n]] + us)
  }

  lemma Head(u: Nal, rest: seq<Byte>)
    requires |u| < TWO_32
    ensures var d := Be32(|u|) + u + rest;
            |d| == 4 + |u| + |rest| && FromBe32(d) == |u| && d[4..4 + |u|] == u && d[4 + |u|..] == rest
  {
    Be32RoundTrip(|u|, u + rest);
    assert Be32(|u|) + u + rest == Be32(|u|) + (u + rest);
  }

  lemma {:induction false} SplitJoin(us: seq<Nal>)
    requires Units(us)
    ensures Split(Join(us)) == Some(us)
  {
    if us != [] {
      var d, rest := Join(us), Join(us[1..]);
      Head(us[0], rest);
      SplitJoin(us[1..]);
      assert Split(d) == Some([us[0]] + us[1..]);
      assert us == [us[0]] + us[1..];
    }
  }

  lemma Cut4(d: seq<Byte>, n: nat)
    requires 4 + n <= |d| && n == FromBe32(d)
    ensures n < TWO_32 && d == Be32(n) + d[4..4 + n] + d[4 + n..]
  {
    FromBe32Bound(d);
    assert d == d[..4] + d[4..4 + n] + d[4 + n..];
  }

  lemma {:induction false} JoinSplit(d: seq<Byte>)
    requires Split(d).Some?
    ensures Units(Split(d).value) && Join(Split(d).value) == d
    decreases |d|
  {
    if d != [] {
      var n := FromBe32(d);
      Cut4(d, n);
      JoinSplit(d[4 + n..]);
      var u, us := d[4..4 + n], Split(d[4 + n..]).value;
      assert Split(d) == Some([u] + us);
      assert ([u] + us)[1..] == us;
    }
  }

  /** Bytes are a sequence of length-prefixed units in at most one way, and the reader finds it. */
  lemma SplitExact(d: seq<Byte>, us: seq<Nal>)
    ensures Split(d) == Some(us) <==> Units(us) && Join(us) == d
  {
    if Split(d).Some? { JoinSplit(d); }
    if Units(us) && Join(us) == d { SplitJoin(us); }
  }

  // ---------------------------------------------------------------- normalize

  predicate ContainsStartCode(d: seq<Byte>) {
    || (3 <= |d| && d[0] == 0 && d[1] == 0 && d[2] == 1)
    || (4 <= |d| && d[0] == 0 && d[1] == 0 && d[2] == 0 && d[3] == 1)
  }

  /** What `normalize` returns: a start code in front decides first, then the length-prefixed
      grammar, and whatever fits neither is wrapped once, whole. */
  function Normalized(d: seq<Byte>): seq<Byte> {
    if d == [] || ContainsStartCode(d) then d
    else
      match Split(d)
      case Some(us) => Stream(us)
      case None => PREFIX + d
  }

  function Prepend(done: seq<Nal>, o: Option<seq<Nal>>): Option<seq<Nal>> {
    if o.None? then None else Some(done + o.value)
  }

  lemma PrependMore(done: seq<Nal>, u: Nal, o: Option<seq<Nal>>)
    ensures Prepend(done, Prepend([u], o)) == Prepend(done + [u], o)
  {
    if o.Some? { assert done + ([u] + o.value) == done + [u] + o.value; }
  }

  lemma {:induction false} StreamAppend(us: seq<Nal>, u: Nal)
    ensures Stream(us + [u]) == Stream(us) + PREFIX + u
  {
    if us == [] {
      assert us + [u] == [u] && [u][1..] == [];
    } else {
      assert (us + [u])[1..] == us[1..] + [u];
      StreamAppend(us[1..], u);
    }
  }

  /** One turn of the loop: a unit read, or the end of the attempt. */
  lemma SplitStep(d: seq<Byte>, off: nat)
    requires off < |d|
    ensures Split(d[off..]) ==
      if |d| <= off + 4 then None
      else
        var n := FromBe32(d[off..]);
        if n == 0 || n > |d| - off - 4 then None
        else Prepend([d[off + 4..off + 4 + n]], Split(d[off + 4 + n..]))
  {
    if off + 4 < |d| {
      var n := FromBe32(d[off..]);
      if n != 0 && n <= |d| - off - 4 {
        assert d[off..][4..4 + n] == d[off + 4..off + 4 + n] && d[off..][4 + n..] == d[off + 4 + n..];
      }
    }
  }

  /** What the loop has behind it: the units read up to `off`, rewritten. */
  ghost predicate Progress(d: seq<Byte>, off: nat, done: seq<Nal>, converted: seq<Byte>) {
    off <= |d| && Split(d) == Prepend(done, Split(d[off..])) && converted == Stream(done) && (off == 0 ==> done == [])
  }

  /** A turn that reads one more unit. */
  lemma ReadUnit(d: seq<Byte>, off: nat, done: seq<Nal>, converted: seq<Byte>)
    requires off + 4 < |d| && 0 < FromBe32(d[off..]) <= |d| - off - 4 && Progress(d, off, done, converted)
    ensures var n := FromBe32(d[off..]);
            var u := d[off + 4..off + 4 + n];
            Progress(d, off + 4 + n, done + [u], converted + PREFIX + u)
  {
    var n := FromBe32(d[off..]);
    var u := d[off + 4..off + 4 + n];
    SplitStep(d, off);
    StreamAppend(done, u);
    PrependMore(done, u, Split(d[off + 4 + n..]));
  }

  /** A turn that finds no unit. */
  lemma Misfit(d: seq<Byte>, off: nat, done: seq<Nal>, converted: seq<Byte>)
    requires off + 4 < |d| && !(0 < FromBe32(d[off..]) <= |d| - off - 4) && Progress(d, off, done, converted)
    ensures Split(d).None?
  {
    SplitStep(d, off);
  }

  method Normalize(data: array?<Byte>) returns (out: seq<Byte>)
    ensures out == if data == null then [] else Normalized(data[..])
  {
    if data == null || data.Length == 0 { return []; }
    if ContainsStartCode(data[..]) { return data[..]; }
    out := Convert(data[..]);
  }

  /** The conversion loop: units are read and rewritten until one does not fit. */
  method Convert(d: seq<Byte>) returns (out: seq<Byte>)
    requires 0 < |d|
    ensures out == match Split(d) case Some(us) => Stream(us) case None => PREFIX + d
  {
    var converted: seq<Byte> := [];
    var off, parsed := 0, false;
    ghost var done: seq<Nal>, misfit := [], false;
    Untouched(d);
    while off + 4 < |d|
      invariant 0 <= off && (parsed <==> done != []) && Progress(d, off, done, converted)
      decreases |d| - off
    {
      var length := FromBe32(d[off..]);
      if length <= 0 || length > |d| - off - 4 {
        Misfit(d, off, done, converted);
        parsed, misfit := false, true;
        break;
      }
      ReadUnit(d, off, done, converted);
      done := done + [d[off + 4..off + 4 + length]];
      converted := converted + PREFIX + d[off + 4..off + 4 + length];
      off := off + 4 + length;
      parsed := true;
    }
    if !misfit { Outcome(d, off, done, converted); }
    if parsed && off == |d| { return converted; }
    return PREFIX + d;
  }

  lemma Untouched(d: seq<Byte>)
    ensures Progress(d, 0, [], [])
  {
    assert d[0..] == d && (Split(d).Some? ==> [] + Split(d).value == Split(d).value);
  }

  lemma Outcome(d: seq<Byte>, off: nat, done: seq<Nal>, converted: seq<Byte>)
    requires 0 < |d| <= off + 4 && Progress(d, off, done, converted)
    ensures if off == |d| then Split(d) == Some(done) else Split(d) == None
    ensures off == |d| ==> done != []
  {
    if off < |d| {
      SplitStep(d, off);
    } else {
      assert d[off..] == [] && done + [] == done;
      if done == [] { NoUnits(d); }
    }
  }

  lemma NoUnits(d: seq<Byte>)
    requires Split(d) == Some([])
    ensures d == []
  {
    JoinSplit(d);
  }

  /** The two parameter sets, normalized and put one after the other. */
  function Config(sps: seq<Byte>, pps: seq<Byte>): seq<Byte> { Normalized(sps) + Normalized(pps) }

  method WriteConfig(sps: array<Byte>, pps: array<Byte>) returns (out: seq<Byte>)
    ensures out == Config(sps[..], pps[..])
  {
    out := [];
    var units := [sps, pps];
    var i := 0;
    while i < 2
      invariant 0 <= i <= 2
      invariant out == if i == 0 then [] else if i == 1 then Normalized(sps[..]) else Config(sps[..], pps[..])
    {
      var annex := Normalize(units[i]);
      out := out + annex;
      i := i + 1;
    }
  }
}
