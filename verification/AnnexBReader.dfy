/**
 Reading a byte stream back, after sections B.1 (syntax) and B.2 (where a NAL unit ends) of Annex B
 of Rec. ITU-T H.264, and what `normalize` keeps under that reading.
 */
module AnnexBReader {
  import opened Bytes
  import opened AnnexB
  import opened Options

  /** The next three bytes are a start code prefix. */
  predicate Start3(s: seq<Byte>) { 3 <= |s| && s[0] == 0 && s[1] == 0 && s[2] == 1 }

  /** The next four bytes are a zero byte and a start code prefix. */
  predicate Start4(s: seq<Byte>) { 4 <= |s| && s[0] == 0 && s[1] == 0 && s[2] == 0 && s[3] == 1 }

  predicate Zeros3(s: seq<Byte>) { 3 <= |s| && s[0] == 0 && s[1] == 0 && s[2] == 0 }

  /** Past leading zeros and the start code, if the stream begins that way. */
  function Lead(s: seq<Byte>): (r: Option<seq<Byte>>)
    ensures r.Some? ==> |r.value| < |s|
  {
    if Start3(s) then Some(s[3..])
    else if Start4(s) then Some(s[4..])
    else if s != [] && s[0] == 0 then Lead(s[1..])
    else None
  }

  /** The length of the NAL unit: up to 000000, 000001 or the end. */
  function Extent(s: seq<Byte>): (n: nat)
    ensures n <= |s|
  {
    if s == [] || Start3(s) || Zeros3(s) then 0 else 1 + Extent(s[1..])
  }

  /** Past trailing zeros, up to the next start code or the end. */
  function Trail(s: seq<Byte>): (r: Option<seq<Byte>>)
    ensures r.Some? ==> |r.value| <= |s|
  {
    if s == [] || Start3(s) || Start4(s) then Some(s)
    else if s[0] == 0 then Trail(s[1..])
    else None
  }

  function Parse(s: seq<Byte>): Option<seq<Nal>>
    decreases |s|
  {
    match Lead(s)
    case None => None
    case Some(t) => ParseNal(t)
  }

  /** A NAL unit after its start code, and what follows it. */
  function ParseNal(t: seq<Byte>): Option<seq<Nal>>
    decreases |t|, 1
  {
    var n := Extent(t);
    if n == 0 then None
    else
      match Trail(t[n..])
      case None => None
      case Some(r) =>
        if r == [] then Some([t[..n]])
        else
          match Parse(r)
          case None => None
          case Some(us) => Some([t[..n]] + us)
  }

  /** What section 7.4.1 demands of a NAL unit: none of 000000, 000001, 000002 inside, and a last
      byte other than 00. */
  ghost predicate ValidNal(u: Nal) {
    && u != [] && u[|u| - 1] != 0
    && forall i :: 0 <= i && i + 2 < |u| ==> !(u[i] == 0 && u[i + 1] == 0 && u[i + 2] <= 2)
  }

  ghost predicate Valid(us: seq<Nal>) { us != [] && forall i :: 0 <= i < |us| ==> ValidNal(us[i]) }

  // ---------------------------------------------------------------- the printed stream reads back

  lemma ValidTail(u: Nal)
    requires ValidNal(u) && 1 < |u|
    ensures ValidNal(u[1..])
  {
    var v := u[1..];
    forall i | 0 <= i && i + 2 < |v| ensures !(v[i] == 0 && v[i + 1] == 0 && v[i + 2] <= 2) {
      assert v[i] == u[i + 1] && v[i + 1] == u[i + 2] && v[i + 2] == u[i + 3];
    }
  }

  /** A valid NAL unit ends where it ends: no start code can overlap its last bytes. */
  lemma {:induction false} ExtentOfNal(u: Nal, rest: seq<Byte>)
    requires ValidNal(u) && (rest == [] || Start3(rest) || Zeros3(rest))
    ensures Extent(u + rest) == |u|
  {
    var s := u + rest;
    assert s[..|u|] == u;
    if |u| == 1 {
      assert s[1..] == rest && s[0] == u[0];
    } else {
      ValidTail(u);
      ExtentOfNal(u[1..], rest);
      assert s[1..] == u[1..] + rest;
      assert s[0] == u[0] && s[1] == u[1];
      if 2 < |u| { assert s[2] == u[2]; }
    }
  }

  lemma StreamStarts(us: seq<Nal>)
    requires us != []
    ensures Start4(Stream(us)) && Stream(us)[4..] == us[0] + Stream(us[1..])
    ensures Zeros3(Stream(us)) && !Start3(Stream(us))
  {
    var tail := us[0] + Stream(us[1..]);
    assert Stream(us) == PREFIX + tail;
  }

  /** Every list of valid NAL units is read back from its printed stream. */
  lemma {:induction false} StreamRoundTrip(us: seq<Nal>)
    requires Valid(us)
    ensures Parse(Stream(us)) == Some(us)
  {
    var rest := Stream(us[1..]);
    StreamStarts(us);
    if |us| == 1 {
      assert rest == [] && us == [us[0]];
    } else {
      StreamStarts(us[1..]);
      StreamRoundTrip(us[1..]);
      assert us == [us[0]] + us[1..];
    }
    ExtentOfNal(us[0], rest);
    var t := us[0] + rest;
    assert t[..|us[0]|] == us[0] && t[|us[0]|..] == rest;
    assert Trail(rest) == Some(rest);
    assert ParseNal(t) == Some(us);
  }

  // ---------------------------------------------------------------- what normalize keeps

  /** Lengths whose four bytes begin like a start code: 00 00 00 01 and 00 00 01 xx. */
  predicate Ambiguous(n: nat) { n == 1 || 256 <= n < 512 }

  lemma LengthBytes(n: nat)
    requires n < TWO_32
    ensures var b := Be32(n);
            && (b[0] == 0 && b[1] == 0 <==> n < 0x1_0000)
            && (n < 0x1_0000 ==> b[2] == n / 256 && b[3] == n % 256)
            && (b[0] == 0 <==> n < 0x100_0000)
  {}

  lemma JoinStarts(us: seq<Nal>)
    requires us != [] && Units(us)
    ensures |Join(us)| >= 5 && Join(us)[..4] == Be32(|us[0]|) && Join(us)[4..] == us[0] + Join(us[1..])
    ensures Start3(Join(us)) <==> 256 <= |us[0]| < 512
    ensures Start4(Join(us)) <==> |us[0]| == 1
  {
    var tail := us[0] + Join(us[1..]);
    assert Join(us) == Be32(|us[0]|) + tail;
    LengthBytes(|us[0]|);
  }

  ghost predicate AllOnes(us: seq<Nal>) { forall i :: 0 <= i < |us| ==> |us[i]| == 1 }

  /** Units of one byte each look the same in both framings. */
  lemma {:induction false} OnesJoin(us: seq<Nal>)
    requires AllOnes(us)
    ensures Join(us) == Stream(us)
  {
    if us != [] { OnesJoin(us[1..]); }
  }

  /** A unit ends at a zero byte or at the end. */
  lemma {:induction false} ExtentStops(t: seq<Byte>)
    ensures Extent(t) == |t| || t[Extent(t)] == 0
  {
    if !(t == [] || Start3(t) || Zeros3(t)) { ExtentStops(t[1..]); }
  }

  /** The byte in front shifts the unit by one, so the unit read cannot be as long as the written one. */
  lemma ShiftedExtent(b: Byte, u: Nal, rest: seq<Byte>)
    requires u != [] && u[|u| - 1] != 0
    ensures Extent([b] + u + rest) != |u|
  {
    var t := [b] + u + rest;
    assert t[|u|] == u[|u| - 1];
    ExtentStops(t);
  }

  /** A first length of 256..511 is taken for a start code, and the unit read is not the first one. */
  lemma LongFirstMisread(us: seq<Nal>)
    requires Valid(us) && Units(us) && 256 <= |us[0]| < 512
    ensures Parse(Join(us)) != Some(us)
  {
    JoinStarts(us);
    var j, u, rest := Join(us), us[0], Join(us[1..]);
    assert ValidNal(u);
    var t := [j[3]] + u + rest;
    assert j[3..] == [j[3]] + j[4..] == t;
    ShiftedExtent(j[3], u, rest);
    FirstRead(t, us);
  }

  lemma FirstRead(t: seq<Byte>, us: seq<Nal>)
    requires us != [] && Extent(t) != |us[0]|
    ensures ParseNal(t) != Some(us)
  {}

  /** Trailing bytes that are neither zeros nor a start code make the stream unreadable. */
  lemma TrailOfLength(us: seq<Nal>)
    requires us != [] && Units(us) && !Ambiguous(|us[0]|)
    ensures Trail(Join(us)).None?
  {
    JoinStarts(us);
    LengthBytes(|us[0]|);
    TrailOfBytes(Join(us));
  }

  lemma TrailOfBytes(j: seq<Byte>)
    requires 5 <= |j| && (j[0] == 0 && j[1] == 0 && j[2] == 0 ==> j[3] > 1)
    requires j[0] == 0 && j[1] == 0 ==> j[2] != 1
    ensures Trail(j).None?
  {
    var k, l, m := j[1..], j[2..], j[3..];
    assert k[1..] == l && l[1..] == m;
    if j[0] == 0 && j[1] == 0 && j[2] == 0 {
      assert m[0] > 1;
      assert l[0] == 0 && l[1] > 1;
      assert Trail(m).None? && Trail(l).None?;
    } else if j[0] == 0 && j[1] == 0 {
      assert Trail(l).None?;
    }
  }

  /** Units taken for a byte stream as they are read back right only if each has one byte. */
  lemma {:induction false} MisreadUnlessOnes(us: seq<Nal>)
    requires Valid(us) && Units(us) && Ambiguous(|us[0]|) && Parse(Join(us)) == Some(us)
    ensures AllOnes(us)
    decreases |us|
  {
    if |us[0]| != 1 {
      LongFirstMisread(us);
    } else if |us| != 1 {
      JoinStarts(us);
      var rest := us[1..];
      var t := us[0] + Join(rest);
      assert Lead(Join(us)) == Some(t);
      assert us[0] == t[..Extent(t)] && t[1..] == Join(rest);
      JoinStarts(rest);
      if Ambiguous(|rest[0]|) {
        assert Trail(Join(rest)) == Some(Join(rest));
        assert Parse(Join(rest)).Some? && [us[0]] + Parse(Join(rest)).value == us;
        assert Parse(Join(rest)).value == us[1..];
        MisreadUnlessOnes(rest);
      } else {
        TrailOfLength(rest);
      }
    }
  }

  /** The list of NAL units survives `normalize` exactly when the first length cannot be taken for
      a start code, or all units are single bytes, which look the same either way. */
  lemma NormalizeKeepsUnits(us: seq<Nal>)
    requires Valid(us) && Units(us)
    ensures Parse(Normalized(Join(us))) == Some(us) <==> !Ambiguous(|us[0]|) || AllOnes(us)
  {
    JoinStarts(us);
    assert ContainsStartCode(Join(us)) <==> Start3(Join(us)) || Start4(Join(us));
    if !Ambiguous(|us[0]|) {
      SplitJoin(us);
      StreamRoundTrip(us);
    } else {
      if AllOnes(us) {
        OnesJoin(us);
        StreamRoundTrip(us);
      }
      if Parse(Join(us)) == Some(us) { MisreadUnlessOnes(us); }
    }
  }

  /** An input that is not kept: two valid units, the first of one byte, come back as something else. */
  lemma NormalizeLosesUnits()
    ensures var us: seq<Nal> := [[0x65], [0x41, 0x9a]];
            Valid(us) && Units(us) && Parse(Normalized(Join(us))) != Some(us)
  {
    var us: seq<Nal> := [[0x65], [0x41, 0x9a]];
    assert ValidNal(us[0]) && ValidNal(us[1]) && |us[1]| == 2;
    NormalizeKeepsUnits(us);
  }

  /** Normalizing twice is normalizing once. */
  lemma NormalizeIdempotent(d: seq<Byte>)
    ensures Normalized(Normalized(d)) == Normalized(d)
  {
    if d != [] && !ContainsStartCode(d) {
      if Split(d).Some? {
        JoinSplit(d);
        StreamStarts(Split(d).value);
      }
    }
  }

  /** With a start code in front, the input stays as it is; without, it is converted exactly when it
      is a sequence of length-prefixed units, and otherwise wrapped whole. */
  lemma NormalizeDecides(d: seq<Byte>, us: seq<Nal>)
    ensures d == [] || Start3(d) || Start4(d) ==> Normalized(d) == d
    ensures d != [] && !Start3(d) && !Start4(d) && Units(us) && Join(us) == d ==> Normalized(d) == Stream(us)
    ensures d != [] && !Start3(d) && !Start4(d) && (forall vs :: !(Units(vs) && Join(vs) == d)) ==>
              Normalized(d) == [0, 0, 0, 1] + d
  {
    SplitExact(d, us);
    if Split(d).Some? { SplitExact(d, Split(d).value); }
  }

  // ---------------------------------------------------------------- parameter sets

  /** Where a unit ends does not depend on the start code that follows the stream. */
  lemma {:induction false} ExtentBefore(t: seq<Byte>, rest: seq<Byte>)
    requires Start3(rest) || Start4(rest)
    requires 0 < Extent(t) && t[Extent(t) - 1] != 0
    ensures Extent(t + rest) == Extent(t)
    decreases |t|
  {
    var s := t + rest;
    assert s[1..] == t[1..] + rest && s[0] == t[0];
    if Extent(t) == 1 {
      EndsHere(t[1..], rest);
      if 1 < |t| { assert s[1] == t[1]; }
    } else {
      assert s[1] == t[1];
      if 2 < |t| { assert s[2] == t[2]; }
      assert t[1..][Extent(t[1..]) - 1] == t[Extent(t) - 1];
      ExtentBefore(t[1..], rest);
    }
  }

  lemma EndsHere(t: seq<Byte>, rest: seq<Byte>)
    requires (Start3(rest) || Start4(rest)) && Extent(t) == 0
    ensures Extent(t + rest) == 0
  {
    var s := t + rest;
    if t == [] {
      assert s == rest;
    } else {
      assert s[0] == t[0] && s[1] == t[1] && s[2] == t[2];
    }
  }

  /** The bytes after a unit, when the stream goes on: a last zero may belong to the next start code. */
  lemma {:induction false} TrailBefore(t: seq<Byte>, rest: seq<Byte>)
    requires (Start3(rest) || Start4(rest)) && Trail(t).Some?
    ensures Trail(t).value != [] ==> Trail(t + rest) == Some(Trail(t).value + rest)
    ensures Trail(t).value == [] ==> Trail(t + rest) == Some(rest) || (Start3(rest) && Trail(t + rest) == Some([0] + rest))
    decreases |t|
  {
    var s := t + rest;
    if t == [] {
      assert s == rest;
    } else if Start3(t) || Start4(t) {
      assert s[0] == t[0] && s[1] == t[1] && s[2] == t[2] && (3 < |t| ==> s[3] == t[3]);
    } else {
      assert s[1..] == t[1..] + rest && s[0] == t[0] == 0;
      TrailBefore(t[1..], rest);
      if |t| == 1 { assert s == [0] + rest; }
      if 1 < |t| { assert s[1] == t[1]; }
      if 2 < |t| { assert s[2] == t[2]; }
      if 3 < |t| { assert s[3] == t[3]; }
    }
  }

  lemma {:induction false} LeadBefore(a: seq<Byte>, rest: seq<Byte>)
    requires Lead(a).Some?
    ensures Lead(a + rest) == Some(Lead(a).value + rest)
    decreases |a|
  {
    var s := a + rest;
    if Start3(a) {
      assert s[3..] == a[3..] + rest;
    } else if Start4(a) {
      assert s[4..] == a[4..] + rest;
    } else {
      LeadThere(a[1..]);
      assert s[0] == a[0] && s[1] == a[1] && s[2] == a[2] && s[3] == a[3] && s[1..] == a[1..] + rest;
      LeadBefore(a[1..], rest);
    }
  }

  lemma {:induction false} LeadThere(a: seq<Byte>)
    requires Lead(a).Some?
    ensures 3 <= |a|
    decreases |a|
  {
    if !Start3(a) && !Start4(a) { LeadThere(a[1..]); }
  }

  /** A zero in front of a short start code makes it a long one. */
  lemma LongerStart(rest: seq<Byte>)
    requires Start3(rest)
    ensures Parse([0] + rest) == Parse(rest)
  {
    assert ([0] + rest)[4..] == rest[3..];
  }

  /** A stream read as valid units: its first unit, and what comes after it. */
  lemma FirstUnit(a: seq<Byte>, us: seq<Nal>) returns (t: seq<Byte>, n: nat, r: seq<Byte>)
    requires Parse(a) == Some(us) && Valid(us)
    ensures Lead(a) == Some(t) && n == Extent(t) && 0 < n && t[n - 1] != 0 && us[0] == t[..n]
    ensures Trail(t[n..]) == Some(r) && |r| < |a|
    ensures if r == [] then us == [t[..n]] else Parse(r) == Some(us[1..]) && Valid(us[1..]) && us == [t[..n]] + us[1..]
  {
    t := Lead(a).value;
    n := Extent(t);
    r := Trail(t[n..]).value;
    assert us[0] == t[..n] && ValidNal(us[0]);
    if r != [] {
      MoreUnits(r);
      assert us[1..] == Parse(r).value;
    }
  }

  lemma NalThen(t: seq<Byte>, n: nat, r: seq<Byte>, ws: seq<Nal>)
    requires n == Extent(t) && 0 < n && Trail(t[n..]) == Some(r) && r != [] && Parse(r) == Some(ws)
    ensures ParseNal(t) == Some([t[..n]] + ws)
  {}

  /** The first unit stays the first unit when the stream goes on. */
  lemma UnitBefore(t: seq<Byte>, n: nat, b: seq<Byte>)
    requires n == Extent(t) && 0 < n && t[n - 1] != 0 && (Start3(b) || Start4(b))
    ensures n == Extent(t + b) && (t + b)[..n] == t[..n] && (t + b)[n..] == t[n..] + b
  {
    ExtentBefore(t, b);
  }

  lemma LastUnitJoined(t: seq<Byte>, n: nat, b: seq<Byte>, vs: seq<Nal>)
    requires n == Extent(t) && 0 < n && t[n - 1] != 0 && Trail(t[n..]) == Some([])
    requires (Start3(b) || Start4(b)) && Parse(b) == Some(vs)
    ensures ParseNal(t + b) == Some([t[..n]] + vs)
  {
    UnitBefore(t, n, b);
    TrailBefore(t[n..], b);
    if Start3(b) { LongerStart(b); }
    NalThen(t + b, n, Trail(t[n..] + b).value, vs);
  }

  lemma UnitJoined(t: seq<Byte>, n: nat, r: seq<Byte>, b: seq<Byte>, ws: seq<Nal>)
    requires n == Extent(t) && 0 < n && t[n - 1] != 0 && Trail(t[n..]) == Some(r) && r != []
    requires (Start3(b) || Start4(b)) && Parse(r + b) == Some(ws)
    ensures ParseNal(t + b) == Some([t[..n]] + ws)
  {
    UnitBefore(t, n, b);
    TrailBefore(t[n..], b);
    NalThen(t + b, n, r + b, ws);
  }

  lemma ParsedFrom(s: seq<Byte>, t: seq<Byte>, us: seq<Nal>)
    requires Lead(s) == Some(t) && ParseNal(t) == Some(us)
    ensures Parse(s) == Some(us)
  {}

  lemma Regroup(us: seq<Nal>, u: Nal, vs: seq<Nal>)
    requires us != [] && us == [u] + us[1..]
    ensures [u] + (us[1..] + vs) == us + vs
  {}

  /** Two streams one after the other are read as the units of the first and then of the second. */
  lemma {:induction false} ParseJoined(a: seq<Byte>, us: seq<Nal>, b: seq<Byte>, vs: seq<Nal>)
    requires Parse(a) == Some(us) && Valid(us) && (Start3(b) || Start4(b)) && Parse(b) == Some(vs)
    ensures Parse(a + b) == Some(us + vs)
    decreases |a|
  {
    var t, n, r := FirstUnit(a, us);
    LeadBefore(a, b);
    if r == [] {
      LastUnitJoined(t, n, b, vs);
    } else {
      ParseJoined(r, us[1..], b, vs);
      UnitJoined(t, n, r, b, us[1..] + vs);
      Regroup(us, t[..n], vs);
    }
    ParsedFrom(a + b, t + b, us + vs);
  }

  lemma MoreUnits(s: seq<Byte>)
    requires Parse(s).Some?
    ensures Parse(s).value != []
  {}

  lemma NormalizedStarts(d: seq<Byte>)
    requires d != []
    ensures Start3(Normalized(d)) || Start4(Normalized(d))
  {
    if !ContainsStartCode(d) && Split(d).Some? {
      JoinSplit(d);
      StreamStarts(Split(d).value);
    }
  }

  /** The configuration is read as the units of the first parameter set and then of the second,
      whatever framing each came in: raw, length-prefixed or with start codes. */
  lemma ConfigReadsBack(sps: seq<Byte>, pps: seq<Byte>, us: seq<Nal>, vs: seq<Nal>)
    requires Parse(Normalized(sps)) == Some(us) && Valid(us) && Parse(Normalized(pps)) == Some(vs)
    ensures Parse(Config(sps, pps)) == Some(us + vs)
  {
    if pps != [] {
      NormalizedStarts(pps);
      ParseJoined(Normalized(sps), us, Normalized(pps), vs);
    }
  }

  /** A raw unit is read as itself: its first byte is a NAL header and so not zero, which as a length
      would announce more than 16 MiB. */
  lemma RawReadsBack(u: Nal)
    requires ValidNal(u) && u[0] != 0 && |u| < 0x100_0000
    ensures Parse(Normalized(u)) == Some([u])
  {
    assert Normalized(u) == PREFIX + u;
    assert [u][1..] == [] && Stream([u]) == PREFIX + u + [] == PREFIX + u;
    StreamRoundTrip([u]);
  }
}
