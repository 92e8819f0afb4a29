/** From a decoder's output buffer to a contiguous NV12 picture in the ring. */
module Decoder {
  import opened Bytes
  import opened Options
  import opened RingProtocol
  import opened Planes
  import FrameRing

  /** A locked two-dimensional buffer: its memory, where the first row starts, and the pitch. */
  datatype Surface<T> = Surface(bytes: T, scan: int, pitch: int)

  function Padded(height: nat): nat { (height + 15) / 16 * 16 }

  function UvOffset(capacity: nat, pitch: nat, height: nat): nat {
    if capacity >= pitch * Padded(height) * 3 / 2 then pitch * Padded(height) else pitch * height
  }

  /** The test before rows of a locked surface are read. */
  predicate Locked(capacity: nat, scan: int, pitch: int, width: nat, height: nat) {
    && width <= pitch && 0 < pitch && 0 <= scan < capacity
    && scan + UvOffset(capacity, pitch, height) + pitch * (height / 2) <= capacity
  }

  /** The test before a plain buffer with padded rows is read. */
  predicate PaddedRows(current: nat, width: nat, height: nat) {
    && width * height * 3 / 2 <= current <= width * height * 3 / 2 + width * 48
    && current >= Padded(height) * width * 3 / 2
  }

  /** Where the two planes are read, nothing is read outside the buffer. */
  ghost predicate Inside(capacity: nat, at: nat, uv: nat, pitch: nat, width: nat, height: nat) {
    && width <= pitch && at + Span(height, pitch) <= at + uv
    && at + uv + Span(height / 2, pitch) <= capacity
  }

  lemma LockedInside(capacity: nat, scan: int, pitch: int, width: nat, height: nat)
    requires Locked(capacity, scan, pitch, width, height)
    ensures Inside(capacity, scan, UvOffset(capacity, pitch, height), pitch, width, height)
  {
    SpanIs(height, pitch);
    SpanIs(height / 2, pitch);
    Larger(pitch, height / 2, height / 2);
    UvOffsetLarge(capacity, pitch, height);
  }

  lemma UvOffsetLarge(capacity: nat, pitch: nat, height: nat)
    ensures height * pitch <= UvOffset(capacity, pitch, height)
  {
    Larger(pitch, height, Padded(height));
  }

  lemma PaddedInside(current: nat, width: nat, height: nat)
    requires PaddedRows(current, width, height) && height % 2 == 0
    ensures Inside(current, 0, Padded(height) * width, width, width, height)
  {
    SpanIs(height, width);
    SpanIs(height / 2, width);
    PaddedEnough(current, width, height);
  }

  lemma PaddedEnough(current: nat, width: nat, height: nat)
    requires current >= Padded(height) * width * 3 / 2 && height % 2 == 0
    ensures height * width <= Padded(height) * width
    ensures Padded(height) * width + height / 2 * width <= current
  {
    Larger(width, height, Padded(height));
    Larger(width, height / 2, Padded(height) / 2);
    ThreeHalves(Padded(height) / 2, width);
  }

  lemma ThreeHalves(half: nat, width: nat)
    ensures 2 * half * width == 2 * (half * width)
    ensures 2 * half * width * 3 / 2 == 3 * (half * width)
  {
    assert 2 * half * width == 2 * (half * width);
  }

  lemma PlaneSizes(width: nat, height: nat)
    requires height % 2 == 0
    ensures Span(height, width) + Span(height / 2, width) == width * height * 3 / 2
  {
    Nv12Size(width, height);
    HalfIs(height);
  }

  /** A buffer filled in two goes. */
  lemma TwoPlanes(was: seq<Byte>, mid: seq<Byte>, now: seq<Byte>, luma: seq<Byte>, chroma: seq<Byte>)
    requires |was| == |luma| + |chroma|
    requires mid == Placed(was, 0, luma) && now == Placed(mid, |luma|, chroma)
    ensures now == luma + chroma
  {}

  lemma Larger(k: nat, a: nat, b: nat)
    requires a <= b
    ensures a * k == k * a <= k * b == b * k
  {}

  /** What is published: the luma rows, then the chroma rows, without what lies between. */
  ghost function Repacked(bytes: seq<Byte>, at: nat, uv: nat, pitch: nat, width: nat, height: nat): seq<Byte>
    requires Inside(|bytes|, at, uv, pitch, width, height)
  {
    Rows(bytes[at..], pitch, width, height) + Rows(bytes[at + uv..], pitch, width, height / 2)
  }

  /** Repacking restores a frame byte for byte exactly when the surface shows that frame where the
      branch looks for it. */
  lemma RepackedRestores(bytes: seq<Byte>, at: nat, uv: nat, pitch: nat, width: nat, height: nat, luma: seq<Byte>, chroma: seq<Byte>)
    requires Inside(|bytes|, at, uv, pitch, width, height)
    requires |luma| == Span(height, width) && |chroma| == Span(height / 2, width)
    ensures Repacked(bytes, at, uv, pitch, width, height) == luma + chroma
       <==> Planes.Shows(bytes[at..], pitch, width, height, luma) && Planes.Shows(bytes[at + uv..], pitch, width, height / 2, chroma)
  {
    RowsRestore(bytes[at..], pitch, width, height, luma);
    RowsRestore(bytes[at + uv..], pitch, width, height / 2, chroma);
    var a, b := Rows(bytes[at..], pitch, width, height), Rows(bytes[at + uv..], pitch, width, height / 2);
    if a + b == luma + chroma {
      assert (a + b)[..|luma|] == a && (luma + chroma)[..|luma|] == luma;
      assert (a + b)[|luma|..] == b && (luma + chroma)[|luma|..] == chroma;
    }
  }

  /** The picture in the buffer, if one of the three layouts fits: the locked surface first, then
      a contiguous frame, then one with padded rows. */
  ghost function Picture(two: Option<Surface<seq<Byte>>>, raw: Option<seq<Byte>>, width: nat, height: nat): Option<seq<Byte>>
    requires height % 2 == 0
  {
    if two.Some? && Locked(|two.value.bytes|, two.value.scan, two.value.pitch, width, height) then
      var s, uv := two.value, UvOffset(|two.value.bytes|, two.value.pitch, height);
      LockedInside(|s.bytes|, s.scan, s.pitch, width, height);
      Some(Repacked(s.bytes, s.scan, uv, s.pitch, width, height))
    else if raw.Some? && |raw.value| == width * height * 3 / 2 then raw
    else if raw.Some? && PaddedRows(|raw.value|, width, height) then
      PaddedInside(|raw.value|, width, height);
      Some(Repacked(raw.value, 0, Padded(height) * width, width, width, height))
    else None
  }

  // ---------------------------------------------------------------- where decoders put the planes

  lemma PaddedIs(rows: nat, height: nat)
    requires rows % 16 == 0 && height <= rows < height + 16
    ensures Padded(height) == rows
  {}

  /** The two planes of a frame, rows at a pitch, the second plane `uv` bytes after the first. */
  ghost predicate FrameAt(bytes: seq<Byte>, at: nat, uv: nat, pitch: nat, width: nat, height: nat,
                          luma: seq<Byte>, chroma: seq<Byte>) {
    && at + uv <= |bytes|
    && Planes.Shows(bytes[at..], pitch, width, height, luma)
    && Planes.Shows(bytes[at + uv..], pitch, width, height / 2, chroma)
  }

  /** A locked surface of `rows` whole macroblock rows, or of just the frame's rows when the buffer is
      too small for them: the picture taken is exactly the frame that stands there, with its chroma after
      those rows; a surface that does not hold all of it is not used. */
  lemma LockedPicture(s: Surface<seq<Byte>>, raw: Option<seq<Byte>>, width: nat, height: nat, rows: nat, uv: int,
                      luma: seq<Byte>, chroma: seq<Byte>)
    requires height % 2 == 0 && rows % 16 == 0 && height <= rows < height + 16
    requires |luma| == Span(height, width) && |chroma| == Span(height / 2, width)
    requires uv == if |s.bytes| >= s.pitch * rows * 3 / 2 then s.pitch * rows else s.pitch * height
    ensures if width <= s.pitch && 0 < s.pitch && 0 <= s.scan < |s.bytes|
               && s.scan + uv + s.pitch * (height / 2) <= |s.bytes|
            then 0 <= uv && (Picture(Some(s), raw, width, height) == Some(luma + chroma)
                             <==> FrameAt(s.bytes, s.scan, uv, s.pitch, width, height, luma, chroma))
            else Picture(Some(s), raw, width, height) == Picture(None, raw, width, height)
  {
    PaddedIs(rows, height);
    if Locked(|s.bytes|, s.scan, s.pitch, width, height) {
      LockedInside(|s.bytes|, s.scan, s.pitch, width, height);
      RepackedRestores(s.bytes, s.scan, uv, s.pitch, width, height, luma, chroma);
    }
  }

  /** A plain buffer: the frame itself if it has just its size, else the frame with its chroma after
      `rows` whole macroblock rows, if the buffer is large enough for that and not much larger. */
  lemma RawPicture(raw: seq<Byte>, width: nat, height: nat, rows: nat, luma: seq<Byte>, chroma: seq<Byte>)
    requires height % 2 == 0 && rows % 16 == 0 && height <= rows < height + 16
    requires |luma| == Span(height, width) && |chroma| == Span(height / 2, width)
    ensures var expected, picture := width * height * 3 / 2, Picture(None, Some(raw), width, height);
            if |raw| == expected then picture == Some(raw)
            else if expected < |raw| <= expected + width * 48 && rows * width * 3 / 2 <= |raw|
            then picture == Some(luma + chroma) <==> FrameAt(raw, 0, rows * width, width, width, height, luma, chroma)
            else picture == None
  {
    PaddedIs(rows, height);
    if |raw| != width * height * 3 / 2 && PaddedRows(|raw|, width, height) {
      PaddedInside(|raw|, width, height);
      RepackedRestores(raw, 0, rows * width, width, width, height, luma, chroma);
    }
  }

  /** A buffer of just the padded planes, whether or not there is any padding. */
  lemma AlignedPicture(raw: seq<Byte>, width: nat, height: nat, rows: nat, luma: seq<Byte>, chroma: seq<Byte>)
    requires height % 2 == 0 && rows % 16 == 0 && height <= rows < height + 16 && |raw| == rows * width * 3 / 2
    requires |luma| == Span(height, width) && |chroma| == Span(height / 2, width)
    requires FrameAt(raw, 0, rows * width, width, width, height, luma, chroma)
    ensures Picture(None, Some(raw), width, height) == Some(luma + chroma)
  {
    RawPicture(raw, width, height, rows, luma, chroma);
    AlignedSize(rows, width, height);
    if |raw| == width * height * 3 / 2 { WholePicture(raw, width, height, luma, chroma); }
  }

  lemma WholePicture(raw: seq<Byte>, width: nat, height: nat, luma: seq<Byte>, chroma: seq<Byte>)
    requires height % 2 == 0 && |raw| == width * height * 3 / 2
    requires |luma| == Span(height, width) && |chroma| == Span(height / 2, width)
    requires FrameAt(raw, 0, width * height, width, width, height, luma, chroma)
    ensures raw == luma + chroma
  {
    SpanIs(height, width);
    PlaneSizes(width, height);
    assert raw[0..] == raw;
    ShownInFront(raw, width, height, luma);
    ShownInFront(raw[Span(height, width)..], width, height / 2, chroma);
    TwoParts(raw, luma, chroma);
  }

  lemma TwoParts(s: seq<Byte>, a: seq<Byte>, b: seq<Byte>)
    requires |s| == |a| + |b| && s[..|a|] == a && s[|a|..][..|b|] == b
    ensures s == a + b
  {}

  lemma AlignedSize(rows: nat, width: nat, height: nat)
    requires height % 2 == 0 && rows % 16 == 0 && height <= rows < height + 16
    ensures var n, expected := rows * width * 3 / 2, width * height * 3 / 2;
            expected <= n <= expected + width * 48 && (n == expected ==> rows * width == width * height)
  {
    PaddingSize(rows / 2, width, height / 2);
  }

  /** Up to fourteen more rows make the buffer at most 21 widths larger. */
  lemma PaddingSize(rows: nat, width: nat, height: nat)
    requires height <= rows <= height + 7
    ensures 2 * rows * width * 3 / 2 == 3 * (rows * width) && width * (2 * height) * 3 / 2 == 3 * (height * width)
    ensures 3 * (height * width) <= 3 * (rows * width) <= 3 * (height * width) + width * 48
    ensures rows * width == height * width ==> 2 * rows * width == width * (2 * height)
  {
    ThreeHalves(rows, width);
    ThreeHalves(height, width);
    assert width * (2 * height) == 2 * height * width;
    var more := rows - height;
    assert rows * width == height * width + more * width;
    Larger(width, 0, more);
    Larger(width, more, 7);
  }

  /** A plane whose rows follow one another is the front of its bytes. */
  lemma ShownInFront(src: seq<Byte>, width: nat, rows: nat, plane: seq<Byte>)
    requires Span(rows, width) <= |src| && Planes.Shows(src, width, width, rows, plane)
    ensures plane == src[..|plane|]
  {
    var front := src[..Span(rows, width)];
    forall y | 0 <= y < rows ensures RowShown(src, width, width, front, y) { RowInside(y, rows, width); }
    RowsRestore(src, width, width, rows, front);
    RowsRestore(src, width, width, rows, plane);
  }

  ghost function ViewOf(two: Option<Surface<array<Byte>>>): Option<Surface<seq<Byte>>>
    reads if two.None? then {} else {two.value.bytes}
  {
    if two.None? then None else Some(Surface(two.value.bytes[..], two.value.scan, two.value.pitch))
  }

  ghost function BytesOf(raw: Option<array<Byte>>): Option<seq<Byte>>
    reads if raw.None? then {} else {raw.value}
  {
    if raw.None? then None else Some(raw.value[..])
  }

  class H264Decoder {
    const width: nat
    const height: nat
    var nv12: array<Byte>

    ghost predicate Valid() { height % 2 == 0 }

    constructor (width: nat, height: nat)
      requires height % 2 == 0
      ensures Valid() && this.width == width && this.height == height && fresh(nv12)
    {
      this.width, this.height := width, height;
      nv12 := new Byte[width * height * 3 / 2](_ => 0);
    }

    method CopyPlanes(bytes: array<Byte>, at: nat, uv: nat, pitch: nat)
      requires Valid() && bytes != nv12 && nv12.Length == width * height * 3 / 2
      requires Inside(bytes.Length, at, uv, pitch, width, height)
      modifies nv12
      ensures nv12[..] == Repacked(bytes[..], at, uv, pitch, width, height)
    {
      PlaneSizes(width, height);
      var luma := Span(height, width);
      ghost var was := nv12[..];
      CopyRows(bytes, at, pitch, nv12, 0, width, height);
      ghost var mid := nv12[..];
      CopyRows(bytes, at + uv, pitch, nv12, luma, width, height / 2);
      TwoPlanes(was, mid, nv12[..], Rows(bytes[..][at..], pitch, width, height),
        Rows(bytes[..][at + uv..], pitch, width, height / 2));
    }

    ghost function Given(two: Option<Surface<array<Byte>>>, raw: Option<array<Byte>>): Option<seq<Byte>>
      requires Valid()
      reads if two.None? then {} else {two.value.bytes}
      reads if raw.None? then {} else {raw.value}
    {
      Picture(ViewOf(two), BytesOf(raw), width, height)
    }

    /** Fills `nv12` from the buffer.  `two`: it could be locked as a surface; `raw`: the plain
        lock works. */
    method Repack(two: Option<Surface<array<Byte>>>, raw: Option<array<Byte>>) returns (ok: bool)
      requires Valid() && (two.Some? ==> two.value.bytes != nv12) && (raw.Some? ==> raw.value != nv12)
      modifies this`nv12, nv12
      ensures nv12 == old(nv12) || fresh(nv12)
      ensures ok <==> old(Given(two, raw)).Some?
      ensures ok ==> nv12[..] == old(Given(two, raw)).value
    {
      var expected := width * height * 3 / 2;
      if nv12.Length != expected { nv12 := new Byte[expected](_ => 0); }
      if two.Some? {
        var s := two.value;
        if Locked(s.bytes.Length, s.scan, s.pitch, width, height) {
          LockedInside(s.bytes.Length, s.scan, s.pitch, width, height);
          CopyPlanes(s.bytes, s.scan, UvOffset(s.bytes.Length, s.pitch, height), s.pitch);
          return true;
        }
      }
      ok := CopyRaw(raw);
    }

    method CopyRaw(raw: Option<array<Byte>>) returns (ok: bool)
      requires Valid() && (raw.Some? ==> raw.value != nv12) && nv12.Length == width * height * 3 / 2
      modifies nv12
      ensures ok <==> Picture(None, BytesOf(raw), width, height).Some?
      ensures ok ==> nv12[..] == Picture(None, BytesOf(raw), width, height).value
    {
      if raw.None? { return false; }
      var b := raw.value;
      if b.Length == nv12.Length {
        CopyRow(b, 0, nv12, 0, nv12.Length);
        return true;
      }
      if !PaddedRows(b.Length, width, height) { return false; }
      PaddedInside(b.Length, width, height);
      CopyPlanes(b, 0, Padded(height) * width, width);
      ok := true;
    }

    /** Publishes the buffer's picture, if it has one and the ring takes it. */
    method CopyNv12(two: Option<Surface<array<Byte>>>, raw: Option<array<Byte>>, ring: FrameRing.FrameRing, pts: int, qpc: int)
      returns (ok: bool)
      requires Valid() && ring.Valid() && (ring.mapping != null ==> ring.mapping.bytes != nv12)
      requires two.Some? ==> two.value.bytes != nv12
      requires raw.Some? ==> raw.value != nv12
      modifies this`nv12, nv12, ring, if ring.mapping == null then {} else ring.mapping.Cells()
      ensures ring.Valid() && ring.mapping == old(ring.mapping)
      ensures ring.mapping == null ==> !ok
      ensures ring.mapping != null ==>
                var picture := old(Given(two, raw));
                if ok then picture.Some? && ring.View() == Published(old(ring.View()), Shot(picture.value, pts), qpc)
                else ring.View() == old(ring.View())
                     && (picture.None? || |picture.value| != ring.mapping.header.frameBytes)
    {
      ok := Repack(two, raw);
      if !ok { return; }
      ok := ring.Publish(nv12, pts, qpc);
    }
  }
}
