/** Rows of pictures in memory: strided planes, and the two pixel formats of the camera.  Nothing
    here looks at a sample, so the samples are of any type. */
module Planes {

  // ---------------------------------------------------------------- rows and addresses

  /** n * size, one row at a time: it keeps addresses linear in the proofs. */
  function Span(n: nat, size: nat): nat { if n == 0 then 0 else Span(n - 1, size) + size }

  lemma {:induction false} SpanIs(n: nat, size: nat)
    ensures Span(n, size) == n * size
  {
    if n != 0 {
      SpanIs(n - 1, size);
      assert n * size == (n - 1) * size + size;
    }
  }

  lemma {:induction false} SpanGrows(m: nat, n: nat, size: nat)
    requires m <= n
    ensures Span(m, size) <= Span(n, size)
  {
    if m < n { SpanGrows(m, n - 1, size); }
  }

  /** n / 2, two at a time: it keeps the halving linear as well. */
  function Half(n: nat): (h: nat)
    ensures 2 * h <= n <= 2 * h + 1
  {
    if n < 2 then 0 else Half(n - 2) + 1
  }

  lemma {:induction false} HalfIs(n: nat)
    ensures Half(n) == n / 2
  {}

  predicate Even(n: nat) { n == 2 * Half(n) }

  lemma EvenIs(n: nat)
    ensures Even(n) <==> n % 2 == 0
  {}

  /** Row y ends where row y + 1 starts, and inside. */
  lemma RowInside(y: nat, rows: nat, size: nat)
    requires y < rows
    ensures Span(y, size) + size == Span(y + 1, size) <= Span(rows, size)
  {
    SpanGrows(y + 1, rows, size);
  }

  /** The first `width` samples of row y, when rows lie `pitch` apart. */
  function Row<T>(src: seq<T>, pitch: nat, width: nat, y: nat): (r: seq<T>)
    requires Span(y, pitch) + width <= |src|
    ensures |r| == width
  {
    src[Span(y, pitch)..Span(y, pitch) + width]
  }

  /** The rows of a strided plane, joined. */
  function Rows<T>(src: seq<T>, pitch: nat, width: nat, rows: nat): (r: seq<T>)
    requires width <= pitch && Span(rows, pitch) <= |src|
    ensures |r| == Span(rows, width)
  {
    if rows == 0 then [] else Rows(src, pitch, width, rows - 1) + Row(src, pitch, width, rows - 1)
  }

  lemma RowOfFront<T>(a: seq<T>, b: seq<T>, width: nat, y: nat)
    requires Span(y, width) + width <= |a|
    ensures Row(a + b, width, width, y) == Row(a, width, width, y)
  {}

  lemma LastRow<T>(a: seq<T>, row: seq<T>, width: nat, y: nat)
    requires |a| == Span(y, width) && |row| == width
    ensures Row(a + row, width, width, y) == row
  {}

  /** Row y of the repacked plane is row y of the strided one. */
  lemma {:induction false} RowsRow<T>(src: seq<T>, pitch: nat, width: nat, rows: nat, y: nat)
    requires width <= pitch && Span(rows, pitch) <= |src| && y < rows
    ensures Span(y, width) + width <= Span(rows, width) && Span(y, pitch) + width <= |src|
    ensures Row(Rows(src, pitch, width, rows), width, width, y) == Row(src, pitch, width, y)
  {
    RowInside(y, rows, width);
    RowInside(y, rows, pitch);
    var front, last := Rows(src, pitch, width, rows - 1), Row(src, pitch, width, rows - 1);
    if y == rows - 1 {
      LastRow(front, last, width, y);
    } else {
      RowsRow(src, pitch, width, rows - 1, y);
      RowOfFront(front, last, width, y);
    }
  }

  // ---------------------------------------------------------------- what a surface shows

  /** Row y of the surface is row y of the plane. */
  ghost predicate RowShown<T>(src: seq<T>, pitch: nat, width: nat, plane: seq<T>, y: nat) {
    && Span(y, pitch) + width <= |src| && Span(y, width) + width <= |plane|
    && Row(src, pitch, width, y) == Row(plane, width, width, y)
  }

  /** `src` is a surface that shows `plane`: row for row at the pitch, anything in between. */
  ghost predicate Shows<T>(src: seq<T>, pitch: nat, width: nat, rows: nat, plane: seq<T>) {
    |plane| == Span(rows, width) && forall y :: 0 <= y < rows ==> RowShown(src, pitch, width, plane, y)
  }

  lemma {:induction false} ShownIsRows<T>(src: seq<T>, pitch: nat, width: nat, rows: nat, plane: seq<T>)
    requires width <= pitch && Span(rows, pitch) <= |src| && Shows(src, pitch, width, rows, plane)
    ensures Rows(src, pitch, width, rows) == plane
    decreases rows
  {
    if rows != 0 {
      var n := Span(rows - 1, width);
      var front, last := plane[..n], plane[n..];
      forall y | 0 <= y < rows - 1 ensures RowShown(src, pitch, width, front, y) {
        assert RowShown(src, pitch, width, plane, y);
        RowInside(y, rows - 1, width);
        assert front + last == plane;
        RowOfFront(front, last, width, y);
      }
      ShownIsRows(src, pitch, width, rows - 1, front);
      assert RowShown(src, pitch, width, plane, rows - 1);
      assert front + last == plane && Row(plane, width, width, rows - 1) == last;
    }
  }

  /** Repacking a strided surface gives a plane exactly if the surface shows that plane. */
  lemma RowsRestore<T>(src: seq<T>, pitch: nat, width: nat, rows: nat, plane: seq<T>)
    requires width <= pitch && Span(rows, pitch) <= |src|
    ensures Rows(src, pitch, width, rows) == plane <==> Shows(src, pitch, width, rows, plane)
  {
    if Shows(src, pitch, width, rows, plane) { ShownIsRows(src, pitch, width, rows, plane); }
    if Rows(src, pitch, width, rows) == plane {
      forall y | 0 <= y < rows ensures RowShown(src, pitch, width, plane, y) { RowsRow(src, pitch, width, rows, y); }
    }
  }

  // ---------------------------------------------------------------- copying into place

  /** A stretch takes its place; everything before and after it stays. */
  function Placed<T>(was: seq<T>, at: nat, row: seq<T>): (r: seq<T>)
    requires at + |row| <= |was|
    ensures |r| == |was|
  {
    was[..at] + row + was[at + |row|..]
  }

  lemma PlacedMore<T>(was: seq<T>, at: nat, a: seq<T>, b: seq<T>)
    requires at + |a| + |b| <= |was|
    ensures Placed(Placed(was, at, a), at + |a|, b) == Placed(was, at, a + b)
  {}

  lemma NothingPlaced<T>(was: seq<T>, at: nat)
    requires at <= |was|
    ensures Placed(was, at, []) == was
  {}

  method CopyRow<T>(src: array<T>, s: nat, dst: array<T>, d: nat, width: nat)
    requires src != dst && s + width <= src.Length && d + width <= dst.Length
    modifies dst
    ensures dst[..] == Placed(old(dst[..]), d, src[..][s..s + width])
  {
    forall x | 0 <= x < width { dst[d + x] := src[s + x]; }
  }

  /** The first y rows stand from `at` on; elsewhere it is as it was. */
  ghost predicate CopiedTo<T>(was: seq<T>, out: seq<T>, at: nat, src: seq<T>, pitch: nat, width: nat, y: nat) {
    && width <= pitch && Span(y, pitch) <= |src| && at + Span(y, width) <= |was|
    && out == Placed(was, at, Rows(src, pitch, width, y))
  }

  lemma CopiedMore<T>(was: seq<T>, out: seq<T>, at: nat, src: seq<T>, pitch: nat, width: nat, y: nat, rows: nat)
    requires CopiedTo(was, out, at, src, pitch, width, y)
    requires y < rows && Span(rows, pitch) <= |src| && at + Span(rows, width) <= |was|
    ensures Span(y, pitch) + width <= |src| && at + Span(y, width) + width <= |out| == |was|
    ensures CopiedTo(was, Placed(out, at + Span(y, width), Row(src, pitch, width, y)), at, src, pitch, width, y + 1)
  {
    RowInside(y, rows, pitch);
    RowInside(y, rows, width);
    PlacedMore(was, at, Rows(src, pitch, width, y), Row(src, pitch, width, y));
  }

  lemma RowFrom<T>(src: seq<T>, off: nat, pitch: nat, width: nat, y: nat)
    requires off + Span(y, pitch) + width <= |src|
    ensures Row(src[off..], pitch, width, y) == src[off + Span(y, pitch)..off + Span(y, pitch) + width]
  {}

  /** One turn of the loop below. */
  method CopyNext<T>(src: array<T>, off: nat, pitch: nat, dst: array<T>, at: nat, width: nat, y: nat,
                     ghost rows: nat, ghost pixels: seq<T>, ghost was: seq<T>)
    requires src != dst && off <= |pixels| && pixels == src[..] && y < rows
    requires off + Span(rows, pitch) <= |pixels| && at + Span(rows, width) <= |was|
    requires CopiedTo(was, dst[..], at, pixels[off..], pitch, width, y)
    modifies dst
    ensures CopiedTo(was, dst[..], at, pixels[off..], pitch, width, y + 1)
  {
    var s, d := off + Span(y, pitch), at + Span(y, width);
    ghost var row := NextRow(was, dst[..], at, pixels, off, pitch, width, y, rows, s, d);
    CopyRow(src, s, dst, d, width);
  }

  /** The row that goes to `d` next, as it stands at `s`. */
  lemma NextRow<T>(was: seq<T>, out: seq<T>, at: nat, pixels: seq<T>, off: nat, pitch: nat, width: nat, y: nat, rows: nat,
                   s: nat, d: nat) returns (row: seq<T>)
    requires off <= |pixels| && CopiedTo(was, out, at, pixels[off..], pitch, width, y) && y < rows
    requires off + Span(rows, pitch) <= |pixels| && at + Span(rows, width) <= |was|
    requires s == off + Span(y, pitch) && d == at + Span(y, width)
    ensures s + width <= |pixels| && row == pixels[s..s + width] && d + width <= |out|
    ensures CopiedTo(was, Placed(out, d, row), at, pixels[off..], pitch, width, y + 1)
  {
    CopiedMore(was, out, at, pixels[off..], pitch, width, y, rows);
    RowFrom(pixels, off, pitch, width, y);
    row := Row(pixels[off..], pitch, width, y);
  }

  /** One `memcpy` a row. */
  method CopyRows<T>(src: array<T>, off: nat, pitch: nat, dst: array<T>, at: nat, width: nat, rows: nat)
    requires src != dst && width <= pitch
    requires off + Span(rows, pitch) <= src.Length && at + Span(rows, width) <= dst.Length
    modifies dst
    ensures dst[..] == Placed(old(dst[..]), at, Rows(src[..][off..], pitch, width, rows))
  {
    ghost var pixels, was := src[..], dst[..];
    NothingPlaced(was, at);
    var y := 0;
    while y < rows
      invariant 0 <= y <= rows && pixels == src[..]
      invariant CopiedTo(was, dst[..], at, pixels[off..], pitch, width, y)
    {
      CopyNext(src, off, pitch, dst, at, width, y, rows, pixels, was);
      y := y + 1;
    }
  }

  // ---------------------------------------------------------------- NV12 and YUY2

  /** Luma and chroma samples in turn. */
  function YuyRow<T>(luma: seq<T>, chroma: seq<T>): (r: seq<T>)
    requires |luma| == |chroma|
    ensures |r| == 2 * |luma|
  {
    if luma == [] then []
    else
      var n := |luma| - 1;
      YuyRow(luma[..n], chroma[..n]) + [luma[n], chroma[n]]
  }

  /** Planes with at least `rows` rows of luma, and a row of chroma for every pair of them. */
  predicate Covers(luma: nat, chroma: nat, width: nat, rows: nat) {
    Span(rows, width) <= luma && Span(Half(rows + 1), width) <= chroma
  }

  lemma CoversRow(luma: nat, chroma: nat, width: nat, rows: nat, y: nat)
    requires Covers(luma, chroma, width, rows) && y < rows
    ensures Span(y, width) + width <= luma && Span(Half(y), width) + width <= chroma
    ensures Covers(luma, chroma, width, y) && Covers(luma, chroma, width, y + 1)
  {
    RowInside(y, rows, width);
    RowInside(Half(y), Half(rows + 1), width);
    SpanGrows(Half(y + 1), Half(rows + 1), width);
    SpanGrows(Half(y + 2), Half(rows + 1), width);
  }

  /** Row y of the output: row y of the luma with row y / 2 of the chroma. */
  function RowOf<T>(luma: seq<T>, chroma: seq<T>, width: nat, y: nat): (r: seq<T>)
    requires Span(y, width) + width <= |luma| && Span(Half(y), width) + width <= |chroma|
    ensures |r| == 2 * width
  {
    YuyRow(Row(luma, width, width, y), Row(chroma, width, width, Half(y)))
  }

  /** The first `rows` rows of a picture as YUY2. */
  function Yuy2<T>(luma: seq<T>, chroma: seq<T>, width: nat, rows: nat): (r: seq<T>)
    requires Covers(|luma|, |chroma|, width, rows)
    ensures |r| == Span(rows, 2 * width)
  {
    if rows == 0 then []
    else
      CoversRow(|luma|, |chroma|, width, rows, rows - 1);
      Yuy2(luma, chroma, width, rows - 1) + RowOf(luma, chroma, width, rows - 1)
  }

  /** Row y of the output, found in the output. */
  lemma {:induction false} Yuy2Row<T>(luma: seq<T>, chroma: seq<T>, width: nat, rows: nat, y: nat)
    requires Covers(|luma|, |chroma|, width, rows) && y < rows
    ensures Span(y, 2 * width) + 2 * width <= Span(rows, 2 * width)
    ensures Span(y, width) + width <= |luma| && Span(Half(y), width) + width <= |chroma|
    ensures Row(Yuy2(luma, chroma, width, rows), 2 * width, 2 * width, y) == RowOf(luma, chroma, width, y)
  {
    RowInside(y, rows, 2 * width);
    CoversRow(|luma|, |chroma|, width, rows, y);
    CoversRow(|luma|, |chroma|, width, rows, rows - 1);
    var front, last := Yuy2(luma, chroma, width, rows - 1), RowOf(luma, chroma, width, rows - 1);
    if y == rows - 1 {
      LastRow(front, last, 2 * width, y);
    } else {
      Yuy2Row(luma, chroma, width, rows - 1, y);
      RowInside(y, rows - 1, 2 * width);
      RowOfFront(front, last, 2 * width, y);
    }
  }

  predicate IsNv12(size: nat, width: nat, height: nat) {
    Even(height) && size == Span(height, width) + Span(Half(height), width)
  }

  /** The size as the program computes it: one and a half bytes a pixel. */
  lemma Nv12Size(width: nat, height: nat)
    requires height % 2 == 0
    ensures IsNv12(width * height * 3 / 2, width, height)
    ensures Span(height, width) == width * height && Span(height, 2 * width) == 2 * (width * height)
  {
    EvenIs(height);
    var half := Half(height);
    SpanIs(height, width); SpanIs(half, width); SpanIs(height, 2 * width);
    Double(width, half);
    ThreeHalves(half * width);
  }

  lemma ThreeHalves(k: nat)
    ensures 2 * k * 3 / 2 == 3 * k
  {}

  /** The YUY2 size is made of groups of four bytes, one for every two pixels. */
  lemma Yuy2Groups(width: nat, height: nat)
    requires height % 2 == 0
    ensures width * height * 2 == 4 * Span(Half(height), width)
  {
    EvenIs(height);
    SpanIs(Half(height), width);
    Double(width, Half(height));
  }

  lemma Double(width: nat, half: nat)
    ensures width * (2 * half) == 2 * (half * width) == 2 * half * width
    ensures 2 * half * (2 * width) == 2 * (width * (2 * half))
  {}

  lemma Nv12Covers(size: nat, width: nat, height: nat)
    requires IsNv12(size, width, height)
    ensures Span(height, width) <= size && Covers(Span(height, width), size - Span(height, width), width, height)
  {
    HalfNext(height);
  }

  lemma HalfNext(n: nat)
    requires Even(n)
    ensures Half(n + 1) == Half(n)
  {}

  /** The YUY2 form of an NV12 picture. */
  function Converted<T>(src: seq<T>, width: nat, height: nat): (r: seq<T>)
    requires IsNv12(|src|, width, height)
    ensures |r| == Span(height, 2 * width)
  {
    Nv12Covers(|src|, width, height);
    Yuy2(src[..Span(height, width)], src[Span(height, width)..], width, height)
  }

  // ---------------------------------------------------------------- the conversion loops

  method StoreQuad<T>(dst: array<T>, at: nat, p: T, q: T, r: T, s: T)
    requires at + 4 <= dst.Length
    modifies dst
    ensures dst[..] == Placed(old(dst[..]), at, [p, q, r, s])
  {
    dst[at] := p;
    dst[at + 1] := q;
    dst[at + 2] := r;
    dst[at + 3] := s;
  }

  /** Two more pixels of a row. */
  lemma YuyRowMore<T>(luma: seq<T>, chroma: seq<T>, x: nat)
    requires |luma| == |chroma| && x + 2 <= |luma|
    ensures YuyRow(luma[..x + 2], chroma[..x + 2]) ==
            YuyRow(luma[..x], chroma[..x]) + [luma[x], chroma[x], luma[x + 1], chroma[x + 1]]
  {
    YuyRowOne(luma, chroma, x);
    YuyRowOne(luma, chroma, x + 1);
  }

  lemma YuyRowOne<T>(luma: seq<T>, chroma: seq<T>, x: nat)
    requires |luma| == |chroma| && x < |luma|
    ensures YuyRow(luma[..x + 1], chroma[..x + 1]) == YuyRow(luma[..x], chroma[..x]) + [luma[x], chroma[x]]
  {
    assert luma[..x + 1][..x] == luma[..x] && chroma[..x + 1][..x] == chroma[..x];
  }

  /** The first x pixels of the row stand at `at`, and nothing else has changed. */
  ghost predicate RowBegun<T>(was: seq<T>, out: seq<T>, at: nat, luma: seq<T>, chroma: seq<T>, x: nat) {
    && x <= |luma| == |chroma| && at + 2 * |luma| <= |was|
    && out == Placed(was, at, YuyRow(luma[..x], chroma[..x]))
  }

  lemma RowContinued<T>(was: seq<T>, out: seq<T>, at: nat, luma: seq<T>, chroma: seq<T>, x: nat)
    requires RowBegun(was, out, at, luma, chroma, x) && x + 2 <= |luma|
    ensures |out| == |was|
    ensures RowBegun(was, Placed(out, at + 2 * x, [luma[x], chroma[x], luma[x + 1], chroma[x + 1]]), at, luma, chroma, x + 2)
  {
    YuyRowMore(luma, chroma, x);
    PlacedMore(was, at, YuyRow(luma[..x], chroma[..x]), [luma[x], chroma[x], luma[x + 1], chroma[x + 1]]);
  }

  lemma RowUntouched<T>(was: seq<T>, at: nat, luma: seq<T>, chroma: seq<T>)
    requires |luma| == |chroma| && at + 2 * |luma| <= |was|
    ensures RowBegun(was, was, at, luma, chroma, 0)
  {
    assert YuyRow(luma[..0], chroma[..0]) == [];
  }

  lemma RowDone<T>(was: seq<T>, out: seq<T>, at: nat, luma: seq<T>, chroma: seq<T>)
    requires RowBegun(was, out, at, luma, chroma, |luma|)
    ensures out == Placed(was, at, YuyRow(luma, chroma))
  {
    assert luma[..|luma|] == luma && chroma[..|luma|] == chroma;
  }

  ghost predicate StandsAt<T>(row: seq<T>, src: array<T>, at: nat)
    reads src
  {
    at + |row| <= src.Length && forall k :: 0 <= k < |row| ==> row[k] == src[at + k]
  }

  /** Two pixels share a group of four samples. */
  method ConvertPair<T>(src: array<T>, dst: array<T>, l: nat, c: nat, at: nat, x: nat,
                        ghost was: seq<T>, ghost luma: seq<T>, ghost chroma: seq<T>)
    requires src != dst && x + 2 <= |luma| && StandsAt(luma, src, l) && StandsAt(chroma, src, c)
    requires RowBegun(was, dst[..], at, luma, chroma, x)
    modifies dst
    ensures RowBegun(was, dst[..], at, luma, chroma, x + 2)
  {
    RowContinued(was, dst[..], at, luma, chroma, x);
    StoreQuad(dst, at + 2 * x, src[l + x], src[c + x], src[l + x + 1], src[c + x + 1]);
  }

  /** The inner loop: one row, from its luma at `l` and its chroma at `c`; the rest stays. */
  method ConvertRow<T>(src: array<T>, dst: array<T>, l: nat, c: nat, at: nat, width: nat,
                       ghost luma: seq<T>, ghost chroma: seq<T>)
    requires src != dst && Even(width) && |luma| == |chroma| == width && at + 2 * width <= dst.Length
    requires StandsAt(luma, src, l) && StandsAt(chroma, src, c)
    modifies dst
    ensures dst[..] == Placed(old(dst[..]), at, YuyRow(luma, chroma))
  {
    ghost var was := dst[..];
    var x := 0;
    RowUntouched(was, at, luma, chroma);
    while x < width
      invariant 0 <= x <= width && Even(x) && RowBegun(was, dst[..], at, luma, chroma, x)
    {
      NextEven(x, width);
      ConvertPair(src, dst, l, c, at, x, was, luma, chroma);
      x := x + 2;
    }
    RowDone(was, dst[..], at, luma, chroma);
  }

  lemma NextEven(x: nat, width: nat)
    requires Even(x) && Even(width) && x < width
    ensures x + 2 <= width && Even(x + 2)
  {}

  /** The first y rows of the output stand, and nothing else has changed. */
  ghost predicate ConvertedTo<T>(was: seq<T>, out: seq<T>, luma: seq<T>, chroma: seq<T>, width: nat, y: nat) {
    && Covers(|luma|, |chroma|, width, y) && Span(y, 2 * width) <= |was|
    && out == Placed(was, 0, Yuy2(luma, chroma, width, y))
  }

  lemma ConvertedMore<T>(was: seq<T>, out: seq<T>, luma: seq<T>, chroma: seq<T>, width: nat, y: nat, rows: nat)
    requires ConvertedTo(was, out, luma, chroma, width, y)
    requires y < rows && Covers(|luma|, |chroma|, width, rows) && Span(rows, 2 * width) <= |was|
    ensures Span(y, width) + width <= |luma| && Span(Half(y), width) + width <= |chroma|
    ensures Span(y, 2 * width) + 2 * width <= |out| == |was|
    ensures ConvertedTo(was, Placed(out, Span(y, 2 * width), RowOf(luma, chroma, width, y)), luma, chroma, width, y + 1)
  {
    RowInside(y, rows, 2 * width);
    CoversRow(|luma|, |chroma|, width, rows, y);
    PlacedMore(was, 0, Yuy2(luma, chroma, width, y), RowOf(luma, chroma, width, y));
  }

  /** One turn of the outer loop; rows of chroma are taken one for every two rows of luma. */
  method ConvertNext<T>(src: array<T>, dst: array<T>, width: nat, uv: nat, y: nat,
                        ghost rows: nat, ghost pixels: seq<T>, ghost was: seq<T>)
    requires src != dst && Even(width) && uv <= |pixels| && pixels == src[..]
    requires y < rows && Covers(uv, |pixels| - uv, width, rows) && Span(rows, 2 * width) <= |was|
    requires ConvertedTo(was, dst[..], pixels[..uv], pixels[uv..], width, y)
    modifies dst
    ensures ConvertedTo(was, dst[..], pixels[..uv], pixels[uv..], width, y + 1)
  {
    ghost var luma, chroma := pixels[..uv], pixels[uv..];
    ConvertedMore(was, dst[..], luma, chroma, width, y, rows);
    ConvertRow(src, dst, Span(y, width), uv + Span(Half(y), width), Span(y, 2 * width), width,
      Row(luma, width, width, y), Row(chroma, width, width, Half(y)));
  }

  method Nv12ToYuy2<T>(src: array<T>, dst: array<T>, width: nat, height: nat)
    requires src != dst && Even(width)
    requires IsNv12(src.Length, width, height) && Span(height, 2 * width) <= dst.Length
    modifies dst
    ensures dst[..] == Placed(old(dst[..]), 0, Converted(src[..], width, height))
  {
    var uv := Span(height, width);
    Nv12Covers(src.Length, width, height);
    ghost var pixels, was := src[..], dst[..];
    NothingPlaced(was, 0);
    var y := 0;
    while y < height
      invariant 0 <= y <= height && pixels == src[..]
      invariant ConvertedTo(was, dst[..], pixels[..uv], pixels[uv..], width, y)
    {
      ConvertNext(src, dst, width, uv, y, height, pixels, was);
      y := y + 1;
    }
  }

  // ---------------------------------------------------------------- the conversion loses nothing

  function Evens<T>(s: seq<T>): seq<T> {
    if |s| < 2 then [] else Evens(s[..|s| - 2]) + [s[|s| - 2]]
  }

  function Odds<T>(s: seq<T>): seq<T> {
    if |s| < 2 then [] else Odds(s[..|s| - 2]) + [s[|s| - 1]]
  }

  /** The chroma of the first row of each pair. */
  function ChromaOf<T>(out: seq<T>, width: nat, pairs: nat): seq<T>
    requires Span(2 * pairs, 2 * width) <= |out|
  {
    if pairs == 0 then []
    else
      RowInside(2 * pairs - 2, 2 * pairs, 2 * width);
      SpanGrows(2 * pairs - 2, 2 * pairs, 2 * width);
      ChromaOf(out, width, pairs - 1) + Odds(Row(out, 2 * width, 2 * width, 2 * pairs - 2))
  }

  /** From YUY2 back to NV12. */
  function FromYuy2<T>(out: seq<T>, width: nat, height: nat): seq<T>
    requires Even(height) && |out| == Span(height, 2 * width)
  {
    Evens(out) + ChromaOf(out, width, Half(height))
  }

  lemma {:induction false} YuyRowSplits<T>(luma: seq<T>, chroma: seq<T>)
    requires |luma| == |chroma|
    ensures Evens(YuyRow(luma, chroma)) == luma && Odds(YuyRow(luma, chroma)) == chroma
    decreases |luma|
  {
    if luma != [] {
      var n := |luma| - 1;
      var front := YuyRow(luma[..n], chroma[..n]);
      YuyRowSplits(luma[..n], chroma[..n]);
      assert YuyRow(luma, chroma)[..|YuyRow(luma, chroma)| - 2] == front;
      assert luma[..n] + [luma[n]] == luma && chroma[..n] + [chroma[n]] == chroma;
    }
  }

  lemma {:induction false} EvensAppend<T>(a: seq<T>, b: seq<T>, pairs: nat)
    requires |b| == 2 * pairs
    ensures Evens(a + b) == Evens(a) + Evens(b)
    decreases pairs
  {
    if pairs == 0 {
      assert a + b == a;
    } else {
      var n := |b| - 2;
      assert (a + b)[..|a| + n] == a + b[..n];
      EvensAppend(a, b[..n], pairs - 1);
    }
  }

  lemma {:induction false} SpanTwice(y: nat, width: nat)
    ensures Span(y, 2 * width) == 2 * Span(y, width)
  {
    if y != 0 { SpanTwice(y - 1, width); }
  }

  /** The first rows, one more row at a time. */
  lemma FrontMore<T>(s: seq<T>, width: nat, y: nat)
    requires Span(y, width) + width <= |s|
    ensures s[..Span(y + 1, width)] == s[..Span(y, width)] + Row(s, width, width, y)
  {}

  lemma {:induction false} LumaSurvives<T>(luma: seq<T>, chroma: seq<T>, width: nat, rows: nat)
    requires Covers(|luma|, |chroma|, width, rows)
    ensures Evens(Yuy2(luma, chroma, width, rows)) == luma[..Span(rows, width)]
  {
    if rows != 0 {
      var y := rows - 1;
      CoversRow(|luma|, |chroma|, width, rows, y);
      LumaSurvives(luma, chroma, width, y);
      EvensAppend(Yuy2(luma, chroma, width, y), RowOf(luma, chroma, width, y), width);
      YuyRowSplits(Row(luma, width, width, y), Row(chroma, width, width, Half(y)));
      FrontMore(luma, width, y);
    }
  }

  lemma HalfOf(p: nat)
    ensures Half(2 * p) == p && Half(2 * p + 1) == p
  {}

  /** The chroma of the first row of pair p. */
  lemma PairChroma<T>(luma: seq<T>, chroma: seq<T>, width: nat, rows: nat, p: nat)
    requires Covers(|luma|, |chroma|, width, rows) && 2 * p + 2 <= rows
    ensures Span(2 * p, 2 * width) + 2 * width <= Span(rows, 2 * width) && Span(p, width) + width <= |chroma|
    ensures Odds(Row(Yuy2(luma, chroma, width, rows), 2 * width, 2 * width, 2 * p)) == Row(chroma, width, width, p)
  {
    HalfOf(p);
    Yuy2Row(luma, chroma, width, rows, 2 * p);
    YuyRowSplits(Row(luma, width, width, 2 * p), Row(chroma, width, width, p));
  }

  lemma {:induction false} ChromaSurvives<T>(luma: seq<T>, chroma: seq<T>, width: nat, rows: nat, pairs: nat)
    requires Covers(|luma|, |chroma|, width, rows) && 2 * pairs <= rows
    ensures Span(2 * pairs, 2 * width) <= Span(rows, 2 * width) && Span(pairs, width) <= |chroma|
    ensures ChromaOf(Yuy2(luma, chroma, width, rows), width, pairs) == chroma[..Span(pairs, width)]
    decreases pairs
  {
    SpanGrows(2 * pairs, rows, 2 * width);
    SpanGrows(pairs, Half(rows + 1), width);
    if pairs != 0 {
      var out, p := Yuy2(luma, chroma, width, rows), pairs - 1;
      ChromaSurvives(luma, chroma, width, rows, p);
      PairChroma(luma, chroma, width, rows, p);
      FrontMore(chroma, width, p);
      ChromaMore(out, width, p);
    }
  }

  lemma ChromaMore<T>(out: seq<T>, width: nat, p: nat)
    requires Span(2 * p + 2, 2 * width) <= |out|
    ensures Span(2 * p, 2 * width) + 2 * width <= |out|
    ensures ChromaOf(out, width, p + 1) == ChromaOf(out, width, p) + Odds(Row(out, 2 * width, 2 * width, 2 * p))
  {
    RowInside(2 * p, 2 * p + 2, 2 * width);
  }

  /** For even heights the conversion has a left inverse: no sample of the picture is lost. */
  lemma Yuy2RoundTrip<T>(src: seq<T>, width: nat, height: nat)
    requires IsNv12(|src|, width, height)
    ensures FromYuy2(Converted(src, width, height), width, height) == src
  {
    var uv := Span(height, width);
    var luma, chroma := src[..uv], src[uv..];
    Nv12Covers(|src|, width, height);
    LumaSurvives(luma, chroma, width, height);
    ChromaSurvives(luma, chroma, width, height, Half(height));
    CutAndJoined(src, uv);
  }

  lemma CutAndJoined<T>(s: seq<T>, n: nat)
    requires n <= |s|
    ensures s[..n][..n] + s[n..][..|s| - n] == s
  {}
}
