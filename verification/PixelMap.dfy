/** Where every sample goes: the two picture transformations read index by index. */
module PixelMap {
  import opened Planes

  lemma RowAt<T>(src: seq<T>, pitch: nat, width: nat, y: nat, x: nat)
    requires Span(y, pitch) + width <= |src| && x < width
    ensures Row(src, pitch, width, y)[x] == src[Span(y, pitch) + x]
  {}

  /** Column x of row y of a repacked plane is column x of row y of the strided one. */
  lemma RowsAt<T>(src: seq<T>, pitch: nat, width: nat, rows: nat, y: nat, x: nat)
    requires width <= pitch && Span(rows, pitch) <= |src| && y < rows && x < width
    ensures Span(y, width) + x < Span(rows, width) && Span(y, pitch) + x < |src|
    ensures Rows(src, pitch, width, rows)[Span(y, width) + x] == src[Span(y, pitch) + x]
  {
    RowsRow(src, pitch, width, rows, y);
    RowAt(Rows(src, pitch, width, rows), width, width, y, x);
    RowAt(src, pitch, width, y, x);
  }

  /** Sample i of the luma and sample c of the chroma stand at pixel i of the output. */
  ghost predicate Holds<T>(out: seq<T>, luma: seq<T>, chroma: seq<T>, i: nat, c: nat) {
    2 * i + 1 < |out| && i < |luma| && c < |chroma| && out[2 * i] == luma[i] && out[2 * i + 1] == chroma[c]
  }

  lemma Yuy2At<T>(luma: seq<T>, chroma: seq<T>, width: nat, rows: nat, y: nat, x: nat)
    requires Covers(|luma|, |chroma|, width, rows) && y < rows && x < width
    ensures Holds(Yuy2(luma, chroma, width, rows), luma, chroma, Span(y, width) + x, Span(Half(y), width) + x)
  {
    var out := Yuy2(luma, chroma, width, rows);
    var row := RowOfAt(luma, chroma, width, rows, y, x);
    SpanTwice(y, width);
    Yuy2Row(luma, chroma, width, rows, y);
    InRow(out, row, width, y, x, Span(y, width) + x);
  }

  lemma InRow<T>(out: seq<T>, row: seq<T>, width: nat, y: nat, x: nat, i: nat)
    requires Span(y, 2 * width) + 2 * width <= |out| && x < width && row == Row(out, 2 * width, 2 * width, y)
    requires 2 * i == Span(y, 2 * width) + 2 * x
    ensures out[2 * i] == row[2 * x] && out[2 * i + 1] == row[2 * x + 1]
  {}

  lemma RowOfAt<T>(luma: seq<T>, chroma: seq<T>, width: nat, rows: nat, y: nat, x: nat) returns (row: seq<T>)
    requires Covers(|luma|, |chroma|, width, rows) && y < rows && x < width
    ensures Span(y, width) + width <= |luma| && Span(Half(y), width) + width <= |chroma|
    ensures row == RowOf(luma, chroma, width, y) && |row| == 2 * width
    ensures row[2 * x] == luma[Span(y, width) + x] && row[2 * x + 1] == chroma[Span(Half(y), width) + x]
  {
    CoversRow(|luma|, |chroma|, width, rows, y);
    RowAt(luma, width, width, y, x);
    RowAt(chroma, width, width, Half(y), x);
    YuyRowAt(Row(luma, width, width, y), Row(chroma, width, width, Half(y)), x);
    row := RowOf(luma, chroma, width, y);
  }

  lemma {:induction false} YuyRowAt<T>(luma: seq<T>, chroma: seq<T>, x: nat)
    requires |luma| == |chroma| && x < |luma|
    ensures YuyRow(luma, chroma)[2 * x] == luma[x] && YuyRow(luma, chroma)[2 * x + 1] == chroma[x]
    decreases |luma|
  {
    var n := |luma| - 1;
    if x < n { YuyRowAt(luma[..n], chroma[..n], x); }
  }

  /** The same places, as products. */
  lemma Places(width: nat, height: nat, y: nat, x: nat)
    ensures Span(y, width) + x == y * width + x && Span(Half(y), width) + x == y / 2 * width + x
    ensures Span(height, width) == width * height && Span(height, 2 * width) == 2 * (width * height)
  {
    HalfIs(y);
    SpanIs(y, width); SpanIs(Half(y), width); SpanIs(height, width); SpanTwice(height, width);
  }

  /** Pixel i of the output has luma sample i and the chroma sample at `uv`. */
  ghost predicate PixelIs<T>(out: seq<T>, src: seq<T>, i: nat, uv: nat) {
    2 * i + 1 < |out| && i < |src| && uv < |src| && out[2 * i] == src[i] && out[2 * i + 1] == src[uv]
  }

  lemma PixelAt<T>(src: seq<T>, width: nat, height: nat, y: nat, x: nat)
    requires IsNv12(|src|, width, height) && y < height && x < width
    ensures PixelIs(Converted(src, width, height), src, Span(y, width) + x, Span(height, width) + Span(Half(y), width) + x)
  {
    var n := Span(height, width);
    Nv12Covers(|src|, width, height);
    Yuy2At(src[..n], src[n..], width, height, y, x);
    assert src[n..][Span(Half(y), width) + x] == src[n + Span(Half(y), width) + x];
  }

  /** Pixel (x, y) of the converted picture, at i: its luma is the picture's luma there, and its chroma
      sample, at c, is the one of row y / 2; together the samples fill the output. */
  lemma ConvertedAt<T>(src: seq<T>, width: nat, height: nat, y: nat, x: nat, i: nat, c: nat)
    requires IsNv12(|src|, width, height) && y < height && x < width
    requires i == y * width + x && c == width * height + y / 2 * width + x
    ensures |Converted(src, width, height)| == 2 * (width * height)
    ensures PixelIs(Converted(src, width, height), src, i, c)
  {
    PixelAt(src, width, height, y, x);
    Places(width, height, y, x);
  }
}
