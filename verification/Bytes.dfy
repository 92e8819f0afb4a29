/** Octets and the big-endian numbers that both ends of the camera link exchange. */
module Bytes {
  type Byte = b: int | 0 <= b < 256

  const TWO_32 := 0x1_0000_0000
  const TWO_64 := 0x1_0000_0000_0000_0000

  /** The four low bytes of a number, high byte first: what the shifts and casts leave of it. */
  function Be32(x: int): (r: seq<Byte>)
    ensures |r| == 4
  {
    [x / 0x100_0000 % 256, x / 0x1_0000 % 256, x / 0x100 % 256, x % 256]
  }

  function FromBe32(s: seq<Byte>): nat
    requires 4 <= |s|
  {
    var a: int, b: int, c: int, d: int := s[0], s[1], s[2], s[3];
    a * 0x100_0000 + b * 0x1_0000 + c * 0x100 + d
  }

  function Be64(x: int): (r: seq<Byte>)
    ensures |r| == 8
  {
    Be32(x / TWO_32) + Be32(x)
  }

  function FromBe64(s: seq<Byte>): nat
    requires 8 <= |s|
  {
    FromBe32(s) * TWO_32 + FromBe32(s[4..])
  }

  /** Where a number is cut between two digits, division and remainder give the two parts. */
  lemma Cut(x: int, q: int, r: int, n: int)
    requires 0 < n && x == q * n + r && 0 <= r < n
    ensures x / n == q && x % n == r
  {
    var k := x / n - q;
    assert k * n == r - x % n by { assert x == x / n * n + x % n; }
    if 0 < k { AtLeast(k, n); } else if k < 0 { AtLeast(-k, n); }
  }

  lemma AtLeast(k: int, n: int)
    requires 0 < n && 0 < k
    ensures n <= k * n
  {}

  lemma Be32Digits(x: int)
    ensures var a: int, b: int, c: int, d: int := Be32(x)[0], Be32(x)[1], Be32(x)[2], Be32(x)[3];
            x == x / TWO_32 * TWO_32 + a * 0x100_0000 + b * 0x1_0000 + c * 0x100 + d
  {
    var y1, d := x / 256, x % 256;
    var y2, c := y1 / 256, y1 % 256;
    var y3, b := y2 / 256, y2 % 256;
    var y4, a := y3 / 256, y3 % 256;
    Cut(x, y2, c * 0x100 + d, 0x1_0000);
    Cut(x, y3, b * 0x1_0000 + c * 0x100 + d, 0x100_0000);
    Cut(x, y4, a * 0x100_0000 + b * 0x1_0000 + c * 0x100 + d, TWO_32);
  }

  /** Reading what was written gives the number back, up to the width written. */
  lemma Be32RoundTrip(x: int, rest: seq<Byte>)
    ensures FromBe32(Be32(x) + rest) == x % TWO_32
  {
    Be32Digits(x);
  }

  lemma FromBe32Bound(s: seq<Byte>)
    requires 4 <= |s|
    ensures FromBe32(s) < TWO_32 && Be32(FromBe32(s)) == s[..4]
  {
    var a: int, b: int, c: int, d: int := s[0], s[1], s[2], s[3];
    var x := FromBe32(s);
    Cut(x, a * 0x1_0000 + b * 0x100 + c, d, 0x100);
    Cut(x, a * 0x100 + b, c * 0x100 + d, 0x1_0000);
    Cut(x, a, b * 0x1_0000 + c * 0x100 + d, 0x100_0000);
  }

  lemma Be64RoundTrip(x: int, rest: seq<Byte>)
    ensures FromBe64(Be64(x) + rest) == x % TWO_64
  {
    var s := Be64(x) + rest;
    assert s == Be32(x / TWO_32) + (Be32(x) + rest) && s[4..] == Be32(x) + rest;
    Be32RoundTrip(x / TWO_32, Be32(x) + rest);
    Be32RoundTrip(x, rest);
    var h, l := x / TWO_32, x % TWO_32;
    Cut(x, h / TWO_32, h % TWO_32 * TWO_32 + l, TWO_64);
  }
}
