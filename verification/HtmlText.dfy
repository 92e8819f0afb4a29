/** Strings made safe for HTML: the replacement passes of the converter, and decimal numbers. */
module HtmlText {
  /** A `replaceAll` whose pattern is one character. */
  function ReplaceAll(s: string, c: char, put: string): string {
    if s == "" then "" else (if s[0] == c then put else [s[0]]) + ReplaceAll(s[1..], c, put)
  }

  function EscapeHtml(s: string): string {
    ReplaceAll(ReplaceAll(ReplaceAll(ReplaceAll(ReplaceAll(s,
      '&', "&amp;"), '<', "&lt;"), '>', "&gt;"), '"', "&quot;"), '\'', "&#39;")
  }

  function EscapeAttribute(s: string): string { ReplaceAll(EscapeHtml(s), '`', "&#96;") }

  // ---------------------------------------------------------------- one pass instead of five or six

  /** The character reference that stands for a character, without its & and ;. */
  function RefName(c: char): string {
    if c == '&' then "amp" else if c == '<' then "lt" else if c == '>' then "gt"
    else if c == '"' then "quot" else if c == '\'' then "#39" else if c == '`' then "#96" else ""
  }

  predicate Special(c: char) { RefName(c) != "" }

  /** One character, written so that it can stand in text; `tick` also covers the grave accent. */
  function Written(c: char, tick: bool): string {
    if Special(c) && (tick || c != '`') then "&" + RefName(c) + ";" else [c]
  }

  function WrittenAll(s: string, tick: bool): string {
    if s == "" then "" else Written(s[0], tick) + WrittenAll(s[1..], tick)
  }

  lemma {:induction false} ReplaceJoined(a: string, b: string, c: char, put: string)
    ensures ReplaceAll(a + b, c, put) == ReplaceAll(a, c, put) + ReplaceAll(b, c, put)
  {
    if a == "" {
      assert a + b == b;
    } else {
      assert (a + b)[1..] == a[1..] + b;
      ReplaceJoined(a[1..], b, c, put);
    }
  }

  lemma {:induction false} ReplaceAbsent(s: string, c: char, put: string)
    requires c !in s
    ensures ReplaceAll(s, c, put) == s
  {
    if s != "" { ReplaceAbsent(s[1..], c, put); }
  }

  /** A pass over one character, whatever comes after it. */
  lemma ReplaceOne(x: char, rest: string, c: char, put: string)
    ensures ReplaceAll([x] + rest, c, put) == (if x == c then put else [x]) + ReplaceAll(rest, c, put)
  {
    assert ([x] + rest)[1..] == rest;
  }

  /** A pass leaves alone what an earlier pass put in. */
  lemma ReplaceAfter(done: string, rest: string, c: char, put: string)
    requires c !in done
    ensures ReplaceAll(done + rest, c, put) == done + ReplaceAll(rest, c, put)
  {
    ReplaceJoined(done, rest, c, put);
    ReplaceAbsent(done, c, put);
  }

  /** What the k-th pass looks for, and what it puts there. */
  function PassFor(k: nat): char {
    if k == 1 then '&' else if k == 2 then '<' else if k == 3 then '>'
    else if k == 4 then '"' else if k == 5 then '\'' else '`'
  }

  function PassPuts(k: nat): string {
    if k == 1 then "&amp;" else if k == 2 then "&lt;" else if k == 3 then "&gt;"
    else if k == 4 then "&quot;" else if k == 5 then "&#39;" else "&#96;"
  }

  function Passes(s: string, k: nat): string {
    if k == 0 then s else ReplaceAll(Passes(s, k - 1), PassFor(k), PassPuts(k))
  }

  /** The pass that looks for a character. */
  function PassOf(c: char): nat {
    if c == '&' then 1 else if c == '<' then 2 else if c == '>' then 3
    else if c == '"' then 4 else if c == '\'' then 5 else if c == '`' then 6 else 7
  }

  /** What the passes before the k-th have made of a character, this one makes of what they left. */
  lemma PassedOn(c: char, k: nat)
    requires 1 <= k <= 6
    ensures PassOf(c) < k ==> PassFor(k) !in Written(c, true)
    ensures PassOf(c) == k ==> c == PassFor(k) && PassPuts(k) == Written(c, true)
    ensures k < PassOf(c) ==> c != PassFor(k)
  {}

  /** After k passes the first character has been written, if its pass is among them, and stays. */
  lemma {:induction false} FirstWritten(s: string, k: nat)
    requires s != "" && k <= 6
    ensures Passes(s, k) == (if PassOf(s[0]) <= k then Written(s[0], true) else [s[0]]) + Passes(s[1..], k)
    decreases k
  {
    var c, rest := s[0], s[1..];
    if k == 0 {
      assert s == [c] + rest;
    } else {
      FirstWritten(s, k - 1);
      PassedOn(c, k);
      if PassOf(c) < k {
        ReplaceAfter(Written(c, true), Passes(rest, k - 1), PassFor(k), PassPuts(k));
      } else {
        ReplaceOne(c, Passes(rest, k - 1), PassFor(k), PassPuts(k));
      }
    }
  }

  lemma {:induction false} PassesMap(s: string, tick: bool)
    ensures Passes(s, if tick then 6 else 5) == WrittenAll(s, tick)
  {
    var k := if tick then 6 else 5;
    if s == "" {
      NothingPassed(k);
    } else {
      FirstWritten(s, k);
      PassesMap(s[1..], tick);
    }
  }

  lemma {:induction false} NothingPassed(k: nat)
    requires k <= 6
    ensures Passes("", k) == ""
  {
    if k != 0 { NothingPassed(k - 1); }
  }

  /** The passes, one after another, change each character once: no pass touches what another put in. */
  lemma OneMap(s: string)
    ensures EscapeHtml(s) == WrittenAll(s, false)
    ensures EscapeAttribute(s) == WrittenAll(s, true)
  {
    assert EscapeHtml(s) == Passes(s, 5) by {
      assert Passes(s, 1) == ReplaceAll(s, '&', "&amp;");
      assert Passes(s, 2) == ReplaceAll(Passes(s, 1), '<', "&lt;");
      assert Passes(s, 3) == ReplaceAll(Passes(s, 2), '>', "&gt;");
      assert Passes(s, 4) == ReplaceAll(Passes(s, 3), '"', "&quot;");
    }
    assert EscapeAttribute(s) == Passes(s, 6);
    PassesMap(s, false);
    PassesMap(s, true);
  }

  lemma {:induction false} WrittenJoined(a: string, b: string, tick: bool)
    ensures WrittenAll(a + b, tick) == WrittenAll(a, tick) + WrittenAll(b, tick)
  {
    if a == "" {
      assert a + b == b;
    } else {
      assert (a + b)[1..] == a[1..] + b;
      WrittenJoined(a[1..], b, tick);
    }
  }

  /** What the escapes do to a string, character by character. */
  lemma EscapedBy(c: char, rest: string)
    ensures EscapeHtml("") == EscapeAttribute("") == ""
    ensures EscapeHtml([c] + rest) == EscapeHtml([c]) + EscapeHtml(rest)
    ensures EscapeAttribute([c] + rest) == EscapeAttribute([c]) + EscapeAttribute(rest)
    ensures EscapeHtml([c]) == if c == '&' then "&amp;" else if c == '<' then "&lt;" else if c == '>' then "&gt;"
                               else if c == '"' then "&quot;" else if c == '\'' then "&#39;" else [c]
    ensures EscapeAttribute([c]) == if c == '`' then "&#96;" else EscapeHtml([c])
  {
    OneMap([c] + rest);
    OneMap([c]);
    OneMap(rest);
    OneMap("");
    WrittenJoined([c], rest, false);
    WrittenJoined([c], rest, true);
    OneWritten(c);
  }

  lemma OneWritten(c: char)
    ensures WrittenAll([c], false) == Written(c, false) && WrittenAll([c], true) == Written(c, true)
    ensures "&" + "amp" + ";" == "&amp;" && "&" + "lt" + ";" == "&lt;" && "&" + "gt" + ";" == "&gt;"
    ensures "&" + "quot" + ";" == "&quot;" && "&" + "#39" + ";" == "&#39;" && "&" + "#96" + ";" == "&#96;"
  {
    assert [c][1..] == "";
  }

  // ---------------------------------------------------------------- numbers

  function Digit(d: nat): (c: char)
    requires d < 10
    ensures c as int == '0' as int + d
  {
    ['0', '1', '2', '3', '4', '5', '6', '7', '8', '9'][d]
  }

  function Digits(n: nat): string {
    if n < 10 then [Digit(n)] else Digits(n / 10) + [Digit(n % 10)]
  }

  function Decimal(n: int): string { if n < 0 then "-" + Digits(-n) else Digits(n) }

  function DigitValue(c: char): nat {
    if c == '0' then 0 else if c == '1' then 1 else if c == '2' then 2 else if c == '3' then 3
    else if c == '4' then 4 else if c == '5' then 5 else if c == '6' then 6 else if c == '7' then 7
    else if c == '8' then 8 else 9
  }

  function Number(s: string): nat {
    if s == "" then 0 else 10 * Number(s[..|s| - 1]) + DigitValue(s[|s| - 1])
  }

  /** A printed number reads back, so different numbers are printed differently. */
  lemma {:induction false} DigitsReadBack(n: nat)
    ensures Number(Digits(n)) == n
  {
    if 10 <= n {
      DigitsReadBack(n / 10);
      assert Digits(n)[..|Digits(n)| - 1] == Digits(n / 10);
    } else {
      assert Digits(n)[..0] == "";
    }
  }

  predicate IsDigit(c: char) { '0' <= c <= '9' }

  lemma {:induction false} DigitsOnly(n: nat)
    ensures Digits(n) != "" && forall c :: c in Digits(n) ==> IsDigit(c)
  {
    if 10 <= n { DigitsOnly(n / 10); }
  }
}
