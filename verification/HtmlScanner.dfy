/**
 A tokenizer for the part of HTML the converter writes, after section 13.2.5 of the HTML Standard,
 with the stack of open elements.  Whatever that part does not need leads to Broken, a state that
 is never left.
 */
module HtmlScanner {
  import opened HtmlText

  datatype Attr = Attr(name: string, value: string)

  datatype Event = Open(name: string, attrs: seq<Attr>) | Close(name: string) | Char(c: char)

  datatype Mode =
    | Data
    | TagOpen
    | TagName(closing: bool, name: string)
    | BeforeAttr(name: string, attrs: seq<Attr>)
    | AttrName(name: string, attrs: seq<Attr>, attr: string)
    | BeforeValue(name: string, attrs: seq<Attr>, attr: string)
    | Value(name: string, attrs: seq<Attr>, attr: string, value: string)
    | AfterValue(name: string, attrs: seq<Attr>)
    | Reference(back: Mode, letters: string)
    | Broken

  datatype Scanner = Scanner(mode: Mode, stack: seq<string>, events: seq<Event>)

  /** Elements without an end tag. */
  const VOID: set<string> := {"area", "base", "br", "col", "embed", "hr", "img", "input", "link", "meta",
                              "source", "track", "wbr"}

  predicate Letter(c: char) { 'a' <= c <= 'z' }

  predicate NameChar(c: char) { Letter(c) || IsDigit(c) }

  function OpenTag(s: Scanner, name: string, attrs: seq<Attr>): Scanner {
    Scanner(Data, if name in VOID then s.stack else s.stack + [name], s.events + [Open(name, attrs)])
  }

  function CloseTag(s: Scanner, name: string): Scanner {
    if s.stack == [] || s.stack[|s.stack| - 1] != name then To(s, Broken)
    else Scanner(Data, s.stack[..|s.stack| - 1], s.events + [Close(name)])
  }

  /** Text being taken: in the data or in an attribute value. */
  predicate Taking(m: Mode) { m.Data? || m.Value? }

  function Put(s: Scanner, v: string): Scanner
    requires Taking(s.mode)
  {
    match s.mode
    case Data => Scanner(Data, s.stack, s.events + Chars(v))
    case Value(name, attrs, attr, value) => Scanner(Value(name, attrs, attr, value + v), s.stack, s.events)
  }

  function Chars(v: string): (r: seq<Event>)
    ensures |r| == |v|
  {
    seq(|v|, i requires 0 <= i < |v| => Char(v[i]))
  }

  function To(s: Scanner, m: Mode): Scanner { Scanner(m, s.stack, s.events) }

  function InData(s: Scanner, c: char): Scanner
    requires s.mode.Data?
  {
    if c == '<' then To(s, TagOpen) else if c == '&' then To(s, Reference(Data, "")) else Put(s, [c])
  }

  function InTagName(s: Scanner, closing: bool, name: string, c: char): Scanner {
    if NameChar(c) then To(s, TagName(closing, name + [c]))
    else if name == "" then To(s, Broken)
    else if c == '>' then if closing then CloseTag(s, name) else OpenTag(s, name, [])
    else if c == ' ' && !closing then To(s, BeforeAttr(name, []))
    else To(s, Broken)
  }

  function InAttrName(s: Scanner, name: string, attrs: seq<Attr>, attr: string, c: char): Scanner {
    if Letter(c) || c == '-' then To(s, AttrName(name, attrs, attr + [c]))
    else if c == '=' then To(s, BeforeValue(name, attrs, attr))
    else To(s, Broken)
  }

  function InValue(s: Scanner, c: char): Scanner
    requires s.mode.Value?
  {
    if c == '"' then To(s, AfterValue(s.mode.name, s.mode.attrs + [Attr(s.mode.attr, s.mode.value)]))
    else if c == '&' then To(s, Reference(s.mode, ""))
    else Put(s, [c])
  }

  function AfterQuote(s: Scanner, name: string, attrs: seq<Attr>, c: char): Scanner {
    if c == '>' then OpenTag(s, name, attrs)
    else if c == ' ' then To(s, BeforeAttr(name, attrs))
    else To(s, Broken)
  }

  function InReference(s: Scanner, back: Mode, letters: string, c: char): Scanner {
    if c == ';' then Resolved(s, back, letters)
    else if NameChar(c) || c == '#' then To(s, Reference(back, letters + [c]))
    else To(s, Broken)
  }

  function Step(s: Scanner, c: char): Scanner {
    match s.mode
    case Data => InData(s, c)
    case TagOpen =>
      if c == '/' then To(s, TagName(true, ""))
      else if Letter(c) then To(s, TagName(false, [c]))
      else To(s, Broken)
    case TagName(closing, name) => InTagName(s, closing, name, c)
    case BeforeAttr(name, attrs) => To(s, if Letter(c) then AttrName(name, attrs, [c]) else Broken)
    case AttrName(name, attrs, attr) => InAttrName(s, name, attrs, attr, c)
    case BeforeValue(name, attrs, attr) => To(s, if c == '"' then Value(name, attrs, attr, "") else Broken)
    case Value(_, _, _, _) => InValue(s, c)
    case AfterValue(name, attrs) => AfterQuote(s, name, attrs, c)
    case Reference(back, letters) => InReference(s, back, letters, c)
    case Broken => s
  }

  /** The character a reference names. */
  function Named(letters: string): string {
    if letters == "amp" then "&" else if letters == "lt" then "<" else if letters == "gt" then ">"
    else if letters == "quot" then "\"" else if letters == "#39" then "'" else if letters == "#96" then "`" else ""
  }

  function Resolved(s: Scanner, back: Mode, letters: string): Scanner {
    if Taking(back) && Named(letters) != "" then Put(To(s, back), Named(letters)) else To(s, Broken)
  }

  function Scan(s: Scanner, w: string): Scanner
    decreases |w|
  {
    if w == "" then s else Scan(Step(s, w[0]), w[1..])
  }

  lemma {:induction false} ScanJoined(s: Scanner, a: string, b: string)
    ensures Scan(s, a + b) == Scan(Scan(s, a), b)
    decreases |a|
  {
    if a == "" {
      assert a + b == b;
    } else {
      assert (a + b)[1..] == a[1..] + b;
      ScanJoined(Step(s, a[0]), a[1..], b);
    }
  }

  /** Two pieces, one after the other. */
  lemma Then(s: Scanner, a: string, t: Scanner, b: string, u: Scanner)
    requires Scan(s, a) == t && Scan(t, b) == u
    ensures Scan(s, a + b) == u
  {
    ScanJoined(s, a, b);
  }

  lemma ScanOne(s: Scanner, c: char)
    ensures Scan(s, [c]) == Step(s, c)
  {
    assert [c][1..] == "";
  }

  // ---------------------------------------------------------------- text read as what it stands for

  /** Scanning this text, in the data or in a value, takes in that string. */
  ghost predicate Reads(w: string, v: string) {
    forall s: Scanner {:trigger Scan(s, w)} :: Taking(s.mode) ==> Scan(s, w) == Put(s, v)
  }

  lemma PutTwice(s: Scanner, v: string, w: string)
    requires Taking(s.mode)
    ensures Put(Put(s, v), w) == Put(s, v + w)
  {
    if s.mode.Data? {
      assert Chars(v) + Chars(w) == Chars(v + w);
      assert s.events + Chars(v) + Chars(w) == s.events + Chars(v + w);
    } else {
      assert s.mode.value + v + w == s.mode.value + (v + w);
    }
  }

  lemma ReadsNothing()
    ensures Reads("", "")
  {
    forall s: Scanner | Taking(s.mode) ensures Put(s, "") == s {
      if s.mode.Data? { assert s.events + Chars("") == s.events; } else { assert s.mode.value + "" == s.mode.value; }
    }
  }

  lemma ReadsJoined(w: string, v: string, x: string, y: string)
    requires Reads(w, v) && Reads(x, y)
    ensures Reads(w + x, v + y)
  {
    forall s: Scanner | Taking(s.mode) ensures Scan(s, w + x) == Put(s, v + y) {
      ScanJoined(s, w, x);
      PutTwice(s, v, y);
    }
  }

  lemma {:induction false} LettersScanned(s: Scanner, back: Mode, letters: string, w: string)
    requires s.mode == Reference(back, letters) && forall c :: c in w ==> NameChar(c) || c == '#'
    ensures Scan(s, w) == To(s, Reference(back, letters + w))
    decreases |w|
  {
    if w == "" {
      assert letters + w == letters;
    } else {
      assert w[0] in w && forall c :: c in w[1..] ==> c in w;
      LettersScanned(Step(s, w[0]), back, letters + [w[0]], w[1..]);
      assert letters + [w[0]] + w[1..] == letters + w;
    }
  }

  lemma NamedBack(c: char)
    requires Special(c)
    ensures Named(RefName(c)) == [c] && forall d :: d in RefName(c) ==> NameChar(d) || d == '#'
  {}

  lemma ReferenceTaken(s: Scanner, c: char)
    requires Special(c) && Taking(s.mode)
    ensures Scan(s, "&" + RefName(c) + ";") == Put(s, [c])
  {
    NamedBack(c);
    var t, u := To(s, Reference(s.mode, "")), To(s, Reference(s.mode, RefName(c)));
    ScanOne(s, '&');
    LettersScanned(t, s.mode, "", RefName(c));
    assert "" + RefName(c) == RefName(c);
    ScanOne(u, ';');
    Then(s, "&", t, RefName(c), u);
    Then(s, "&" + RefName(c), u, ";", Put(s, [c]));
  }

  lemma ReferenceReads(c: char)
    requires Special(c)
    ensures Reads("&" + RefName(c) + ";", [c])
  {
    forall s: Scanner | Taking(s.mode) ensures Scan(s, "&" + RefName(c) + ";") == Put(s, [c]) {
      ReferenceTaken(s, c);
    }
  }

  /** What need not be escaped in text or between double quotes. */
  predicate Plain(c: char) { c != '&' && c != '<' && c != '"' }

  lemma PlainTaken(s: Scanner, c: char)
    requires Plain(c) && Taking(s.mode)
    ensures Scan(s, [c]) == Put(s, [c])
  {
    ScanOne(s, c);
  }

  lemma PlainReads(c: char)
    requires Plain(c)
    ensures Reads([c], [c])
  {
    forall s: Scanner | Taking(s.mode) ensures Scan(s, [c]) == Put(s, [c]) { PlainTaken(s, c); }
  }

  lemma {:induction false} WrittenReads(v: string, tick: bool)
    ensures Reads(WrittenAll(v, tick), v)
  {
    if v == "" {
      ReadsNothing();
    } else {
      var c := v[0];
      if Special(c) && (tick || c != '`') { ReferenceReads(c); } else { PlainReads(c); }
      WrittenReads(v[1..], tick);
      ReadsJoined(Written(c, tick), [c], WrittenAll(v[1..], tick), v[1..]);
      assert [c] + v[1..] == v;
    }
  }

  /** No string, however written, gets out of the text or the quotes it is put in. */
  lemma EscapedReads(v: string)
    ensures Reads(EscapeHtml(v), v) && Reads(EscapeAttribute(v), v)
  {
    OneMap(v);
    WrittenReads(v, false);
    WrittenReads(v, true);
  }

  lemma {:induction false} LiteralReads(v: string)
    requires forall c :: c in v ==> Plain(c)
    ensures Reads(v, v)
  {
    if v == "" {
      ReadsNothing();
    } else {
      PlainReads(v[0]);
      LiteralReads(v[1..]);
      ReadsJoined([v[0]], [v[0]], v[1..], v[1..]);
      assert [v[0]] + v[1..] == v;
    }
  }

  // ---------------------------------------------------------------- tags

  predicate IsName(name: string) { name != "" && Letter(name[0]) && forall c :: c in name ==> NameChar(c) }

  predicate IsAttrName(name: string) {
    name != "" && Letter(name[0]) && forall c :: c in name ==> Letter(c) || c == '-'
  }

  function AttrText(raw: seq<Attr>): string {
    if raw == [] then "" else " " + raw[0].name + "=\"" + raw[0].value + "\"" + AttrText(raw[1..])
  }

  function StartTag(name: string, raw: seq<Attr>): string { "<" + name + AttrText(raw) + ">" }

  function EndTag(name: string): string { "</" + name + ">" }

  /** The attributes as written are read as these. */
  ghost predicate AttrRead(raw: Attr, attr: Attr) {
    IsAttrName(raw.name) && raw.name == attr.name && Reads(raw.value, attr.value)
  }

  ghost predicate AttrsRead(raw: seq<Attr>, attrs: seq<Attr>) {
    |raw| == |attrs| && forall i :: 0 <= i < |raw| ==> AttrRead(raw[i], attrs[i])
  }

  lemma {:induction false} NameScanned(s: Scanner, closing: bool, name: string, w: string)
    requires s.mode == TagName(closing, name) && forall c :: c in w ==> NameChar(c)
    ensures Scan(s, w) == To(s, TagName(closing, name + w))
    decreases |w|
  {
    if w == "" {
      assert name + w == name;
    } else {
      assert w[0] in w && forall c :: c in w[1..] ==> c in w;
      NameScanned(Step(s, w[0]), closing, name + [w[0]], w[1..]);
      assert name + [w[0]] + w[1..] == name + w;
    }
  }

  lemma {:induction false} AttrNameScanned(s: Scanner, name: string, attrs: seq<Attr>, attr: string, w: string)
    requires s.mode == AttrName(name, attrs, attr) && forall c :: c in w ==> Letter(c) || c == '-'
    ensures Scan(s, w) == To(s, AttrName(name, attrs, attr + w))
    decreases |w|
  {
    if w == "" {
      assert attr + w == attr;
    } else {
      assert w[0] in w && forall c :: c in w[1..] ==> c in w;
      AttrNameScanned(Step(s, w[0]), name, attrs, attr + [w[0]], w[1..]);
      assert attr + [w[0]] + w[1..] == attr + w;
    }
  }

  /** Inside a start tag, after its name or after an attribute. */
  function Within(name: string, attrs: seq<Attr>): Mode {
    if attrs == [] then TagName(false, name) else AfterValue(name, attrs)
  }

  lemma AttrNamed(s: Scanner, name: string, done: seq<Attr>, k: string)
    requires name != "" && s.mode == Within(name, done) && IsAttrName(k)
    ensures Scan(s, " " + k) == To(s, AttrName(name, done, k))
  {
    ScanOne(s, ' ');
    var t := To(s, BeforeAttr(name, done));
    ScanOne(t, k[0]);
    var u := To(t, AttrName(name, done, [k[0]]));
    AttrNameScanned(u, name, done, [k[0]], k[1..]);
    assert k == [k[0]] + k[1..];
    Then(t, [k[0]], u, k[1..], To(s, AttrName(name, done, k)));
    Then(s, " ", t, k, To(s, AttrName(name, done, k)));
  }

  lemma ValueScanned(s: Scanner, name: string, done: seq<Attr>, attr: Attr, v: string)
    requires s.mode == Value(name, done, attr.name, "") && Reads(v, attr.value)
    ensures Scan(s, v + "\"") == To(s, AfterValue(name, done + [attr]))
  {
    var t := To(s, Value(name, done, attr.name, attr.value));
    assert "" + attr.value == attr.value;
    assert Scan(s, v) == t;
    ScanOne(t, '"');
    Then(s, v, t, "\"", To(s, AfterValue(name, done + [attr])));
  }

  lemma AttrScanned(s: Scanner, name: string, done: seq<Attr>, raw: Attr, attr: Attr)
    requires name != "" && s.mode == Within(name, done) && AttrRead(raw, attr)
    ensures Scan(s, " " + raw.name + "=\"" + raw.value + "\"") == To(s, Within(name, done + [attr]))
  {
    var k, v := raw.name, raw.value;
    var t, u := To(s, AttrName(name, done, k)), To(s, Value(name, done, k, ""));
    var after := To(s, AfterValue(name, done + [attr]));
    AttrNamed(s, name, done, k);
    QuoteOpened(t);
    ValueScanned(u, name, done, attr, v);
    Then(s, " " + k, t, "=\"", u);
    Then(s, " " + k + "=\"", u, v + "\"", after);
    assert " " + k + "=\"" + v + "\"" == " " + k + "=\"" + (v + "\"");
  }

  lemma QuoteOpened(s: Scanner)
    requires s.mode.AttrName?
    ensures Scan(s, "=\"") == To(s, Value(s.mode.name, s.mode.attrs, s.mode.attr, ""))
  {
    assert "=\"" == "=" + "\"";
    ScanJoined(s, "=", "\"");
    ScanOne(s, '=');
    ScanOne(To(s, BeforeValue(s.mode.name, s.mode.attrs, s.mode.attr)), '"');
  }

  lemma {:induction false} AttrsScanned(s: Scanner, name: string, done: seq<Attr>, raw: seq<Attr>, attrs: seq<Attr>)
    requires name != "" && s.mode == Within(name, done) && AttrsRead(raw, attrs)
    ensures Scan(s, AttrText(raw)) == To(s, Within(name, done + attrs))
    decreases |raw|
  {
    if raw == [] {
      assert done + attrs == done;
    } else {
      assert AttrRead(raw[0], attrs[0]);
      AttrScanned(s, name, done, raw[0], attrs[0]);
      var t := To(s, Within(name, done + [attrs[0]]));
      AttrsScanned(t, name, done + [attrs[0]], raw[1..], attrs[1..]);
      assert done + [attrs[0]] + attrs[1..] == done + attrs;
      Then(s, " " + raw[0].name + "=\"" + raw[0].value + "\"", t, AttrText(raw[1..]), To(s, Within(name, done + attrs)));
    }
  }

  lemma NameOpened(s: Scanner, name: string)
    requires s.mode.Data? && IsName(name)
    ensures Scan(s, "<" + name) == To(s, TagName(false, name))
  {
    ScanOne(s, '<');
    var t := To(s, TagOpen);
    ScanOne(t, name[0]);
    var u := To(s, TagName(false, [name[0]]));
    NameScanned(u, false, [name[0]], name[1..]);
    assert name == [name[0]] + name[1..];
    Then(t, [name[0]], u, name[1..], To(s, TagName(false, name)));
    Then(s, "<", t, name, To(s, TagName(false, name)));
  }

  lemma StartScanned(s: Scanner, name: string, raw: seq<Attr>, attrs: seq<Attr>)
    requires s.mode.Data? && IsName(name) && AttrsRead(raw, attrs)
    ensures Scan(s, StartTag(name, raw)) == OpenTag(s, name, attrs)
  {
    var t, u := To(s, TagName(false, name)), To(s, Within(name, attrs));
    NameOpened(s, name);
    AttrsScanned(t, name, [], raw, attrs);
    assert [] + attrs == attrs;
    ScanOne(u, '>');
    Then(s, "<" + name, t, AttrText(raw), u);
    Then(s, "<" + name + AttrText(raw), u, ">", OpenTag(s, name, attrs));
  }

  lemma EndScanned(s: Scanner, name: string)
    requires s.mode.Data? && IsName(name)
    ensures Scan(s, EndTag(name)) == CloseTag(s, name)
  {
    assert "</" == "<" + "/";
    ScanJoined(s, "</" + name, ">");
    ScanJoined(s, "</", name);
    ScanJoined(s, "<", "/");
    ScanOne(s, '<');
    ScanOne(To(s, TagOpen), '/');
    NameScanned(To(s, TagName(true, "")), true, "", name);
    assert "" + name == name;
    ScanOne(To(s, TagName(true, name)), '>');
  }

  // ---------------------------------------------------------------- well-nested pieces

  /** From text mode back to text mode, with the same elements open, reporting just these events. */
  ghost predicate Emits(w: string, events: seq<Event>) {
    forall s: Scanner {:trigger Scan(s, w)} :: s.mode.Data? ==> Scan(s, w) == Scanner(Data, s.stack, s.events + events)
  }

  lemma EmitsNothing()
    ensures Emits("", [])
  {
    forall s: Scanner | s.mode.Data? ensures s.events + [] == s.events {}
  }

  lemma EmitsText(w: string, v: string)
    requires Reads(w, v)
    ensures Emits(w, Chars(v))
  {}

  lemma Grouped(x: seq<Event>, y: seq<Event>, z: seq<Event>)
    ensures x + y + z == x + (y + z)
  {}

  lemma JoinedAt(s: Scanner, a: string, x: seq<Event>, b: string, y: seq<Event>)
    requires s.mode.Data? && Emits(a, x) && Emits(b, y)
    ensures Scan(s, a + b) == Scanner(Data, s.stack, s.events + (x + y))
  {
    var t := Scanner(Data, s.stack, s.events + x);
    Grouped(s.events, x, y);
    assert Scan(s, a) == t && Scan(t, b) == Scanner(Data, s.stack, s.events + x + y);
    Then(s, a, t, b, Scanner(Data, s.stack, s.events + (x + y)));
  }

  lemma EmitsJoined(a: string, x: seq<Event>, b: string, y: seq<Event>)
    requires Emits(a, x) && Emits(b, y)
    ensures Emits(a + b, x + y)
  {
    forall s: Scanner | s.mode.Data? ensures Scan(s, a + b) == Scanner(Data, s.stack, s.events + (x + y)) {
      JoinedAt(s, a, x, b, y);
    }
  }

  lemma ElementAt(s: Scanner, name: string, raw: seq<Attr>, attrs: seq<Attr>, inner: string, events: seq<Event>)
    requires s.mode.Data? && IsName(name) && name !in VOID && AttrsRead(raw, attrs) && Emits(inner, events)
    ensures Scan(s, StartTag(name, raw) + inner + EndTag(name)) ==
            Scanner(Data, s.stack, s.events + ([Open(name, attrs)] + events + [Close(name)]))
  {
    StartScanned(s, name, raw, attrs);
    var t := OpenTag(s, name, attrs);
    var u := Scanner(Data, t.stack, t.events + events);
    assert Scan(t, inner) == u;
    Then(s, StartTag(name, raw), t, inner, u);
    EndScanned(u, name);
    assert u.stack[..|u.stack| - 1] == s.stack;
    assert u.events + [Close(name)] == s.events + ([Open(name, attrs)] + events + [Close(name)]);
    Then(s, StartTag(name, raw) + inner, u, EndTag(name), CloseTag(u, name));
  }

  /** An element around a well-nested piece is a well-nested piece. */
  lemma EmitsElement(name: string, raw: seq<Attr>, attrs: seq<Attr>, inner: string, events: seq<Event>)
    requires IsName(name) && name !in VOID && AttrsRead(raw, attrs) && Emits(inner, events)
    ensures Emits(StartTag(name, raw) + inner + EndTag(name), [Open(name, attrs)] + events + [Close(name)])
  {
    var w, e := StartTag(name, raw) + inner + EndTag(name), [Open(name, attrs)] + events + [Close(name)];
    forall s: Scanner | s.mode.Data? ensures Scan(s, w) == Scanner(Data, s.stack, s.events + e) {
      ElementAt(s, name, raw, attrs, inner, events);
    }
  }

  lemma EmitsVoid(name: string)
    requires IsName(name) && name in VOID
    ensures Emits(StartTag(name, []), [Open(name, [])])
  {
    forall s: Scanner | s.mode.Data?
      ensures Scan(s, StartTag(name, [])) == Scanner(Data, s.stack, s.events + [Open(name, [])])
    {
      StartScanned(s, name, [], []);
    }
  }
}
