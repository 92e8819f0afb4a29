/** Whatever the tree and the strings in it, the renderer's output is read back as the document. */
module MdxNesting {
  import opened HtmlText
  import opened HtmlScanner
  import opened MdxRender
  import opened Options

  /** Read from text mode back to text mode as these events, and empty only if there are none. */
  ghost predicate Shows(html: string, events: seq<Event>) {
    Emits(html, events) && (html == "" <==> events == [])
  }

  lemma ShowsNothing()
    ensures Shows("", [])
  {
    EmitsNothing();
  }

  lemma ShowsJoined(a: string, x: seq<Event>, b: string, y: seq<Event>)
    requires Shows(a, x) && Shows(b, y)
    ensures Shows(a + b, x + y)
  {
    EmitsJoined(a, x, b, y);
  }

  /** A literal, or a printed number. */
  lemma ShowsLiteral(v: string)
    requires forall c :: c in v ==> Plain(c)
    ensures Shows(v, Chars(v))
  {
    LiteralReads(v);
    EmitsText(v, v);
  }

  lemma ShowsEscaped(v: string)
    ensures Shows(EscapeHtml(v), Chars(v))
  {
    EscapedReads(v);
    EmitsText(EscapeHtml(v), v);
    OneMap(v);
  }

  lemma ShowsVoid(name: string)
    requires IsName(name) && name in VOID
    ensures Shows(StartTag(name, []), Alone(name))
  {
    EmitsVoid(name);
  }

  lemma ShowsElement(name: string, raw: seq<Attr>, attrs: seq<Attr>, inner: string, events: seq<Event>)
    requires IsName(name) && name !in VOID && AttrsRead(raw, attrs) && Shows(inner, events)
    ensures Shows(Element(name, raw, inner), Around(name, attrs, events))
  {
    EmitsElement(name, raw, attrs, inner, events);
  }

  lemma ShowsPlain(name: string, inner: string, events: seq<Event>)
    requires IsName(name) && name !in VOID && Shows(inner, events)
    ensures Shows(Element(name, [], inner), Around(name, [], events))
  {
    ShowsElement(name, [], [], inner, events);
  }

  lemma DecimalShows(n: int)
    ensures Reads(Decimal(n), Decimal(n)) && Shows(Decimal(n), Chars(Decimal(n)))
  {
    DigitsOnly(if n < 0 then -n else n);
    LiteralReads(Decimal(n));
    ShowsLiteral(Decimal(n));
  }

  // ---------------------------------------------------------------- the pieces with attributes

  lemma OneAttr(name: string, w: string, v: string)
    requires IsAttrName(name) && Reads(w, v)
    ensures AttrsRead([Attr(name, w)], [Attr(name, v)])
  {
    assert AttrRead(Attr(name, w), Attr(name, v));
  }

  lemma TwoAttrs(raw: Attr, attr: Attr, raw': Attr, attr': Attr)
    requires AttrRead(raw, attr) && AttrRead(raw', attr')
    ensures AttrsRead([raw, raw'], [attr, attr'])
  {}

  lemma CodeShows(lang: string, value: string)
    ensures Shows(CodeHtml(lang, value), CodeShown(lang, value))
  {
    ShowsEscaped(value);
    var language := if lang != "" then [Attr("data-language", EscapeAttribute(lang))] else [];
    var attrs := if lang != "" then [Attr("data-language", lang)] else [];
    EscapedReads(lang);
    assert AttrsRead(language, attrs) by {
      if lang != "" { OneAttr("data-language", EscapeAttribute(lang), lang); }
    }
    ShowsElement("code", language, attrs, EscapeHtml(value), Chars(value));
    ShowsPlain("pre", Element("code", language, EscapeHtml(value)), Around("code", attrs, Chars(value)));
  }

  lemma ListStartReads(ordered: bool, start: Option<int>)
    ensures AttrsRead(ListStart(ordered, start), ListStart(ordered, start))
  {
    if ordered && start.Some? && start.value != 1 {
      DecimalShows(start.value);
      OneAttr("start", Decimal(start.value), Decimal(start.value));
    }
  }

  /** An element with one literal attribute around literal text. */
  lemma LabelledShows(name: string, attr: Attr, text: string)
    requires IsName(name) && name !in VOID && IsAttrName(attr.name)
    requires (forall c :: c in attr.value ==> Plain(c)) && forall c :: c in text ==> Plain(c)
    ensures Shows(Element(name, [attr], text), Around(name, [attr], Chars(text)))
  {
    LiteralReads(attr.value);
    OneAttr(attr.name, attr.value, attr.value);
    ShowsLiteral(text);
    ShowsElement(name, [attr], [attr], text, Chars(text));
  }

  lemma LiteralAttr(name: string, v: string)
    requires IsAttrName(name) && forall c :: c in v ==> Plain(c)
    ensures AttrRead(Attr(name, v), Attr(name, v))
  {
    LiteralReads(v);
  }

  lemma CheckShows(checked: Option<bool>)
    ensures Shows(CheckHtml(checked), CheckShown(checked))
  {
    if checked.None? {
      ShowsNothing();
    } else if checked.value {
      TickShows("completado", "☑ ");
    } else {
      TickShows("pendiente", "☐ ");
    }
  }

  lemma TickShows(state: string, text: string)
    requires (forall c :: c in state ==> Plain(c)) && forall c :: c in text ==> Plain(c)
    ensures Shows(Element("span", [Attr("aria-label", state)], text), Around("span", [Attr("aria-label", state)], Chars(text)))
  {
    LabelledShows("span", Attr("aria-label", state), text);
  }

  lemma LinkAttrsRead(href: string, title: string)
    ensures AttrsRead(LinkAttrs(href, title), LinkShown(href, title))
  {
    EscapedReads(href);
    EscapedReads(title);
    OneAttr("href", EscapeAttribute(href), href);
    OneAttr("title", EscapeAttribute(title), title);
    TwoAttrs(Attr("href", EscapeAttribute(href)), Attr("href", href), Attr("title", EscapeAttribute(title)), Attr("title", title));
  }

  function ImageAttrs(d: string): seq<Attr> {
    [Attr("class", "linkedin-asset-placeholder"), Attr("data-linkedin-asset", d)]
  }

  lemma AssetAttrName()
    ensures IsAttrName("data-linkedin-asset")
  {}

  lemma ImageAttrsRead(d: string)
    requires Reads(d, d)
    ensures AttrsRead(ImageAttrs(d), ImageAttrs(d))
  {
    AssetAttrName();
    LiteralAttr("class", "linkedin-asset-placeholder");
    OneAttr("data-linkedin-asset", d, d);
    TwoAttrs(ImageAttrs(d)[0], ImageAttrs(d)[0], ImageAttrs(d)[1], ImageAttrs(d)[1]);
  }

  lemma ImageShows(index: nat, alt: string, url: string)
    ensures Shows(ImageHtml(index, alt, url), ImageShown(index, alt, url))
  {
    var d := Decimal(index);
    DecimalShows(index);
    ImageAttrsRead(d);
    ImageInside(d, alt, url);
    ShowsElement("figure", ImageAttrs(d), ImageAttrs(d), ImageInsideHtml(d, alt, url), ImageInsideShown(d, alt, url));
  }

  function ImageInsideHtml(d: string, alt: string, url: string): string {
    Element("strong", [], "[INSERTAR IMAGEN " + (d + "]")) +
    (StartTag("br", []) + (EscapeHtml(alt) + (StartTag("br", []) + Element("small", [], EscapeHtml(url)))))
  }

  function ImageInsideShown(d: string, alt: string, url: string): seq<Event> {
    Around("strong", [], Chars("[INSERTAR IMAGEN ") + (Chars(d) + Chars("]"))) +
    (Alone("br") + (Chars(alt) + (Alone("br") + Around("small", [], Chars(url)))))
  }

  lemma ImageInside(d: string, alt: string, url: string)
    requires Shows(d, Chars(d))
    ensures Shows(ImageInsideHtml(d, alt, url), ImageInsideShown(d, alt, url))
  {
    ShowsLiteral("[INSERTAR IMAGEN ");
    ShowsLiteral("]");
    ShowsJoined(d, Chars(d), "]", Chars("]"));
    ShowsJoined("[INSERTAR IMAGEN ", Chars("[INSERTAR IMAGEN "), d + "]", Chars(d) + Chars("]"));
    ShowsPlain("strong", "[INSERTAR IMAGEN " + (d + "]"), Chars("[INSERTAR IMAGEN ") + (Chars(d) + Chars("]")));
    ShowsVoid("br");
    ShowsEscaped(alt);
    ShowsEscaped(url);
    ShowsPlain("small", EscapeHtml(url), Chars(url));
    var w, e := Element("small", [], EscapeHtml(url)), Around("small", [], Chars(url));
    ShowsJoined(StartTag("br", []), Alone("br"), w, e);
    ShowsJoined(EscapeHtml(alt), Chars(alt), StartTag("br", []) + w, Alone("br") + e);
    ShowsJoined(StartTag("br", []), Alone("br"), EscapeHtml(alt) + (StartTag("br", []) + w), Chars(alt) + (Alone("br") + e));
    ShowsJoined(Element("strong", [], "[INSERTAR IMAGEN " + (d + "]")),
      Around("strong", [], Chars("[INSERTAR IMAGEN ") + (Chars(d) + Chars("]"))),
      StartTag("br", []) + (EscapeHtml(alt) + (StartTag("br", []) + w)), Alone("br") + (Chars(alt) + (Alone("br") + e)));
  }

  // ---------------------------------------------------------------- every node, every tree

  /** The node is printed as what it stands for, and counts its images right. */
  ghost predicate Right(env: Env, node: Node, c: Context) {
    var r := RenderHtml(env, node, c);
    && Shows(r.html, Shown(env, node, |c.assets|))
    && |r.context.assets| == |c.assets| + |Images(env, node)|
  }

  ghost predicate AllRight(env: Env, nodes: seq<Node>, c: Context) {
    var r := RenderAll(env, nodes, c);
    && Shows(r.html, ShownAll(env, nodes, |c.assets|))
    && |r.context.assets| == |c.assets| + |ImagesAll(env, nodes)|
  }

  lemma MarkRight(env: Env, node: Node, c: Context)
    requires node.ThematicBreak? || node.Break? || node.Silent?
    ensures Right(env, node, c)
  {
    if node.ThematicBreak? {
      ShowsVoid("hr");
    } else if node.Break? {
      ShowsVoid("br");
    } else {
      ShowsNothing();
    }
  }

  lemma TextRight(env: Env, node: Node, c: Context)
    requires node.Text? || node.InlineCode? || node.Code?
    ensures Right(env, node, c)
  {
    ShowsEscaped(node.value);
    ShowsPlain("code", EscapeHtml(node.value), Chars(node.value));
    if node.Code? { CodeShows(node.lang, node.value); }
  }

  lemma BracketShows(open: string, v: string)
    requires forall c :: c in open ==> Plain(c)
    ensures Shows(open + (EscapeHtml(v) + "]"), Chars(open) + (Chars(v) + Chars("]")))
  {
    ShowsLiteral(open);
    ShowsEscaped(v);
    ShowsLiteral("]");
    ShowsJoined(EscapeHtml(v), Chars(v), "]", Chars("]"));
    ShowsJoined(open, Chars(open), EscapeHtml(v) + "]", Chars(v) + Chars("]"));
  }

  /** An element that stands in for something left out. */
  lemma StandInShows(name: string, text: string, events: seq<Event>)
    requires IsName(name) && name !in VOID && Shows(text, events)
    ensures var attr := Attr("class", "linkedin-unsupported");
            Shows(Element(name, [attr], text), Around(name, [attr], events))
  {
    var value := "linkedin-unsupported";
    LiteralAttr("class", value);
    OneAttr("class", value, value);
    ShowsElement(name, [Attr("class", value)], [Attr("class", value)], text, events);
  }

  lemma OmittedHtml()
    ensures Shows("[HTML omitido]", Chars("[HTML omitido]"))
  {
    ShowsLiteral("[HTML omitido]");
  }

  lemma OmittedExpression()
    ensures Shows("[Expresión MDX omitida]", Chars("[Expresión MDX omitida]"))
  {
    ShowsLiteral("[Expresión MDX omitida]");
  }

  lemma NoticeRight(env: Env, node: Node, c: Context)
    requires node.RawHtml? || node.MdxExpression?
    ensures Right(env, node, c)
  {
    if node.RawHtml? {
      OmittedHtml();
      StandInShows("div", "[HTML omitido]", Chars("[HTML omitido]"));
    } else {
      OmittedExpression();
      StandInShows("span", "[Expresión MDX omitida]", Chars("[Expresión MDX omitida]"));
    }
  }

  lemma LeafRight(env: Env, node: Node, c: Context)
    requires !HasChildren(node)
    ensures Right(env, node, c)
  {
    if node.Image? {
      var index := |c.assets| + 1;
      ImageShows(index, ImageAlt(env, node.alt, index), node.url);
    } else if node.FootnoteReference? {
      var v := Or(node.caption, node.identifier);
      BracketShows("[", v);
      ShowsPlain("sup", "[" + (EscapeHtml(v) + "]"), Chars("[") + (Chars(v) + Chars("]")));
    } else if node.Text? || node.InlineCode? || node.Code? {
      TextRight(env, node, c);
    } else if node.RawHtml? || node.MdxExpression? {
      NoticeRight(env, node, c);
    } else {
      MarkRight(env, node, c);
    }
  }

  /** What the renderer makes of some children, and what they should show. */
  ghost predicate KidsRight(env: Env, nodes: seq<Node>, c: Context, html: string, events: seq<Event>) {
    html == RenderAll(env, nodes, c).html && events == ShownAll(env, nodes, |c.assets|) && Shows(html, events)
    && |RenderAll(env, nodes, c).context.assets| == |c.assets| + |ImagesAll(env, nodes)|
  }

  lemma Kids(env: Env, nodes: seq<Node>, c: Context) returns (html: string, events: seq<Event>)
    requires AllRight(env, nodes, c)
    ensures KidsRight(env, nodes, c, html, events)
  {
    html, events := RenderAll(env, nodes, c).html, ShownAll(env, nodes, |c.assets|);
  }

  lemma TagFine(kind: Kind)
    ensures IsName(Tag(kind)) && Tag(kind) !in VOID
  {}

  lemma WrapperRight(env: Env, kind: Kind, children: seq<Node>, c: Context)
    requires AllRight(env, children, c)
    ensures Right(env, Wrapper(kind, children), c)
  {
    var html, events := Kids(env, children, c);
    TagFine(kind);
    ShowsPlain(Tag(kind), html, events);
  }

  lemma HeadingTag(depth: int)
    ensures IsName("h" + Decimal(Clamp(depth))) && "h" + Decimal(Clamp(depth)) !in VOID
  {
    assert "hr"[1] == 'r';
  }

  lemma ParagraphRight(env: Env, children: seq<Node>, c: Context)
    requires AllRight(env, children, c)
    ensures Right(env, Paragraph(children), c)
  {
    var html, events := Kids(env, children, c);
    ShowsPlain("p", html, events);
  }

  lemma HeadingRight(env: Env, depth: int, isTitle: bool, children: seq<Node>, c: Context)
    requires AllRight(env, children, c)
    ensures Right(env, Heading(depth, isTitle, children), c)
  {
    var html, events := Kids(env, children, c);
    ShowsNothing();
    HeadingTag(depth);
    ShowsPlain("h" + Decimal(Clamp(depth)), html, events);
  }

  lemma ListRight(env: Env, ordered: bool, start: Option<int>, children: seq<Node>, c: Context)
    requires AllRight(env, children, c)
    ensures Right(env, List(ordered, start, children), c)
  {
    var html, events := Kids(env, children, c);
    ListShows(ordered, start, html, events);
  }

  lemma ListShows(ordered: bool, start: Option<int>, html: string, events: seq<Event>)
    requires Shows(html, events)
    ensures var tag, attrs := if ordered then "ol" else "ul", ListStart(ordered, start);
            Shows(Element(tag, attrs, html), Around(tag, attrs, events))
  {
    var attrs := ListStart(ordered, start);
    ListStartReads(ordered, start);
    ShowsElement(if ordered then "ol" else "ul", attrs, attrs, html, events);
  }

  lemma LinkRight(env: Env, url: string, title: string, children: seq<Node>, c: Context)
    requires AllRight(env, children, c)
    ensures Right(env, Link(url, title, children), c)
  {
    var html, events := Kids(env, children, c);
    LinkShows(env.safeUrl(url), title, html, events);
  }

  lemma LinkShows(href: string, title: string, html: string, events: seq<Event>)
    requires Shows(html, events)
    ensures Shows(Element("a", LinkAttrs(href, title), html), Around("a", LinkShown(href, title), events))
  {
    LinkAttrsRead(href, title);
    ShowsElement("a", LinkAttrs(href, title), LinkShown(href, title), html, events);
  }

  lemma NoteShows(identifier: string)
    ensures Shows(NoteHtml(identifier), NoteShown(identifier))
  {
    ShowsLiteral("Nota ");
    ShowsEscaped(identifier);
    ShowsJoined("Nota ", Chars("Nota "), EscapeHtml(identifier), Chars(identifier));
    ShowsPlain("strong", "Nota " + EscapeHtml(identifier), Chars("Nota ") + Chars(identifier));
    ShowsPlain("p", Element("strong", [], "Nota " + EscapeHtml(identifier)),
      Around("strong", [], Chars("Nota ") + Chars(identifier)));
  }

  lemma ListItemRight(env: Env, checked: Option<bool>, children: seq<Node>, c: Context)
    requires AllRight(env, children, c)
    ensures Right(env, ListItem(checked, children), c)
  {
    var html, events := Kids(env, children, c);
    ListItemShows(checked, html, events);
  }

  lemma ListItemShows(checked: Option<bool>, html: string, events: seq<Event>)
    requires Shows(html, events)
    ensures Shows(Element("li", [], CheckHtml(checked) + html), Around("li", [], CheckShown(checked) + events))
  {
    CheckShows(checked);
    ShowsJoined(CheckHtml(checked), CheckShown(checked), html, events);
    ShowsPlain("li", CheckHtml(checked) + html, CheckShown(checked) + events);
  }

  lemma FootnoteRight(env: Env, identifier: string, children: seq<Node>, c: Context)
    requires AllRight(env, children, c)
    ensures Right(env, FootnoteDefinition(identifier, children), c)
  {
    var html, events := Kids(env, children, c);
    FootnoteShows(identifier, html, events);
  }

  lemma FootnoteShows(identifier: string, html: string, events: seq<Event>)
    requires Shows(html, events)
    ensures Shows(Element("section", [], NoteHtml(identifier) + html), Around("section", [], NoteShown(identifier) + events))
  {
    NoteShows(identifier);
    ShowsJoined(NoteHtml(identifier), NoteShown(identifier), html, events);
    ShowsPlain("section", NoteHtml(identifier) + html, NoteShown(identifier) + events);
  }

  lemma TableRight(env: Env, children: seq<Node>, c: Context)
    requires AllRight(env, children, c.(tableCount := c.tableCount + 1))
    ensures Right(env, Table(children), c)
  {
    var html, events := Kids(env, children, c.(tableCount := c.tableCount + 1));
    TableShows(html, events);
  }

  lemma TableShows(html: string, events: seq<Event>)
    requires Shows(html, events)
    ensures Shows(Element("table", [], Element("tbody", [], html)), Around("table", [], Around("tbody", [], events)))
  {
    ShowsPlain("tbody", html, events);
    ShowsPlain("table", Element("tbody", [], html), Around("tbody", [], events));
  }

  lemma ComponentShows(tag: string)
    ensures Shows(Unsupported("[Componente MDX: " + (EscapeHtml(tag) + "]")),
                  UnsupportedShown(Chars("[Componente MDX: ") + (Chars(tag) + Chars("]"))))
  {
    BracketShows("[Componente MDX: ", tag);
    StandInShows("span", "[Componente MDX: " + (EscapeHtml(tag) + "]"),
      Chars("[Componente MDX: ") + (Chars(tag) + Chars("]")));
  }

  lemma MdxElementRight(env: Env, name: string, children: seq<Node>, c: Context)
    requires AllRight(env, children, c)
    ensures Right(env, MdxElement(name, children), c)
  {
    var html, events := Kids(env, children, c);
    ComponentShows(Or(name, "Fragment"));
    ShowsVoid("br");
    ShowsNothing();
  }

  lemma ReferenceRight(env: Env, alt: string, caption: string, identifier: string, children: seq<Node>, c: Context)
    requires AllRight(env, children, c)
    ensures Right(env, UnresolvedReference(alt, caption, identifier, children), c)
  {
    var html, events := Kids(env, children, c);
    ShowsEscaped(Or(alt, Or(caption, identifier)));
  }

  lemma TransparentRight(env: Env, children: seq<Node>, c: Context)
    requires AllRight(env, children, c)
    ensures Right(env, Root(children), c) && Right(env, Unknown(children), c)
  {
    assert Right(env, Root(children), c);
  }

  lemma ParentRight(env: Env, node: Node, c: Context)
    requires HasChildren(node)
    requires AllRight(env, node.children, if node.Table? then c.(tableCount := c.tableCount + 1) else c)
    ensures Right(env, node, c)
  {
    match node
    case Root(children) => TransparentRight(env, children, c);
    case Unknown(children) => TransparentRight(env, children, c);
    case Paragraph(children) => ParagraphRight(env, children, c);
    case Heading(depth, isTitle, children) => HeadingRight(env, depth, isTitle, children, c);
    case List(ordered, start, children) => ListRight(env, ordered, start, children, c);
    case ListItem(checked, children) => ListItemRight(env, checked, children, c);
    case Link(url, title, children) => LinkRight(env, url, title, children, c);
    case Table(children) => TableRight(env, children, c);
    case FootnoteDefinition(identifier, children) => FootnoteRight(env, identifier, children, c);
    case MdxElement(name, children) => MdxElementRight(env, name, children, c);
    case UnresolvedReference(alt, caption, identifier, children) =>
      ReferenceRight(env, alt, caption, identifier, children, c);
    case Wrapper(kind, children) => WrapperRight(env, kind, children, c);
  }

  /** Every tree is printed as the document it stands for. */
  lemma {:induction false} RenderRight(env: Env, node: Node, c: Context)
    ensures Right(env, node, c)
    decreases node
  {
    if HasChildren(node) {
      RenderAllRight(env, node.children, if node.Table? then c.(tableCount := c.tableCount + 1) else c);
      ParentRight(env, node, c);
    } else {
      LeafRight(env, node, c);
    }
  }

  lemma {:induction false} RenderAllRight(env: Env, nodes: seq<Node>, c: Context)
    ensures AllRight(env, nodes, c)
    decreases nodes
  {
    if nodes == [] {
      ShowsNothing();
    } else {
      RenderRight(env, nodes[0], c);
      var first := RenderHtml(env, nodes[0], c);
      RenderAllRight(env, nodes[1..], first.context);
      ShowsJoined(first.html, Shown(env, nodes[0], |c.assets|),
        RenderAll(env, nodes[1..], first.context).html, ShownAll(env, nodes[1..], |first.context.assets|));
    }
  }
}
