/** The article as a whole: its title heading, and its numbered images. */
module MdxConvert {
  import opened HtmlText
  import opened HtmlScanner
  import opened MdxRender
  import opened MdxNesting
  import opened Options

  // ---------------------------------------------------------------- the title heading

  /** The title is the first child of the root that is neither front matter nor a module, when that
      is a heading of depth 1. */
  function MarkFirst(nodes: seq<Node>): seq<Node> {
    if nodes == [] then []
    else if nodes[0].Silent? && nodes[0].what != Definition then [nodes[0]] + MarkFirst(nodes[1..])
    else if nodes[0].Heading? && nodes[0].depth == 1 then [nodes[0].(isTitle := true)] + nodes[1..]
    else nodes
  }

  function MarkTitle(tree: Node): Node {
    if HasChildren(tree) then tree.(children := MarkFirst(tree.children)) else tree
  }

  function Convert(env: Env, tree: Node): Rendered { RenderHtml(env, MarkTitle(tree), Context([], 0)) }

  /** A tokenizer that is in text mode with some elements open is there again after any article, with
      the same elements open, and has read the document and nothing else. */
  lemma ConvertWellNested(env: Env, tree: Node, stack: seq<string>)
    ensures Scan(Scanner(Data, stack, []), Convert(env, tree).html) ==
            Scanner(Data, stack, Shown(env, MarkTitle(tree), 0))
  {
    RenderRight(env, MarkTitle(tree), Context([], 0));
    var e := Shown(env, MarkTitle(tree), 0);
    assert [] + e == e;
  }

  // ---------------------------------------------------------------- the images

  function AssetOf(env: Env, image: Node, index: nat): Asset
    requires image.Image?
  {
    Asset(index, image.url, env.assetUrl(image.url), ImageAlt(env, image.alt, index), image.title)
  }

  lemma {:induction false} ImagesAre(env: Env, node: Node)
    ensures AllImages(Images(env, node))
    decreases node
  {
    if HasChildren(node) { ImagesAllAre(env, node.children); }
  }

  lemma {:induction false} ImagesAllAre(env: Env, nodes: seq<Node>)
    ensures AllImages(ImagesAll(env, nodes))
    decreases nodes
  {
    if nodes != [] {
      ImagesAre(env, nodes[0]);
      ImagesAllAre(env, nodes[1..]);
    }
  }

  /** Images numbered on from n. */
  function Numbered(env: Env, images: seq<Node>, n: nat): (r: seq<Asset>)
    requires AllImages(images)
    ensures |r| == |images|
  {
    seq(|images|, i requires 0 <= i < |images| => AssetOf(env, images[i], n + 1 + i))
  }

  lemma NumberedJoined(env: Env, a: seq<Node>, b: seq<Node>, n: nat)
    requires AllImages(a) && AllImages(b)
    ensures AllImages(a + b) && Numbered(env, a + b, n) == Numbered(env, a, n) + Numbered(env, b, n + |a|)
  {}

  ghost predicate Lists(env: Env, images: seq<Node>, before: Context, after: Context) {
    AllImages(images) && after.assets == before.assets + Numbered(env, images, |before.assets|)
  }

  lemma NothingListed(env: Env, c: Context)
    ensures c.assets + Numbered(env, [], |c.assets|) == c.assets
  {}

  lemma OneListed(env: Env, image: Node, c: Context)
    requires image.Image?
    ensures Lists(env, [image], c, AddAsset(env, image.url, image.alt, image.title, c))
  {
    assert Numbered(env, [image], |c.assets|) == [AssetOf(env, image, |c.assets| + 1)];
  }

  lemma {:induction false} AssetsListed(env: Env, node: Node, c: Context)
    ensures Lists(env, Images(env, node), c, RenderHtml(env, node, c).context)
    decreases node
  {
    if HasChildren(node) {
      AllAssetsListed(env, node.children, if node.Table? then c.(tableCount := c.tableCount + 1) else c);
      NothingListed(env, c);
    } else {
      LeafListed(env, node, c);
    }
  }

  lemma LeafListed(env: Env, node: Node, c: Context)
    requires !HasChildren(node)
    ensures Lists(env, Images(env, node), c, RenderHtml(env, node, c).context)
  {
    if node.Image? { OneListed(env, node, c); } else { NothingListed(env, c); }
  }

  lemma {:induction false} AllAssetsListed(env: Env, nodes: seq<Node>, c: Context)
    ensures Lists(env, ImagesAll(env, nodes), c, RenderAll(env, nodes, c).context)
    decreases nodes
  {
    if nodes == [] {
      NothingListed(env, c);
    } else {
      var mid := RenderHtml(env, nodes[0], c).context;
      AssetsListed(env, nodes[0], c);
      AllAssetsListed(env, nodes[1..], mid);
      var a, b := Images(env, nodes[0]), ImagesAll(env, nodes[1..]);
      NumberedJoined(env, a, b, |c.assets|);
      assert c.assets + Numbered(env, a, |c.assets|) + Numbered(env, b, |mid.assets|) ==
             c.assets + Numbered(env, a + b, |c.assets|);
    }
  }

  // ---------------------------------------------------------------- the markers in the page

  function MarkersOf(attrs: seq<Attr>): seq<string> {
    if attrs == [] then []
    else (if attrs[0].name == "data-linkedin-asset" then [attrs[0].value] else []) + MarkersOf(attrs[1..])
  }

  /** Every value of the marker attribute that a tokenizer finds, in order. */
  function Markers(events: seq<Event>): seq<string> {
    if events == [] then []
    else (if events[0].Open? then MarkersOf(events[0].attrs) else []) + Markers(events[1..])
  }

  lemma {:induction false} MarkersJoined(a: seq<Event>, b: seq<Event>)
    ensures Markers(a + b) == Markers(a) + Markers(b)
  {
    if a == [] {
      assert a + b == b;
    } else {
      assert (a + b)[1..] == a[1..] + b;
      MarkersJoined(a[1..], b);
    }
  }

  lemma {:induction false} NoMarkers(v: string)
    ensures Markers(Chars(v)) == []
  {
    if v != "" {
      assert Chars(v)[1..] == Chars(v[1..]);
      NoMarkers(v[1..]);
    }
  }

  lemma MarkersAround(name: string, attrs: seq<Attr>, inner: seq<Event>)
    ensures Markers(Around(name, attrs, inner)) == MarkersOf(attrs) + Markers(inner)
  {
    assert ([Open(name, attrs)] + inner + [Close(name)])[1..] == inner + [Close(name)];
    MarkersJoined(inner, [Close(name)]);
    assert [Close(name)][1..] == [];
    assert Markers([Close(name)]) == [];
  }

  function Numerals(n: nat, k: nat): (r: seq<string>)
    ensures |r| == k
  {
    seq(k, i requires 0 <= i < k => Decimal(n + 1 + i))
  }

  lemma NumeralsJoined(n: nat, a: nat, b: nat)
    ensures Numerals(n, a) + Numerals(n + a, b) == Numerals(n, a + b)
  {}

  ghost predicate Marked(events: seq<Event>, n: nat, k: nat) { Markers(events) == Numerals(n, k) }

  lemma UnmarkedAround(name: string, attrs: seq<Attr>, inner: seq<Event>, n: nat, k: nat)
    requires MarkersOf(attrs) == [] && Marked(inner, n, k)
    ensures Marked(Around(name, attrs, inner), n, k)
  {
    MarkersAround(name, attrs, inner);
  }

  lemma UnmarkedBefore(a: seq<Event>, b: seq<Event>, n: nat, k: nat)
    requires Markers(a) == [] && Marked(b, n, k)
    ensures Marked(a + b, n, k)
  {
    MarkersJoined(a, b);
  }

  lemma PlainAround(name: string, inner: seq<Event>)
    requires Markers(inner) == []
    ensures Markers(Around(name, [], inner)) == []
  {
    MarkersAround(name, [], inner);
  }

  lemma BracketMarkers(open: string, v: string)
    ensures Markers(Chars(open) + (Chars(v) + Chars("]"))) == []
  {
    NoMarkers(open);
    NoMarkers(v);
    NoMarkers("]");
    MarkersJoined(Chars(v), Chars("]"));
    MarkersJoined(Chars(open), Chars(v) + Chars("]"));
  }

  lemma AttrMarkers(a: Attr, b: Attr)
    requires a.name != "data-linkedin-asset"
    ensures MarkersOf([a]) == []
    ensures MarkersOf([a, b]) == if b.name == "data-linkedin-asset" then [b.value] else []
  {
    assert [a, b][1..] == [b] && [a][1..] == [] && [b][1..] == [];
    assert MarkersOf([b]) == if b.name == "data-linkedin-asset" then [b.value] else [];
  }

  lemma StandInMarkers(name: string, inner: seq<Event>)
    requires Markers(inner) == []
    ensures Markers(Around(name, [Attr("class", "linkedin-unsupported")], inner)) == []
  {
    var attr := Attr("class", "linkedin-unsupported");
    AttrMarkers(attr, attr);
    MarkersAround(name, [attr], inner);
  }

  lemma LabelMarkers(attr: Attr, text: string)
    requires attr.name == "aria-label"
    ensures Markers(Around("span", [attr], Chars(text))) == []
  {
    AttrMarkers(attr, attr);
    NoMarkers(text);
    MarkersAround("span", [attr], Chars(text));
  }

  lemma CheckMarkers(checked: Option<bool>)
    ensures Markers(CheckShown(checked)) == []
  {
    LabelMarkers(Attr("aria-label", "completado"), "☑ ");
    LabelMarkers(Attr("aria-label", "pendiente"), "☐ ");
  }

  lemma NoteMarkers(identifier: string)
    ensures Markers(NoteShown(identifier)) == []
  {
    NoMarkers("Nota ");
    NoMarkers(identifier);
    MarkersJoined(Chars("Nota "), Chars(identifier));
    PlainAround("strong", Chars("Nota ") + Chars(identifier));
    PlainAround("p", Around("strong", [], Chars("Nota ") + Chars(identifier)));
  }

  lemma CodeMarkers(lang: string, value: string)
    ensures Markers(CodeShown(lang, value)) == []
  {
    var attr := Attr("data-language", lang);
    var attrs := if lang != "" then [attr] else [];
    AttrMarkers(attr, attr);
    NoMarkers(value);
    MarkersAround("code", attrs, Chars(value));
    PlainAround("pre", Around("code", attrs, Chars(value)));
  }

  lemma ImageMarkers(index: nat, alt: string, url: string)
    ensures Markers(ImageShown(index, alt, url)) == [Decimal(index)]
  {
    var d := Decimal(index);
    BracketMarkers("[INSERTAR IMAGEN ", d);
    var strong := Around("strong", [], Chars("[INSERTAR IMAGEN ") + (Chars(d) + Chars("]")));
    PlainAround("strong", Chars("[INSERTAR IMAGEN ") + (Chars(d) + Chars("]")));
    var small := Around("small", [], Chars(url));
    NoMarkers(url);
    PlainAround("small", Chars(url));
    NoMarkers(alt);
    BreakThen(small);
    MarkersJoined(Chars(alt), Alone("br") + small);
    BreakThen(Chars(alt) + (Alone("br") + small));
    var inside := strong + (Alone("br") + (Chars(alt) + (Alone("br") + small)));
    MarkersJoined(strong, Alone("br") + (Chars(alt) + (Alone("br") + small)));
    AttrMarkers(ImageAttrs(d)[0], ImageAttrs(d)[1]);
    MarkersAround("figure", ImageAttrs(d), inside);
  }

  lemma BreakThen(rest: seq<Event>)
    ensures Markers(Alone("br") + rest) == Markers(rest)
  {
    assert (Alone("br") + rest)[1..] == rest;
  }

  lemma NoticeMarked(env: Env, node: Node, n: nat)
    requires node.RawHtml? || node.MdxExpression? || node.ThematicBreak? || node.Break?
    ensures Markers(Shown(env, node, n)) == []
  {
    StandInText("div", "[HTML omitido]");
    StandInText("span", "[Expresión MDX omitida]");
    AloneMarkers("hr");
    AloneMarkers("br");
  }

  lemma StandInText(name: string, text: string)
    ensures Markers(Around(name, [Attr("class", "linkedin-unsupported")], Chars(text))) == []
  {
    NoMarkers(text);
    StandInMarkers(name, Chars(text));
  }

  lemma AloneMarkers(name: string)
    ensures Markers(Alone(name)) == []
  {
    assert Alone(name)[1..] == [];
  }

  lemma LeafMarked(env: Env, node: Node, n: nat)
    requires !HasChildren(node)
    ensures Marked(Shown(env, node, n), n, |Images(env, node)|)
  {
    if node.Image? {
      ImageMarkers(n + 1, ImageAlt(env, node.alt, n + 1), node.url);
    } else if node.FootnoteReference? {
      var v := Or(node.caption, node.identifier);
      BracketMarkers("[", v);
      PlainAround("sup", Chars("[") + (Chars(v) + Chars("]")));
    } else if node.Code? {
      CodeMarkers(node.lang, node.value);
    } else if node.Text? || node.InlineCode? {
      NoMarkers(node.value);
      PlainAround("code", Chars(node.value));
    } else if node.RawHtml? || node.MdxExpression? || node.ThematicBreak? || node.Break? {
      NoticeMarked(env, node, n);
    }
  }

  lemma WrappedMarked(env: Env, node: Node, n: nat)
    requires HasChildren(node) && !node.MdxElement? && !node.UnresolvedReference?
    requires !node.ListItem? && !node.FootnoteDefinition?
    requires Marked(ShownAll(env, node.children, n), n, |ImagesAll(env, node.children)|)
    ensures Marked(Shown(env, node, n), n, |Images(env, node)|)
  {
    var kids, k := ShownAll(env, node.children, n), |ImagesAll(env, node.children)|;
    match node
    case Root(_) =>
    case Unknown(_) =>
    case Wrapper(kind, _) => UnmarkedAround(Tag(kind), [], kids, n, k);
    case Paragraph(_) => UnmarkedAround("p", [], kids, n, k);
    case Heading(depth, _, _) => UnmarkedAround("h" + Decimal(Clamp(depth)), [], kids, n, k);
    case Table(_) =>
      UnmarkedAround("tbody", [], kids, n, k);
      UnmarkedAround("table", [], Around("tbody", [], kids), n, k);
    case List(ordered, start, _) =>
      ListMarkers(ordered, start);
      UnmarkedAround(if ordered then "ol" else "ul", ListStart(ordered, start), kids, n, k);
    case Link(url, title, _) =>
      LinkMarkers(env.safeUrl(url), title);
      UnmarkedAround("a", LinkShown(env.safeUrl(url), title), kids, n, k);
  }

  lemma ListMarkers(ordered: bool, start: Option<int>)
    ensures MarkersOf(ListStart(ordered, start)) == []
  {
    if ordered && start.Some? { AttrMarkers(Attr("start", Decimal(start.value)), Attr("start", "")); }
  }

  lemma LinkMarkers(href: string, title: string)
    ensures MarkersOf(LinkShown(href, title)) == []
  {
    AttrMarkers(Attr("href", href), Attr("title", title));
    assert LinkShown(href, title) == if title != "" then [Attr("href", href), Attr("title", title)] else [Attr("href", href)];
  }

  lemma PrefixedMarked(env: Env, node: Node, n: nat)
    requires node.ListItem? || node.FootnoteDefinition?
    requires Marked(ShownAll(env, node.children, n), n, |ImagesAll(env, node.children)|)
    ensures Marked(Shown(env, node, n), n, |Images(env, node)|)
  {
    var kids, k := ShownAll(env, node.children, n), |ImagesAll(env, node.children)|;
    if node.ListItem? {
      CheckMarkers(node.checked);
      UnmarkedBefore(CheckShown(node.checked), kids, n, k);
      UnmarkedAround("li", [], CheckShown(node.checked) + kids, n, k);
    } else {
      NoteMarkers(node.identifier);
      UnmarkedBefore(NoteShown(node.identifier), kids, n, k);
      UnmarkedAround("section", [], NoteShown(node.identifier) + kids, n, k);
    }
  }

  lemma ComponentMarkers(tag: string)
    ensures Markers(UnsupportedShown(Chars("[Componente MDX: ") + (Chars(tag) + Chars("]")))) == []
  {
    BracketMarkers("[Componente MDX: ", tag);
    StandInMarkers("span", Chars("[Componente MDX: ") + (Chars(tag) + Chars("]")));
  }

  /** Children that show nothing hold no image, so what takes their place need hold no marker. */
  lemma PlaceMarked(kids: seq<Event>, other: seq<Event>, n: nat, k: nat)
    requires Marked(kids, n, k) && Markers(other) == []
    ensures Marked(if kids != [] then kids else other, n, k)
  {
    if kids == [] { assert |Numerals(n, k)| == 0; }
  }

  lemma NoneMarked(events: seq<Event>, n: nat)
    requires Markers(events) == []
    ensures Marked(events, n, 0)
  {}

  lemma ReferenceMarked(env: Env, alt: string, caption: string, identifier: string, children: seq<Node>, n: nat)
    requires Marked(ShownAll(env, children, n), n, |ImagesAll(env, children)|)
    ensures var node := UnresolvedReference(alt, caption, identifier, children);
            Marked(Shown(env, node, n), n, |Images(env, node)|)
  {
    var other := Or(alt, Or(caption, identifier));
    NoMarkers(other);
    PlaceMarked(ShownAll(env, children, n), Chars(other), n, |ImagesAll(env, children)|);
  }

  lemma ComponentMarked(env: Env, name: string, children: seq<Node>, n: nat)
    requires Marked(ShownAll(env, children, n), n, |ImagesAll(env, children)|)
    ensures Marked(Shown(env, MdxElement(name, children), n), n, |Images(env, MdxElement(name, children))|)
  {
    var tag := Or(name, "Fragment");
    if Dropped(env, tag) {
      assert Alone("br")[1..] == [];
      NoneMarked(Alone("br"), n);
      NoneMarked([], n);
    } else {
      var other := UnsupportedShown(Chars("[Componente MDX: ") + (Chars(tag) + Chars("]")));
      ComponentMarkers(tag);
      PlaceMarked(ShownAll(env, children, n), other, n, |ImagesAll(env, children)|);
    }
  }

  /** The markers in the page are the numbers after n, each once and in order, one for each image. */
  lemma {:induction false} ShownMarked(env: Env, node: Node, n: nat)
    ensures Marked(Shown(env, node, n), n, |Images(env, node)|)
    decreases node
  {
    if !HasChildren(node) {
      LeafMarked(env, node, n);
    } else {
      ShownAllMarked(env, node.children, n);
      if node.MdxElement? {
        ComponentMarked(env, node.name, node.children, n);
      } else if node.UnresolvedReference? {
        ReferenceMarked(env, node.alt, node.caption, node.identifier, node.children, n);
      } else if node.ListItem? || node.FootnoteDefinition? {
        PrefixedMarked(env, node, n);
      } else {
        WrappedMarked(env, node, n);
      }
    }
  }

  lemma BothMarked(x: seq<Event>, n: nat, a: nat, y: seq<Event>, b: nat)
    requires Marked(x, n, a) && Marked(y, n + a, b)
    ensures Marked(x + y, n, a + b)
  {
    MarkersJoined(x, y);
    NumeralsJoined(n, a, b);
  }

  lemma {:induction false} ShownAllMarked(env: Env, nodes: seq<Node>, n: nat)
    ensures Marked(ShownAll(env, nodes, n), n, |ImagesAll(env, nodes)|)
    decreases nodes
  {
    if nodes != [] {
      var a, b := |Images(env, nodes[0])|, |ImagesAll(env, nodes[1..])|;
      ShownMarked(env, nodes[0], n);
      ShownAllMarked(env, nodes[1..], n + a);
      BothMarked(Shown(env, nodes[0], n), n, a, ShownAll(env, nodes[1..], n + a), b);
    }
  }

  /** The assets of an article are its live images in document order, numbered from 1, and the
      markers a tokenizer finds in the page are those numbers in that order. */
  lemma AssetsMatchMarkers(env: Env, tree: Node)
    ensures var images := Images(env, MarkTitle(tree));
            && AllImages(images)
            && Convert(env, tree).context.assets == Numbered(env, images, 0)
            && Markers(Scan(Scanner(Data, [], []), Convert(env, tree).html).events) == Numerals(0, |images|)
  {
    var c := Context([], 0);
    AssetsListed(env, MarkTitle(tree), c);
    assert c.assets + Numbered(env, Images(env, MarkTitle(tree)), 0) == Numbered(env, Images(env, MarkTitle(tree)), 0);
    ConvertWellNested(env, tree, []);
    ShownMarked(env, MarkTitle(tree), 0);
  }
}
