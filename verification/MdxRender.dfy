/** The converter's renderer: a Markdown tree, with strings from anywhere in it, printed as HTML. */
module MdxRender {
  import opened HtmlText
  import opened HtmlScanner
  import opened Options

  /** The node types that become one element around their children, and nothing else. */
  datatype Kind = Strong | Emphasis | Delete | Blockquote | TableRow | TableCell

  /** The node types that print nothing. */
  datatype What = Frontmatter | MdxModule | Definition

  /** The node types the renderer tells apart, those that it treats alike together.  `isTitle` marks the one heading that the converter
      uses as the article's title; an absent string is "". */
  datatype Node =
    | Root(children: seq<Node>)
    | Wrapper(kind: Kind, children: seq<Node>)
    | Silent(what: What)
    | Text(value: string)
    | Paragraph(children: seq<Node>)
    | Heading(depth: int, isTitle: bool, children: seq<Node>)
    | InlineCode(value: string)
    | Code(lang: string, value: string)
    | List(ordered: bool, start: Option<int>, children: seq<Node>)
    | ListItem(checked: Option<bool>, children: seq<Node>)
    | Link(url: string, title: string, children: seq<Node>)
    | Image(url: string, alt: string, title: string)
    | ThematicBreak
    | Break
    | RawHtml
    | Table(children: seq<Node>)
    | FootnoteDefinition(identifier: string, children: seq<Node>)
    | FootnoteReference(caption: string, identifier: string)
    | MdxExpression
    | MdxElement(name: string, children: seq<Node>)
    | UnresolvedReference(alt: string, caption: string, identifier: string, children: seq<Node>)
    | Unknown(children: seq<Node>)

  datatype Asset = Asset(index: nat, source: string, resolvedSource: string, alt: string, title: string)

  datatype Context = Context(assets: seq<Asset>, tableCount: nat)

  /** What the URL engine, white space and letter case decide: the renderer must be right whatever
      strings they give back. */
  datatype Env = Env(safeUrl: string -> string, assetUrl: string -> string, clean: string -> string,
                     lower: string -> string)

  datatype Rendered = Rendered(html: string, context: Context)

  const BLOCKED: set<string> := {"script", "style", "iframe", "object", "embed", "link", "meta", "base"}

  /** The first of two strings that is not empty. */
  function Or(a: string, b: string): string { if a != "" then a else b }

  function Clamp(depth: int): (d: int)
    ensures 1 <= d <= 6
  {
    var n := if depth == 0 then 2 else depth;
    if n < 1 then 1 else if n > 6 then 6 else n
  }

  // ---------------------------------------------------------------- the printer

  function Element(name: string, raw: seq<Attr>, inner: string): string {
    StartTag(name, raw) + inner + EndTag(name)
  }

  function Wrapped(name: string, raw: seq<Attr>, kids: Rendered): Rendered {
    Rendered(Element(name, raw, kids.html), kids.context)
  }

  function CodeHtml(lang: string, value: string): string {
    var language := if lang != "" then [Attr("data-language", EscapeAttribute(lang))] else [];
    Element("pre", [], Element("code", language, EscapeHtml(value)))
  }

  function ListStart(ordered: bool, start: Option<int>): seq<Attr> {
    if ordered && start.Some? && start.value != 1 then [Attr("start", Decimal(start.value))] else []
  }

  function CheckHtml(checked: Option<bool>): string {
    if checked.None? then ""
    else if checked.value then Element("span", [Attr("aria-label", "completado")], "☑ ")
    else Element("span", [Attr("aria-label", "pendiente")], "☐ ")
  }

  function LinkAttrs(href: string, title: string): seq<Attr> {
    [Attr("href", EscapeAttribute(href))] + if title != "" then [Attr("title", EscapeAttribute(title))] else []
  }

  function ImageHtml(index: nat, alt: string, url: string): string {
    Element("figure", [Attr("class", "linkedin-asset-placeholder"), Attr("data-linkedin-asset", Decimal(index))],
      Element("strong", [], "[INSERTAR IMAGEN " + (Decimal(index) + "]")) +
      (StartTag("br", []) + (EscapeHtml(alt) + (StartTag("br", []) + Element("small", [], EscapeHtml(url))))))
  }

  function ImageAlt(env: Env, alt: string, index: nat): string { env.clean(Or(alt, "Imagen " + Decimal(index))) }

  function Unsupported(text: string): string { Element("span", [Attr("class", "linkedin-unsupported")], text) }

  function NoteHtml(identifier: string): string {
    Element("p", [], Element("strong", [], "Nota " + EscapeHtml(identifier)))
  }

  function AddAsset(env: Env, url: string, alt: string, title: string, c: Context): Context {
    var index := |c.assets| + 1;
    c.(assets := c.assets + [Asset(index, url, env.assetUrl(url), ImageAlt(env, alt, index), title)])
  }

  predicate AllImages(nodes: seq<Node>) { forall i :: 0 <= i < |nodes| ==> nodes[i].Image? }

  /** Children that show nothing give way to a text in their place. */
  function OrElse(kids: Rendered, other: string): Rendered { if kids.html != "" then kids else Rendered(other, kids.context) }

  /** The node types the renderer descends into. */
  predicate HasChildren(node: Node) {
    !(node.Text? || node.InlineCode? || node.Code? || node.Image? || node.ThematicBreak? || node.Break?
      || node.RawHtml? || node.FootnoteReference? || node.MdxExpression? || node.Silent?)
  }

  function Tag(kind: Kind): string {
    match kind
    case Strong => "strong"
    case Emphasis => "em"
    case Delete => "s"
    case Blockquote => "blockquote"
    case TableRow => "tr"
    case TableCell => "td"
  }

  /** The cases of the renderer's switch that do not descend. */
  function RenderLeaf(env: Env, node: Node, c: Context): Rendered
    requires !HasChildren(node)
  {
    match node
    case Text(value) => Rendered(EscapeHtml(value), c)
    case InlineCode(value) => Rendered(Element("code", [], EscapeHtml(value)), c)
    case Code(lang, value) => Rendered(CodeHtml(lang, value), c)
    case Image(url, alt, title) =>
      var index := |c.assets| + 1;
      Rendered(ImageHtml(index, ImageAlt(env, alt, index), url), AddAsset(env, url, alt, title, c))
    case ThematicBreak => Rendered(StartTag("hr", []), c)
    case Break => Rendered(StartTag("br", []), c)
    case RawHtml => Rendered(Element("div", [Attr("class", "linkedin-unsupported")], "[HTML omitido]"), c)
    case FootnoteReference(caption, identifier) =>
      Rendered(Element("sup", [], "[" + (EscapeHtml(Or(caption, identifier)) + "]")), c)
    case MdxExpression => Rendered(Unsupported("[Expresión MDX omitida]"), c)
    case Silent(_) => Rendered("", c)
  }

  function RenderHtml(env: Env, node: Node, c: Context): Rendered
    decreases node
  {
    if !HasChildren(node) then RenderLeaf(env, node, c)
    else
      match node
      case Root(children) => RenderAll(env, children, c)
      case Wrapper(kind, children) => Wrapped(Tag(kind), [], RenderAll(env, children, c))
      case Paragraph(children) =>
        var kids := RenderAll(env, children, c);
        if AllImages(children) then kids else Wrapped("p", [], kids)
      case Heading(depth, isTitle, children) =>
        if isTitle then Rendered("", c) else Wrapped("h" + Decimal(Clamp(depth)), [], RenderAll(env, children, c))
      case List(ordered, start, children) =>
        Wrapped(if ordered then "ol" else "ul", ListStart(ordered, start), RenderAll(env, children, c))
      case ListItem(checked, children) =>
        var kids := RenderAll(env, children, c);
        Rendered(Element("li", [], CheckHtml(checked) + kids.html), kids.context)
      case Link(url, title, children) => Wrapped("a", LinkAttrs(env.safeUrl(url), title), RenderAll(env, children, c))
      case Table(children) =>
        var kids := RenderAll(env, children, c.(tableCount := c.tableCount + 1));
        Rendered(Element("table", [], Element("tbody", [], kids.html)), kids.context)
      case FootnoteDefinition(identifier, children) =>
        var kids := RenderAll(env, children, c);
        Rendered(Element("section", [], NoteHtml(identifier) + kids.html), kids.context)
      case MdxElement(name, children) =>
        var tag := Or(name, "Fragment");
        if tag == "br" then Rendered(StartTag("br", []), c)
        else if env.lower(tag) in BLOCKED then Rendered("", c)
        else OrElse(RenderAll(env, children, c), Unsupported("[Componente MDX: " + (EscapeHtml(tag) + "]")))
      case UnresolvedReference(alt, caption, identifier, children) =>
        OrElse(RenderAll(env, children, c), EscapeHtml(Or(alt, Or(caption, identifier))))
      case Unknown(children) => RenderAll(env, children, c)
  }

  function RenderAll(env: Env, nodes: seq<Node>, c: Context): Rendered
    decreases nodes
  {
    if nodes == [] then Rendered("", c)
    else
      var first := RenderHtml(env, nodes[0], c);
      var rest := RenderAll(env, nodes[1..], first.context);
      Rendered(first.html + rest.html, rest.context)
  }

  // ---------------------------------------------------------------- what the page should say

  /** The images a reader gets to see, in document order: none under the title heading, none in
      blocked elements or in a component named br, none in what is not descended into. */
  function Images(env: Env, node: Node): seq<Node>
    decreases node
  {
    if !HasChildren(node) then (if node.Image? then [node] else [])
    else if node.Heading? && node.isTitle then []
    else if node.MdxElement? && Dropped(env, Or(node.name, "Fragment")) then []
    else ImagesAll(env, node.children)
  }

  predicate Dropped(env: Env, tag: string) { tag == "br" || env.lower(tag) in BLOCKED }

  function ImagesAll(env: Env, nodes: seq<Node>): seq<Node>
    decreases nodes
  {
    if nodes == [] then [] else Images(env, nodes[0]) + ImagesAll(env, nodes[1..])
  }

  function Around(name: string, attrs: seq<Attr>, inner: seq<Event>): seq<Event> {
    [Open(name, attrs)] + inner + [Close(name)]
  }

  function Alone(name: string): seq<Event> { [Open(name, [])] }

  function ImageShown(index: nat, alt: string, url: string): seq<Event> {
    Around("figure", [Attr("class", "linkedin-asset-placeholder"), Attr("data-linkedin-asset", Decimal(index))],
      Around("strong", [], Chars("[INSERTAR IMAGEN ") + (Chars(Decimal(index)) + Chars("]"))) +
      (Alone("br") + (Chars(alt) + (Alone("br") + Around("small", [], Chars(url))))))
  }

  function CheckShown(checked: Option<bool>): seq<Event> {
    if checked.None? then []
    else if checked.value then Around("span", [Attr("aria-label", "completado")], Chars("☑ "))
    else Around("span", [Attr("aria-label", "pendiente")], Chars("☐ "))
  }

  function CodeShown(lang: string, value: string): seq<Event> {
    Around("pre", [], Around("code", if lang != "" then [Attr("data-language", lang)] else [], Chars(value)))
  }

  function LinkShown(href: string, title: string): seq<Attr> {
    [Attr("href", href)] + if title != "" then [Attr("title", title)] else []
  }

  function UnsupportedShown(text: seq<Event>): seq<Event> {
    Around("span", [Attr("class", "linkedin-unsupported")], text)
  }

  function NoteShown(identifier: string): seq<Event> {
    Around("p", [], Around("strong", [], Chars("Nota ") + Chars(identifier)))
  }

  function ShownLeaf(env: Env, node: Node, n: nat): seq<Event>
    requires !HasChildren(node)
  {
    match node
    case Text(value) => Chars(value)
    case InlineCode(value) => Around("code", [], Chars(value))
    case Code(lang, value) => CodeShown(lang, value)
    case Image(url, alt, _) => ImageShown(n + 1, ImageAlt(env, alt, n + 1), url)
    case ThematicBreak => Alone("hr")
    case Break => Alone("br")
    case RawHtml => Around("div", [Attr("class", "linkedin-unsupported")], Chars("[HTML omitido]"))
    case FootnoteReference(caption, identifier) =>
      Around("sup", [], Chars("[") + (Chars(Or(caption, identifier)) + Chars("]")))
    case MdxExpression => UnsupportedShown(Chars("[Expresión MDX omitida]"))
    case Silent(_) => []
  }

  /** The document the tree stands for, strings and all, when `n` images came before it. */
  function Shown(env: Env, node: Node, n: nat): seq<Event>
    decreases node
  {
    if !HasChildren(node) then ShownLeaf(env, node, n)
    else
      match node
      case Root(children) => ShownAll(env, children, n)
      case Wrapper(kind, children) => Around(Tag(kind), [], ShownAll(env, children, n))
      case Paragraph(children) =>
        if AllImages(children) then ShownAll(env, children, n) else Around("p", [], ShownAll(env, children, n))
      case Heading(depth, isTitle, children) =>
        if isTitle then [] else Around("h" + Decimal(Clamp(depth)), [], ShownAll(env, children, n))
      case List(ordered, start, children) =>
        Around(if ordered then "ol" else "ul", ListStart(ordered, start), ShownAll(env, children, n))
      case ListItem(checked, children) => Around("li", [], CheckShown(checked) + ShownAll(env, children, n))
      case Link(url, title, children) => Around("a", LinkShown(env.safeUrl(url), title), ShownAll(env, children, n))
      case Table(children) => Around("table", [], Around("tbody", [], ShownAll(env, children, n)))
      case FootnoteDefinition(identifier, children) =>
        Around("section", [], NoteShown(identifier) + ShownAll(env, children, n))
      case MdxElement(name, children) =>
        var tag := Or(name, "Fragment");
        if tag == "br" then Alone("br")
        else if env.lower(tag) in BLOCKED then []
        else
          var kids := ShownAll(env, children, n);
          if kids != [] then kids else UnsupportedShown(Chars("[Componente MDX: ") + (Chars(tag) + Chars("]")))
      case UnresolvedReference(alt, caption, identifier, children) =>
        var kids := ShownAll(env, children, n);
        if kids != [] then kids else Chars(Or(alt, Or(caption, identifier)))
      case Unknown(children) => ShownAll(env, children, n)
  }

  function ShownAll(env: Env, nodes: seq<Node>, n: nat): seq<Event>
    decreases nodes
  {
    if nodes == [] then []
    else Shown(env, nodes[0], n) + ShownAll(env, nodes[1..], n + |Images(env, nodes[0])|)
  }
}
