/** The renderer as the program runs it: one context, shared by the whole tree and changed on the way. */
module MdxProgram {
  import opened HtmlText
  import opened HtmlScanner
  import opened MdxRender

  class ArticleContext {
    const env: Env
    var assets: seq<Asset>
    var tableCount: nat

    constructor (env: Env)
      ensures View() == Context([], 0) && this.env == env
    {
      this.env := env;
      assets, tableCount := [], 0;
    }

    function View(): Context
      reads this
    {
      Context(assets, tableCount)
    }

    /** The children, rendered from left to right and joined. */
    method Children(nodes: seq<Node>) returns (html: string)
      modifies this`assets, this`tableCount
      ensures Rendered(html, View()) == RenderAll(env, nodes, old(View()))
      decreases nodes, 0
    {
      html := "";
      var i := 0;
      ghost var all := RenderAll(env, nodes, View());
      assert nodes[0..] == nodes && "" + all.html == all.html;
      while i < |nodes|
        invariant 0 <= i <= |nodes|
        invariant var rest := RenderAll(env, nodes[i..], View()); Rendered(html + rest.html, rest.context) == all
      {
        ghost var rest := nodes[i..];
        assert rest[0] == nodes[i] && rest[1..] == nodes[i + 1..];
        ghost var first := RenderHtml(env, nodes[i], View());
        var one := Render(nodes[i]);
        assert html + (one + RenderAll(env, nodes[i + 1..], first.context).html) ==
               html + one + RenderAll(env, nodes[i + 1..], first.context).html;
        html := html + one;
        i := i + 1;
      }
      assert nodes[i..] == [] && html + "" == html;
    }

    /** An image is entered in the list of assets before its placeholder is written. */
    method AddImage(url: string, alt: string, title: string) returns (html: string)
      modifies this`assets
      ensures html == ImageHtml(|old(assets)| + 1, ImageAlt(env, alt, |old(assets)| + 1), url)
      ensures View() == AddAsset(env, url, alt, title, old(View()))
    {
      var index := |assets| + 1;
      var src := env.assetUrl(url);
      var text := env.clean(Or(alt, "Imagen " + Decimal(index)));
      assets := assets + [Asset(index, url, src, text, title)];
      html := ImageHtml(index, text, url);
    }

    method Wrap(name: string, raw: seq<Attr>, children: seq<Node>) returns (html: string)
      modifies this`assets, this`tableCount
      ensures Rendered(html, View()) == Wrapped(name, raw, RenderAll(env, children, old(View())))
      decreases children, 1
    {
      html := Children(children);
      html := Element(name, raw, html);
    }

    method Leaf(node: Node) returns (html: string)
      requires !HasChildren(node)
      modifies this`assets
      ensures Rendered(html, View()) == RenderHtml(env, node, old(View()))
    {
      if node.Image? {
        html := AddImage(node.url, node.alt, node.title);
      } else if node.Text? {
        html := EscapeHtml(node.value);
      } else if node.InlineCode? {
        html := Element("code", [], EscapeHtml(node.value));
      } else if node.Code? {
        html := CodeHtml(node.lang, node.value);
      } else if node.FootnoteReference? {
        html := Element("sup", [], "[" + (EscapeHtml(Or(node.caption, node.identifier)) + "]"));
      } else if node.ThematicBreak? {
        html := StartTag("hr", []);
      } else if node.Break? {
        html := StartTag("br", []);
      } else if node.RawHtml? {
        html := Element("div", [Attr("class", "linkedin-unsupported")], "[HTML omitido]");
      } else if node.MdxExpression? {
        html := Unsupported("[Expresión MDX omitida]");
      } else {
        html := "";
      }
    }

    method RenderTable(children: seq<Node>) returns (html: string)
      modifies this`assets, this`tableCount
      ensures Rendered(html, View()) == RenderHtml(env, Table(children), old(View()))
      decreases children, 1
    {
      tableCount := tableCount + 1;
      html := Children(children);
      html := Element("table", [], Element("tbody", [], html));
    }

    method RenderComponent(name: string, children: seq<Node>) returns (html: string)
      modifies this`assets, this`tableCount
      ensures Rendered(html, View()) == RenderHtml(env, MdxElement(name, children), old(View()))
      decreases children, 1
    {
      var tag := Or(name, "Fragment");
      if tag == "br" { return StartTag("br", []); }
      if env.lower(tag) in BLOCKED { return ""; }
      html := Children(children);
      if html == "" { html := Unsupported("[Componente MDX: " + (EscapeHtml(tag) + "]")); }
    }

    method Render(node: Node) returns (html: string)
      modifies this`assets, this`tableCount
      ensures Rendered(html, View()) == RenderHtml(env, node, old(View()))
      decreases node, 2
    {
      if !HasChildren(node) {
        html := Leaf(node);
        return;
      }
      match node
      case Root(children) => html := Children(children);
      case Wrapper(kind, children) => html := Wrap(Tag(kind), [], children);
      case Paragraph(children) =>
        if AllImages(children) { html := Children(children); } else { html := Wrap("p", [], children); }
      case Heading(depth, isTitle, children) =>
        if isTitle { return ""; }
        html := Wrap("h" + Decimal(Clamp(depth)), [], children);
      case List(ordered, start, children) =>
        html := Wrap(if ordered then "ol" else "ul", ListStart(ordered, start), children);
      case ListItem(checked, children) =>
        html := Children(children);
        html := Element("li", [], CheckHtml(checked) + html);
      case Link(url, title, children) => html := Wrap("a", LinkAttrs(env.safeUrl(url), title), children);
      case Table(children) => html := RenderTable(children);
      case FootnoteDefinition(identifier, children) =>
        html := Children(children);
        html := Element("section", [], NoteHtml(identifier) + html);
      case MdxElement(name, children) => html := RenderComponent(name, children);
      case UnresolvedReference(alt, caption, identifier, children) =>
        html := Children(children);
        if html == "" { html := EscapeHtml(Or(alt, Or(caption, identifier))); }
      case Unknown(children) => html := Children(children);
    }
  }
}
