/** The pages themselves: what each kind of node is printed as, letter for letter. */
module MdxPages {
  import opened Options
  import opened HtmlText
  import opened HtmlScanner
  import opened MdxRender
  import opened MdxConvert

  /** What the children are printed as. */
  function Inner(env: Env, children: seq<Node>, c: Context): string { RenderAll(env, children, c).html }

  function Page(env: Env, node: Node, c: Context): string { RenderHtml(env, node, c).html }

  // ---------------------------------------------------------------- tags, letter for letter

  lemma Tags(name: string)
    ensures StartTag(name, []) == "<" + name + ">" && EndTag(name) == "</" + name + ">"
  {}

  lemma Framed(name: string, open: string, inner: string, close: string)
    requires open == "<" + name + ">" && close == "</" + name + ">"
    ensures Element(name, [], inner) == open + inner + close
  {
    Tags(name);
  }

  lemma OneAttr(name: string, k: string, v: string)
    ensures StartTag(name, [Attr(k, v)]) == "<" + name + " " + k + "=\"" + v + "\">"
  {
    var a := Attr(k, v);
    assert [a][1..] == [] && AttrText([a]) == " " + k + "=\"" + v + "\"" + "";
    assert "\"" + ">" == "\">";
  }

  lemma TwoAttrs(name: string, k: string, v: string, l: string, w: string)
    ensures StartTag(name, [Attr(k, v), Attr(l, w)]) == "<" + name + " " + k + "=\"" + v + "\" " + l + "=\"" + w + "\">"
  {
    var a, b := Attr(k, v), Attr(l, w);
    assert [a, b][1..] == [b];
    assert AttrText([b]) == " " + l + "=\"" + w + "\"" by { assert [b][1..] == []; }
    assert AttrText([a, b]) == " " + k + "=\"" + v + "\"" + AttrText([b]);
    assert "\"" + " " == "\" " && "\"" + ">" == "\">";
  }

  // ---------------------------------------------------------------- one element around the children

  /** The six kinds that are one element around their children, and the name of each. */
  lemma KindPage(env: Env, kind: Kind, children: seq<Node>, c: Context)
    ensures var page, inner := Page(env, Wrapper(kind, children), c), Inner(env, children, c);
            match kind
            case Strong => page == "<strong>" + inner + "</strong>"
            case Emphasis => page == "<em>" + inner + "</em>"
            case Delete => page == "<s>" + inner + "</s>"
            case Blockquote => page == "<blockquote>" + inner + "</blockquote>"
            case TableRow => page == "<tr>" + inner + "</tr>"
            case TableCell => page == "<td>" + inner + "</td>"
  {
    var inner := Inner(env, children, c);
    match kind
    case Strong => Framed("strong", "<strong>", inner, "</strong>");
    case Emphasis => Framed("em", "<em>", inner, "</em>");
    case Delete => Framed("s", "<s>", inner, "</s>");
    case Blockquote => Framed("blockquote", "<blockquote>", inner, "</blockquote>");
    case TableRow => Framed("tr", "<tr>", inner, "</tr>");
    case TableCell => Framed("td", "<td>", inner, "</td>");
  }

  /** A heading keeps its depth from 1 to 6; without one it is of depth 2, and the title prints nothing. */
  lemma HeadingPage(env: Env, depth: int, children: seq<Node>, c: Context)
    ensures var page, inner := Page(env, Heading(depth, false, children), c), Inner(env, children, c);
            if depth == 0 || depth == 2 then page == "<h2>" + inner + "</h2>"
            else if depth <= 1 then page == "<h1>" + inner + "</h1>"
            else if depth == 3 then page == "<h3>" + inner + "</h3>"
            else if depth == 4 then page == "<h4>" + inner + "</h4>"
            else if depth == 5 then page == "<h5>" + inner + "</h5>"
            else page == "<h6>" + inner + "</h6>"
    ensures Page(env, Heading(depth, true, children), c) == ""
  {
    var inner := Inner(env, children, c);
    HeadingName(depth);
    Framed("h1", "<h1>", inner, "</h1>");
    Framed("h2", "<h2>", inner, "</h2>");
    Framed("h3", "<h3>", inner, "</h3>");
    Framed("h4", "<h4>", inner, "</h4>");
    Framed("h5", "<h5>", inner, "</h5>");
    Framed("h6", "<h6>", inner, "</h6>");
  }

  lemma HeadingName(depth: int)
    ensures "h" + Decimal(Clamp(depth)) ==
            if depth == 0 || depth == 2 then "h2" else if depth <= 1 then "h1" else if depth == 3 then "h3"
            else if depth == 4 then "h4" else if depth == 5 then "h5" else "h6"
  {}

  /** A paragraph of nothing but images is not one. */
  lemma ParagraphPage(env: Env, children: seq<Node>, c: Context)
    ensures Page(env, Paragraph(children), c) ==
            if forall child :: child in children ==> child.Image? then Inner(env, children, c)
            else "<p>" + Inner(env, children, c) + "</p>"
  {
    Framed("p", "<p>", Inner(env, children, c), "</p>");
    if forall child :: child in children ==> child.Image? {
      assert forall i :: 0 <= i < |children| ==> children[i] in children;
      assert AllImages(children);
    } else {
      var child :| child in children && !child.Image?;
      var i :| 0 <= i < |children| && children[i] == child;
      assert !AllImages(children);
    }
  }

  /** A list is numbered or not; a number to start from is written down unless it is 1. */
  lemma ListPage(env: Env, start: Option<int>, children: seq<Node>, c: Context)
    ensures Page(env, List(false, start, children), c) == "<ul>" + Inner(env, children, c) + "</ul>"
    ensures Page(env, List(true, start, children), c) ==
            if start.None? || start.value == 1 then "<ol>" + Inner(env, children, c) + "</ol>"
            else "<ol start=\"" + Decimal(start.value) + "\">" + Inner(env, children, c) + "</ol>"
  {
    Framed("ul", "<ul>", Inner(env, children, c), "</ul>");
    Framed("ol", "<ol>", Inner(env, children, c), "</ol>");
    if start.Some? {
      var n := Decimal(start.value);
      OneAttr("ol", "start", n);
      assert "<" + "ol" + " " + "start" + "=\"" == "<ol start=\"";
      Tags("ol");
      assert "</" + "ol" + ">" == "</ol>";
    }
  }

  /** A checkbox comes before the item's children. */
  lemma ListItemPage(env: Env, checked: Option<bool>, children: seq<Node>, c: Context)
    ensures Page(env, ListItem(checked, children), c) ==
            "<li>" + (match checked
                      case None => ""
                      case Some(done) => "<span aria-label=\"" + (if done then "completado" else "pendiente") + "\">"
                                         + (if done then "☑ " else "☐ ") + "</span>")
            + Inner(env, children, c) + "</li>"
  {
    var check, inner := CheckHtml(checked), Inner(env, children, c);
    if checked.Some? { CheckPage(checked.value); }
    Framed("li", "<li>", check + inner, "</li>");
    assert "<li>" + (check + inner) + "</li>" == "<li>" + check + inner + "</li>";
  }

  lemma CheckPage(done: bool)
    ensures CheckHtml(Some(done)) == "<span aria-label=\"" + (if done then "completado" else "pendiente") + "\">"
                                     + (if done then "☑ " else "☐ ") + "</span>"
  {
    OneAttr("span", "aria-label", if done then "completado" else "pendiente");
    Tags("span");
    assert "<" + "span" + " " + "aria-label" + "=\"" == "<span aria-label=\"";
    assert "</" + "span" + ">" == "</span>";
  }

  /** A link carries its cleared address, escaped, and its title if there is one. */
  lemma LinkPage(env: Env, url: string, title: string, children: seq<Node>, c: Context)
    ensures Page(env, Link(url, title, children), c) ==
            (if title == "" then "<a href=\"" + EscapeAttribute(env.safeUrl(url)) + "\">"
             else "<a href=\"" + EscapeAttribute(env.safeUrl(url)) + "\" title=\"" + EscapeAttribute(title) + "\">")
            + Inner(env, children, c) + "</a>"
  {
    LinkOpened(env.safeUrl(url), title);
    Tags("a");
    assert "</" + "a" + ">" == "</a>";
  }

  lemma LinkOpened(href: string, title: string)
    ensures StartTag("a", LinkAttrs(href, title)) ==
            if title == "" then "<a href=\"" + EscapeAttribute(href) + "\">"
            else "<a href=\"" + EscapeAttribute(href) + "\" title=\"" + EscapeAttribute(title) + "\">"
  {
    var h, t := EscapeAttribute(href), EscapeAttribute(title);
    assert "<" + "a" + " " + "href" + "=\"" == "<a href=\"";
    if title == "" {
      assert LinkAttrs(href, title) == [Attr("href", h)];
      OneAttr("a", "href", h);
    } else {
      assert LinkAttrs(href, title) == [Attr("href", h), Attr("title", t)];
      TwoAttrs("a", "href", h, "title", t);
      assert "\" " + "title" + "=\"" == "\" title=\"";
    }
  }

  /** A table has a body and is counted before its cells are. */
  lemma TablePage(env: Env, children: seq<Node>, c: Context)
    ensures var kids := RenderAll(env, children, Context(c.assets, c.tableCount + 1));
            RenderHtml(env, Table(children), c) == Rendered("<table>" + ("<tbody>" + kids.html + "</tbody>") + "</table>", kids.context)
  {
    var kids := RenderAll(env, children, Context(c.assets, c.tableCount + 1));
    Framed("tbody", "<tbody>", kids.html, "</tbody>");
    Framed("table", "<table>", "<tbody>" + kids.html + "</tbody>", "</table>");
  }

  /** A footnote begins with its name. */
  lemma FootnotePage(env: Env, identifier: string, children: seq<Node>, c: Context)
    ensures Page(env, FootnoteDefinition(identifier, children), c) ==
            "<section>" + ("<p>" + ("<strong>" + ("Nota " + EscapeHtml(identifier)) + "</strong>") + "</p>"
                           + Inner(env, children, c)) + "</section>"
  {
    var note := "Nota " + EscapeHtml(identifier);
    Framed("strong", "<strong>", note, "</strong>");
    Framed("p", "<p>", "<strong>" + note + "</strong>", "</p>");
    Framed("section", "<section>", NoteHtml(identifier) + Inner(env, children, c), "</section>");
  }

  // ---------------------------------------------------------------- what is left out or stands in

  /** A component is a line break, nothing if its name in lower case is one of eight, and otherwise its
      children, or its name if they print nothing; a nameless one is a fragment. */
  lemma ComponentPage(env: Env, name: string, children: seq<Node>, c: Context)
    ensures var tag := if name == "" then "Fragment" else name;
            var page := Page(env, MdxElement(name, children), c);
            if tag == "br" then page == "<br>"
            else if env.lower(tag) == "script" || env.lower(tag) == "style" || env.lower(tag) == "iframe"
                 || env.lower(tag) == "object" || env.lower(tag) == "embed" || env.lower(tag) == "link"
                 || env.lower(tag) == "meta" || env.lower(tag) == "base" then page == ""
            else if Inner(env, children, c) != "" then page == Inner(env, children, c)
            else page == "<span class=\"" + "linkedin-unsupported" + "\">" + ("[Componente MDX: " + (EscapeHtml(tag) + "]")) + "</span>"
  {
    var tag := if name == "" then "Fragment" else name;
    BlockedIs(env.lower(tag));
    BreakPage();
    UnsupportedPage("[Componente MDX: " + (EscapeHtml(tag) + "]"));
  }

  lemma BlockedIs(name: string)
    ensures name in BLOCKED <==>
            (name == "script" || name == "style" || name == "iframe" || name == "object"
             || name == "embed" || name == "link" || name == "meta" || name == "base")
  {}

  lemma BreakPage()
    ensures StartTag("br", []) == "<br>" && StartTag("hr", []) == "<hr>"
  {
    Tags("br");
    Tags("hr");
  }

  lemma UnsupportedPage(text: string)
    ensures Unsupported(text) == "<span class=\"" + "linkedin-unsupported" + "\">" + text + "</span>"
  {
    OneAttr("span", "class", "linkedin-unsupported");
    Tags("span");
    assert "<" + "span" + " " + "class" + "=\"" == "<span class=\"";
    assert "</" + "span" + ">" == "</span>";
  }

  /** The root and nodes of unknown types are their children. */
  lemma ContainerPage(env: Env, children: seq<Node>, c: Context)
    ensures RenderHtml(env, Root(children), c) == RenderHtml(env, Unknown(children), c) == RenderAll(env, children, c)
  {}

  /** An unresolved reference is its children, or the first of three strings that is not empty. */
  lemma ReferencePage(env: Env, alt: string, caption: string, identifier: string, children: seq<Node>, c: Context)
    ensures Page(env, UnresolvedReference(alt, caption, identifier, children), c) ==
            if Inner(env, children, c) != "" then Inner(env, children, c)
            else EscapeHtml(if alt != "" then alt else if caption != "" then caption else identifier)
  {}

  /** What is printed without looking at children. */
  lemma LeafPage(env: Env, value: string, caption: string, identifier: string, c: Context)
    ensures Page(env, Text(value), c) == EscapeHtml(value)
    ensures Page(env, InlineCode(value), c) == "<code>" + EscapeHtml(value) + "</code>"
    ensures Page(env, FootnoteReference(caption, identifier), c) ==
            "<sup>" + ("[" + (EscapeHtml(if caption != "" then caption else identifier) + "]")) + "</sup>"
  {
    Framed("code", "<code>", EscapeHtml(value), "</code>");
    Framed("sup", "<sup>", "[" + (EscapeHtml(Or(caption, identifier)) + "]"), "</sup>");
  }

  /** Lines, breaks, and what stands in for code that is not carried over. */
  lemma NoticePage(env: Env, what: What, c: Context)
    ensures Page(env, ThematicBreak, c) == "<hr>" && Page(env, Break, c) == "<br>" && Page(env, Silent(what), c) == ""
    ensures Page(env, RawHtml, c) == "<div class=\"" + "linkedin-unsupported" + "\">" + "[HTML omitido]" + "</div>"
    ensures Page(env, MdxExpression, c) == "<span class=\"" + "linkedin-unsupported" + "\">" + "[Expresión MDX omitida]" + "</span>"
  {
    BreakPage();
    OmittedPage();
    UnsupportedPage("[Expresión MDX omitida]");
  }

  lemma OmittedPage()
    ensures Element("div", [Attr("class", "linkedin-unsupported")], "[HTML omitido]") ==
            "<div class=\"" + "linkedin-unsupported" + "\">" + "[HTML omitido]" + "</div>"
  {
    OneAttr("div", "class", "linkedin-unsupported");
    Tags("div");
    assert "<" + "div" + " " + "class" + "=\"" == "<div class=\"";
    assert "</" + "div" + ">" == "</div>";
  }

  /** A block of code names its language if it has one. */
  lemma CodePage(env: Env, lang: string, value: string, c: Context)
    ensures Page(env, Code(lang, value), c) ==
            "<pre>" + ((if lang == "" then "<code>" else "<code data-language=\"" + EscapeAttribute(lang) + "\">")
                       + EscapeHtml(value) + "</code>") + "</pre>"
  {
    CodeOpened(lang);
    var open := if lang == "" then "<code>" else "<code data-language=\"" + EscapeAttribute(lang) + "\">";
    Framed("pre", "<pre>", open + EscapeHtml(value) + "</code>", "</pre>");
  }

  lemma CodeOpened(lang: string)
    ensures StartTag("code", if lang != "" then [Attr("data-language", EscapeAttribute(lang))] else []) ==
            if lang == "" then "<code>" else "<code data-language=\"" + EscapeAttribute(lang) + "\">"
    ensures EndTag("code") == "</code>"
  {
    Tags("code");
    OneAttr("code", "data-language", EscapeAttribute(lang));
    assert "<" + "code" + " " + "data-language" + "=\"" == "<code data-language=\"";
    assert "<" + "code" + ">" == "<code>" && "</" + "code" + ">" == "</code>";
  }

  /** An image becomes a marked place with its number, its alternative text and its address, and an entry
      with the same number in the list; without a text of its own it is called after its number. */
  lemma ImagePage(env: Env, url: string, alt: string, title: string, c: Context)
    ensures var number := |c.assets| + 1;
            var text := env.clean(if alt != "" then alt else "Imagen " + Decimal(number));
            RenderHtml(env, Image(url, alt, title), c) == Rendered(
              "<figure class=\"" + "linkedin-asset-placeholder" + "\" data-linkedin-asset=\"" + Decimal(number) + "\">"
              + (("<strong>" + ("[INSERTAR IMAGEN " + (Decimal(number) + "]")) + "</strong>")
                 + ("<br>" + (EscapeHtml(text) + ("<br>" + ("<small>" + EscapeHtml(url) + "</small>")))))
              + "</figure>",
              Context(c.assets + [Asset(number, url, env.assetUrl(url), text, title)], c.tableCount))
  {
    var d := Decimal(|c.assets| + 1);
    TwoAttrs("figure", "class", "linkedin-asset-placeholder", "data-linkedin-asset", d);
    FigureOpened(d);
    Tags("figure");
    Tags("br");
    assert "<" + "br" + ">" == "<br>" && "</" + "figure" + ">" == "</figure>";
    Framed("strong", "<strong>", "[INSERTAR IMAGEN " + (d + "]"), "</strong>");
    Framed("small", "<small>", EscapeHtml(url), "</small>");
  }

  lemma FigureOpened(d: string)
    ensures "<" + "figure" + " " + "class" + "=\"" + "linkedin-asset-placeholder" + "\" " + "data-linkedin-asset" + "=\"" + d + "\">"
         == "<figure class=\"" + "linkedin-asset-placeholder" + "\" data-linkedin-asset=\"" + d + "\">"
  {
    var a, b := "<" + "figure" + " " + "class" + "=\"", "linkedin-asset-placeholder";
    assert a == "<figure class=\"";
    assert "\" " + "data-linkedin-asset" + "=\"" == "\" data-linkedin-asset=\"";
    assert a + b + "\" " + "data-linkedin-asset" + "=\"" == a + b + ("\" " + "data-linkedin-asset" + "=\"");
  }

  // ---------------------------------------------------------------- the title

  /** Front matter and modules, which may stand before the title. */
  ghost predicate AllSkipped(nodes: seq<Node>) {
    forall i :: 0 <= i < |nodes| ==> nodes[i] == Silent(Frontmatter) || nodes[i] == Silent(MdxModule)
  }

  lemma {:induction false} SkippedPrintNothing(env: Env, before: seq<Node>, rest: seq<Node>, c: Context)
    requires AllSkipped(before)
    ensures RenderAll(env, before + rest, c) == RenderAll(env, rest, c)
  {
    if before == [] {
      assert before + rest == rest;
    } else {
      assert (before + rest)[1..] == before[1..] + rest;
      SkippedPrintNothing(env, before[1..], rest, c);
      var kids := RenderAll(env, rest, c);
      assert "" + kids.html == kids.html;
    }
  }

  lemma {:induction false} FirstMarked(before: seq<Node>, rest: seq<Node>)
    requires AllSkipped(before)
    ensures MarkFirst(before + rest) == before + MarkFirst(rest)
  {
    if before == [] {
      assert before + rest == rest && before + MarkFirst(rest) == MarkFirst(rest);
    } else {
      assert (before + rest)[1..] == before[1..] + rest;
      FirstMarked(before[1..], rest);
      assert [before[0]] + (before[1..] + MarkFirst(rest)) == before + MarkFirst(rest);
    }
  }

  /** The first child that is neither front matter nor a module is not printed if it is a heading of
      depth 1, the article's title; everything else is. */
  lemma TitlePage(env: Env, before: seq<Node>, first: Node, rest: seq<Node>)
    requires AllSkipped(before) && first != Silent(Frontmatter) && first != Silent(MdxModule)
    ensures Convert(env, Root(before + [first] + rest)) ==
            RenderAll(env, if first.Heading? && first.depth == 1 then rest else [first] + rest, Context([], 0))
  {
    var c, all := Context([], 0), [first] + rest;
    assert before + [first] + rest == before + all;
    FirstMarked(before, all);
    SkippedPrintNothing(env, before, MarkFirst(all), c);
    TitleFirst(env, first, rest, c);
  }

  lemma TitleFirst(env: Env, first: Node, rest: seq<Node>, c: Context)
    requires first != Silent(Frontmatter) && first != Silent(MdxModule)
    ensures RenderAll(env, MarkFirst([first] + rest), c) ==
            RenderAll(env, if first.Heading? && first.depth == 1 then rest else [first] + rest, c)
  {
    assert ([first] + rest)[1..] == rest;
    if first.Heading? && first.depth == 1 {
      var title := first.(isTitle := true);
      assert ([title] + rest)[1..] == rest;
      var kids := RenderAll(env, rest, c);
      assert "" + kids.html == kids.html;
    }
  }
}
