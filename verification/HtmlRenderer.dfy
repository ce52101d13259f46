/** The static renderer: HTML text for the syntax tree, which must show what the streaming renderer builds. */
module HtmlRenderer {
  import opened Wrappers
  import opened MarkdownAst
  import opened NodeIds
  import opened DomTree

  // ---- Escaping

  function Replaced(s: string, c: char, sub: string): string {
    if s == "" then "" else (if s[0] == c then sub else [s[0]]) + Replaced(s[1..], c, sub)
  }

  /** escapeHtml: five passes, the ampersand first. */
  function EscapeHtml(s: string): string {
    QuotePasses(AnglePasses(Replaced(s, '&', "&amp;")))
  }

  function AnglePasses(s: string): string { Replaced(Replaced(s, '<', "&lt;"), '>', "&gt;") }

  function QuotePasses(s: string): string { Replaced(Replaced(s, '\"', "&quot;"), '\'', "&#039;") }

  /** What stands for a character in escaped text. */
  function Entity(c: char): string {
    if c == '&' then "&amp;"
    else if c == '<' then "&lt;"
    else if c == '>' then "&gt;"
    else if c == '\"' then "&quot;"
    else if c == '\'' then "&#039;"
    else [c]
  }

  predicate Escapable(c: char) { c == '&' || c == '<' || c == '>' || c == '\"' || c == '\'' }

  lemma {:induction false} ReplacedConcat(s: string, t: string, c: char, sub: string)
    ensures Replaced(s + t, c, sub) == Replaced(s, c, sub) + Replaced(t, c, sub)
  {
    if s == "" {
      assert s + t == t;
    } else {
      assert (s + t)[1..] == s[1..] + t;
      ReplacedConcat(s[1..], t, c, sub);
    }
  }

  lemma {:induction false} ReplacedNone(s: string, c: char, sub: string)
    requires c !in s
    ensures Replaced(s, c, sub) == s
  {
    if s != "" {
      assert s[0] in s && forall d :: d in s[1..] ==> d in s;
      ReplacedNone(s[1..], c, sub);
    }
  }

  lemma ReplacedOne(c: char, d: char, sub: string)
    ensures Replaced([c], d, sub) == if c == d then sub else [c]
  {
    assert [c][1..] == "";
    assert Replaced("", d, sub) == "";
  }

  lemma QuotesAlone(s: string)
    requires '\"' !in s && '\'' !in s
    ensures QuotePasses(s) == s
  {
    ReplacedNone(s, '\"', "&quot;");
    ReplacedNone(s, '\'', "&#039;");
  }

  lemma QuotePassesOne(c: char)
    ensures QuotePasses([c]) == if c == '\"' then "&quot;" else if c == '\'' then "&#039;" else [c]
  {
    ReplacedOne(c, '\"', "&quot;");
    if c == '\"' { ReplacedNone("&quot;", '\'', "&#039;"); } else { ReplacedOne(c, '\'', "&#039;"); }
  }

  lemma AnglePassesOne(c: char)
    ensures AnglePasses([c]) == if c == '<' then "&lt;" else if c == '>' then "&gt;" else [c]
  {
    ReplacedOne(c, '<', "&lt;");
    if c == '<' { ReplacedNone("&lt;", '>', "&gt;"); } else { ReplacedOne(c, '>', "&gt;"); }
  }

  lemma AnglesAlone(s: string)
    requires '<' !in s && '>' !in s
    ensures AnglePasses(s) == s
  {
    ReplacedNone(s, '<', "&lt;");
    ReplacedNone(s, '>', "&gt;");
  }

  lemma EntityStays(s: string)
    requires '<' !in s && '>' !in s && '\"' !in s && '\'' !in s
    ensures QuotePasses(AnglePasses(s)) == s
  {
    AnglesAlone(s);
    QuotesAlone(s);
  }

  /** The five passes do not disturb each other: each character is escaped once, on its own. */
  lemma EscapeOne(c: char)
    ensures EscapeHtml([c]) == Entity(c)
  {
    ReplacedOne(c, '&', "&amp;");
    if c == '&' {
      EntityStays("&amp;");
    } else {
      AnglePassesOne(c);
      if c == '<' { QuotesAlone("&lt;"); } else if c == '>' { QuotesAlone("&gt;"); } else { QuotePassesOne(c); }
    }
  }

  lemma EscapeConcat(s: string, t: string)
    ensures EscapeHtml(s + t) == EscapeHtml(s) + EscapeHtml(t)
  {
    var s1, t1 := Replaced(s, '&', "&amp;"), Replaced(t, '&', "&amp;");
    var s2, t2 := Replaced(s1, '<', "&lt;"), Replaced(t1, '<', "&lt;");
    var s3, t3 := Replaced(s2, '>', "&gt;"), Replaced(t2, '>', "&gt;");
    var s4, t4 := Replaced(s3, '\"', "&quot;"), Replaced(t3, '\"', "&quot;");
    ReplacedConcat(s, t, '&', "&amp;");
    ReplacedConcat(s1, t1, '<', "&lt;");
    ReplacedConcat(s2, t2, '>', "&gt;");
    ReplacedConcat(s3, t3, '\"', "&quot;");
    ReplacedConcat(s4, t4, '\'', "&#039;");
  }

  lemma EscapeStep(s: string)
    requires s != ""
    ensures EscapeHtml(s) == Entity(s[0]) + EscapeHtml(s[1..])
  {
    assert [s[0]] + s[1..] == s;
    EscapeConcat([s[0]], s[1..]);
    EscapeOne(s[0]);
  }

  /** What a browser reads escaped text as. */
  function Unescape(s: string): string {
    if s == "" then ""
    else if "&amp;" <= s then "&" + Unescape(s[5..])
    else if "&lt;" <= s then "<" + Unescape(s[4..])
    else if "&gt;" <= s then ">" + Unescape(s[4..])
    else if "&quot;" <= s then "\"" + Unescape(s[6..])
    else if "&#039;" <= s then "'" + Unescape(s[6..])
    else [s[0]] + Unescape(s[1..])
  }

  lemma UnescapeEntity(c: char, t: string)
    ensures Unescape(Entity(c) + t) == [c] + Unescape(t)
  {
    var e := Entity(c);
    assert (e + t)[..|e|] == e && (e + t)[|e|..] == t;
    assert (e + t)[0] == e[0];
    if Escapable(c) { assert e[1] == (e + t)[1]; }
  }

  /** Escaping is undone by reading. */
  lemma {:induction false} EscapeRoundTrip(s: string)
    ensures Unescape(EscapeHtml(s)) == s
  {
    if s != "" {
      EscapeStep(s);
      UnescapeEntity(s[0], EscapeHtml(s[1..]));
      EscapeRoundTrip(s[1..]);
    }
  }

  /** Escaped text holds no markup character but the ampersand of an entity. */
  lemma {:induction false} EscapedHasNoMarkup(s: string)
    ensures forall c :: c in EscapeHtml(s) ==> c != '<' && c != '>' && c != '\"' && c != '\''
    ensures Ampersands(EscapeHtml(s))
  {
    if s != "" {
      EscapeStep(s);
      EscapedHasNoMarkup(s[1..]);
      EntityHasNoMarkup(s[0]);
      AmpersandsEntity(s[0], EscapeHtml(s[1..]));
    }
  }

  lemma EntityHasNoMarkup(e: char)
    ensures forall c :: c in Entity(e) ==> c != '<' && c != '>' && c != '\"' && c != '\''
  {}

  /** Every ampersand begins one of the five entities. */
  predicate Ampersands(s: string) {
    s == "" || ((s[0] == '&' ==> "&amp;" <= s || "&lt;" <= s || "&gt;" <= s || "&quot;" <= s || "&#039;" <= s) && Ampersands(s[1..]))
  }

  lemma AmpersandsEntity(c: char, t: string)
    requires Ampersands(t)
    ensures Ampersands(Entity(c) + t)
  {
    var e := Entity(c);
    if Escapable(c) { AmpersandsAfter(e[1..], t); assert (e + t)[1..] == e[1..] + t; }
    else { assert (e + t)[1..] == t; }
  }

  lemma {:induction false} AmpersandsAfter(s: string, t: string)
    requires '&' !in s && Ampersands(t)
    ensures Ampersands(s + t)
  {
    if s == "" {
      assert s + t == t;
    } else {
      assert (s + t)[1..] == s[1..] + t && s[0] in s && forall d :: d in s[1..] ==> d in s;
      AmpersandsAfter(s[1..], t);
    }
  }

  /** Escaping never shortens a text, and leaves its length exactly if there is nothing to escape. */
  lemma {:induction false} EscapeLength(s: string)
    ensures |EscapeHtml(s)| >= |s|
    ensures |EscapeHtml(s)| == |s| <==> NothingToEscape(s)
    ensures NothingToEscape(s) ==> EscapeHtml(s) == s
  {
    if s != "" {
      EscapeStep(s);
      EscapeLength(s[1..]);
      assert s == [s[0]] + s[1..];
    }
  }

  predicate NothingToEscape(s: string) { forall i :: 0 <= i < |s| ==> !Escapable(s[i]) }

  // ---- Rendering to text

  /** Asset conversion, and the filters for link and image URLs. */
  datatype Urls = Urls(convert: string -> string, link: string -> Option<string>, image: string -> Option<string>)

  function HtmlUrl(env: Urls, u: Url): string { if u.asset then env.convert(u.raw) else u.raw }

  function Attribute(name: string, value: string): string { " " + name + "=\"" + EscapeHtml(value) + "\"" }

  function Optional(name: string, value: Option<string>): string { if value.Some? then Attribute(name, value.value) else "" }

  function Wrapped(name: string, inner: string): string { "<" + name + ">" + inner + "</" + name + ">" }

  function OpenTag(name: string, class_: string, more: string): string {
    "<" + name + ((" class=\"" + class_ + "\"") + more) + ">"
  }

  function Classed(name: string, class_: string, more: string, inner: string): string {
    OpenTag(name, class_, more) + inner + "</" + name + ">"
  }

  function LinkOpen(env: Urls, url: string, title: string): string {
    "<a" + Optional("href", env.link(url)) + Attribute("title", title) + " target=\"_blank\" rel=\"noopener noreferrer\"" + ">"
  }

  function ImageHtml(env: Urls, url: string, alt: string, title: string): string {
    "<img" + (Optional("src", env.image(url)) + Attribute("alt", alt) + Attribute("title", title)
              + " loading=\"lazy\"" + " class=\"vcp-markdown-image\"") + " />"
  }

  function MarkName(m: Mark): string {
    match m
    case Strong => "strong"
    case Emphasis => "em"
    case Strikethrough => "del"
  }

  /** renderInline */
  function InlineHtml(env: Urls, x: Inline): string
    decreases x, 0
  {
    match x
    case Text(v) => EscapeHtml(v)
    case Marked(m, kids) => Wrapped(MarkName(m), InlinesHtml(env, kids))
    case Code(v) => Wrapped("code", EscapeHtml(v))
    case Link(href, title, kids) =>
      LinkOpen(env, HtmlUrl(env, href), OrEmpty(title)) + InlinesHtml(env, kids) + "</a>"
    case Image(src, alt, title) =>
      ImageHtml(env, HtmlUrl(env, src), alt, OrEmpty(title))
    case Break => "<br/>"
    case Math(content, display) =>
      Classed("span", if display then "vcp-math-block no-swipe" else "vcp-math-inline no-swipe",
              Attribute("data-latex", content), EscapeHtml(content))
    case Custom(kind, text, inner) =>
      Classed("span", "vcp-custom-" + kind, "", CustomInner(env, text, inner))
  }

  /** The text of a custom element: its children, or its label. */
  function CustomInner(env: Urls, text: Option<string>, inner: Option<List<Inline>>): string
    decreases inner, 0
  {
    if inner.Some? && inner.value.Cons? then InlinesHtml(env, inner.value) else EscapeHtml(OrEmpty(text))
  }

  function InlinesHtml(env: Urls, xs: List<Inline>): string
    decreases xs, 1
  {
    match xs
    case Nil => ""
    case Cons(x, rest) => InlineHtml(env, x) + InlinesHtml(env, rest)
  }

  /** renderNode */
  function BlockHtml(env: Urls, b: Block): string
    decreases b, 0
  {
    match b
    case Paragraph(kids) => Wrapped("p", InlinesHtml(env, kids))
    case Heading(level, kids) => Wrapped("h" + Decimal(HeadingNumber(level)), InlinesHtml(env, kids))
    case CodeBlock(mermaid, _, code) =>
      if mermaid then Classed("div", "mermaid-placeholder", "", EscapeHtml(code))
      else Classed("pre", "vcp-code-block vcp-scrollable", "", Wrapped("code", EscapeHtml(code)))
    case Quote(blocks) => Wrapped("blockquote", BlocksHtml(env, blocks))
    case Itemized(ordered, items) => Wrapped(if ordered then "ol" else "ul", ItemsHtml(env, items))
    case Table(header, rows, wrapper) =>
      Classed("div", if OrEmpty(wrapper) == "" then "vcp-table-wrapper" else OrEmpty(wrapper), "",
              Wrapped("table", Wrapped("thead", Wrapped("tr", CellsHtml(env, header, "th"))) + Wrapped("tbody", RowsHtml(env, rows))))
    case Rule => "<hr/>"
  }

  function BlocksHtml(env: Urls, bs: List<Block>): string
    decreases bs, 1
  {
    match bs
    case Nil => ""
    case Cons(b, rest) => BlockHtml(env, b) + BlocksHtml(env, rest)
  }

  function ItemsHtml(env: Urls, items: List<List<Block>>): string
    decreases items, 1
  {
    match items
    case Nil => ""
    case Cons(item, rest) => Wrapped("li", BlocksHtml(env, item)) + ItemsHtml(env, rest)
  }

  function CellsHtml(env: Urls, cells: List<List<Inline>>, name: string): string {
    match cells
    case Nil => ""
    case Cons(cell, rest) => Wrapped(name, InlinesHtml(env, cell)) + CellsHtml(env, rest, name)
  }

  function RowsHtml(env: Urls, rows: List<List<List<Inline>>>): string {
    match rows
    case Nil => ""
    case Cons(row, rest) => Wrapped("tr", CellsHtml(env, row, "td")) + RowsHtml(env, rest)
  }

  // ---- The text of a tree

  function TagName(t: Tag): string {
    match t
    case PTag => "p"
    case HTag(n) => "h" + Decimal(n)
    case DivTag => "div"
    case PreTag => "pre"
    case CodeTag => "code"
    case BlockquoteTag => "blockquote"
    case OlTag => "ol"
    case UlTag => "ul"
    case LiTag => "li"
    case TableTag => "table"
    case TheadTag => "thead"
    case TbodyTag => "tbody"
    case TrTag => "tr"
    case ThTag => "th"
    case TdTag => "td"
    case HrTag => "hr"
    case StrongTag => "strong"
    case EmTag => "em"
    case DelTag => "del"
    case ATag => "a"
    case ImgTag => "img"
    case BrTag => "br"
    case SpanTag => "span"
  }

  function ClassName(c: Class): string {
    match c
    case NoClass => ""
    case MermaidClass => "mermaid-placeholder"
    case CodeBlockClass => "vcp-code-block vcp-scrollable"
    case WrapperClass(name) => name
    case MathClass(display) => if display then "vcp-math-block no-swipe" else "vcp-math-inline no-swipe"
    case CustomClass(kind) => "vcp-custom-" + kind
    case ImageClass => "vcp-markdown-image"
  }

  /** The streaming renderer asks for no conversion of an empty URL. */
  function DomUrl(env: Urls, u: Url): string { if u.asset && u.raw != "" then env.convert(u.raw) else u.raw }

  /** The class as an attribute value; the fixed names hold nothing to escape. */
  function ClassValue(c: Class): string {
    if c.WrapperClass? || c.CustomClass? then EscapeHtml(ClassName(c)) else ClassName(c)
  }

  function ClassAttribute(c: Class): string { " class=\"" + ClassValue(c) + "\"" }

  /** The attributes in the order they are set. */
  function Attributes(env: Urls, c: Class, a: Attrs): string {
    match a
    case NoAttrs => if c == NoClass then "" else ClassAttribute(c)
    case LinkAttrs(href, title) =>
      Optional("href", env.link(DomUrl(env, href))) + Attribute("title", title)
      + " target=\"_blank\" rel=\"noopener noreferrer\""
    case ImageAttrs(src, alt, title) =>
      Optional("src", env.image(DomUrl(env, src))) + Attribute("alt", alt) + Attribute("title", title)
      + " loading=\"lazy\"" + ClassAttribute(c)
    case LatexAttr(content) => ClassAttribute(c) + Attribute("data-latex", content)
    case LevelAttr(value) => Attribute("level", Decimal(value))
  }

  /** An element as HTML text. */
  function Printed(env: Urls, tag: Tag, c: Class, attrs: Attrs, inner: string): string {
    if tag == HrTag || tag == BrTag then "<" + TagName(tag) + Attributes(env, c, attrs) + "/>"
    else if tag == ImgTag then "<img" + Attributes(env, c, attrs) + " />"
    else "<" + TagName(tag) + Attributes(env, c, attrs) + ">" + inner + "</" + TagName(tag) + ">"
  }

  /** The tree as HTML text. */
  function Serialized(env: Urls, f: Keyed): string {
    match f
    case Empty => ""
    case Node(_, TextNode(data), _, rest) => EscapeHtml(data) + Serialized(env, rest)
    case Node(_, Elem(tag, c, attrs), kids, rest) => Printed(env, tag, c, attrs, Serialized(env, kids)) + Serialized(env, rest)
  }

  // ---- The two renderers agree

  /** No class name that comes with the syntax tree needs escaping. */
  predicate PlainInline(x: Inline)
    decreases x, 0
  {
    match x
    case Marked(_, kids) => PlainInlines(kids)
    case Link(_, _, kids) => PlainInlines(kids)
    case Custom(kind, _, inner) => NothingToEscape(kind) && (inner.Some? ==> PlainInlines(inner.value))
    case _ => true
  }

  predicate PlainInlines(xs: List<Inline>)
    decreases xs, 1
  {
    xs.Cons? ==> PlainInline(xs.head) && PlainInlines(xs.tail)
  }

  predicate PlainBlock(b: Block)
    decreases b, 0
  {
    match b
    case Paragraph(kids) => PlainInlines(kids)
    case Heading(_, kids) => PlainInlines(kids)
    case Quote(blocks) => PlainBlocks(blocks)
    case Itemized(_, items) => PlainItems(items)
    case Table(header, rows, wrapper) => NothingToEscape(OrEmpty(wrapper)) && PlainCells(header) && PlainRows(rows)
    case _ => true
  }

  predicate PlainBlocks(bs: List<Block>)
    decreases bs, 1
  {
    bs.Cons? ==> PlainBlock(bs.head) && PlainBlocks(bs.tail)
  }

  predicate PlainItems(items: List<List<Block>>)
    decreases items, 1
  {
    items.Cons? ==> PlainBlocks(items.head) && PlainItems(items.tail)
  }

  predicate PlainCells(cells: List<List<Inline>>) { cells.Cons? ==> PlainInlines(cells.head) && PlainCells(cells.tail) }

  predicate PlainRows(rows: List<List<List<Inline>>>) { rows.Cons? ==> PlainCells(rows.head) && PlainRows(rows.tail) }

  /** A URL flagged for conversion is not empty: the parser flags only what begins with "vcp-asset:" or "/". */
  predicate Filled(u: Url) { u.asset ==> u.raw != "" }

  predicate FilledInline(x: Inline)
    decreases x, 0
  {
    match x
    case Marked(_, kids) => FilledInlines(kids)
    case Link(href, _, kids) => Filled(href) && FilledInlines(kids)
    case Image(src, _, _) => Filled(src)
    case Custom(_, _, inner) => inner.Some? ==> FilledInlines(inner.value)
    case _ => true
  }

  predicate FilledInlines(xs: List<Inline>)
    decreases xs, 1
  {
    xs.Cons? ==> FilledInline(xs.head) && FilledInlines(xs.tail)
  }

  predicate FilledBlock(b: Block)
    decreases b, 0
  {
    match b
    case Paragraph(kids) => FilledInlines(kids)
    case Heading(_, kids) => FilledInlines(kids)
    case Quote(blocks) => FilledBlocks(blocks)
    case Itemized(_, items) => FilledItems(items)
    case Table(header, rows, _) => FilledCells(header) && FilledRows(rows)
    case _ => true
  }

  predicate FilledBlocks(bs: List<Block>)
    decreases bs, 1
  {
    bs.Cons? ==> FilledBlock(bs.head) && FilledBlocks(bs.tail)
  }

  predicate FilledItems(items: List<List<Block>>)
    decreases items, 1
  {
    items.Cons? ==> FilledBlocks(items.head) && FilledItems(items.tail)
  }

  predicate FilledCells(cells: List<List<Inline>>) { cells.Cons? ==> FilledInlines(cells.head) && FilledCells(cells.tail) }

  predicate FilledRows(rows: List<List<List<Inline>>>) { rows.Cons? ==> FilledCells(rows.head) && FilledRows(rows.tail) }

  /** Two texts are the same if plain holds; otherwise the tree's is longer. */
  predicate Agrees(dom: string, html: string, plain: bool) {
    if plain then dom == html
    else |dom| > |html|
  }

  lemma {:induction false} HeadAndRest(env: Urls, k: Option<Path>, l: Label, kids: Keyed, rest: Keyed)
    ensures Serialized(env, Node(k, l, kids, rest)) == Serialized(env, Node(k, l, kids, Empty)) + Serialized(env, rest)
  {
    assert Serialized(env, Empty) == "";
  }

  /** A node and its later siblings. */
  lemma {:induction false} NextAgrees(env: Urls, k: Option<Path>, l: Label, kids: Keyed, rest: Keyed, h: string, p: bool, h': string, p': bool)
    requires Agrees(Serialized(env, Node(k, l, kids, Empty)), h, p) && Agrees(Serialized(env, rest), h', p')
    ensures Agrees(Serialized(env, Node(k, l, kids, rest)), h + h', p && p')
  {
    HeadAndRest(env, k, l, kids, rest);
  }

  /** An element on its own. */
  lemma {:induction false} Alone(env: Urls, k: Option<Path>, tag: Tag, c: Class, attrs: Attrs, kids: Keyed)
    ensures Serialized(env, Node(k, Elem(tag, c, attrs), kids, Empty)) == Printed(env, tag, c, attrs, Serialized(env, kids))
  {
    assert Serialized(env, Empty) == "";
  }

  lemma {:induction false} PlainPrinted(env: Urls, tag: Tag, d: string, html: string, plain: bool)
    requires tag != HrTag && tag != BrTag && tag != ImgTag && Agrees(d, html, plain)
    ensures Agrees(Printed(env, tag, NoClass, NoAttrs, d), Wrapped(TagName(tag), html), plain)
  {
    assert "<" + TagName(tag) + "" + ">" == "<" + TagName(tag) + ">";
  }

  /** An element without attributes. */
  lemma {:induction false} ElementAgrees(env: Urls, k: Option<Path>, tag: Tag, name: string, kids: Keyed, html: string, plain: bool)
    requires tag != HrTag && tag != BrTag && tag != ImgTag && TagName(tag) == name && Agrees(Serialized(env, kids), html, plain)
    ensures Agrees(Serialized(env, Node(k, Elem(tag, NoClass, NoAttrs), kids, Empty)), Wrapped(name, html), plain)
  {
    Alone(env, k, tag, NoClass, NoAttrs, kids);
    PlainPrinted(env, tag, Serialized(env, kids), html, plain);
  }

  /** The class comes with the syntax tree and needs no escaping, or is a fixed one. */
  predicate PlainClass(c: Class) { c.WrapperClass? || c.CustomClass? ==> NothingToEscape(ClassName(c)) }

  lemma OpenTagAgrees(name: string, c: Class, more: string)
    ensures Agrees(OpenTag(name, ClassValue(c), more), OpenTag(name, ClassName(c), more), PlainClass(c))
  {
    EscapeLength(ClassName(c));
  }

  /** An element with a class, which only the tree's text escapes. */
  lemma {:induction false} ClassedAgrees(env: Urls, k: Option<Path>, tag: Tag, name: string, c: Class, a: Attrs, more: string,
                                         kids: Keyed, html: string, plain: bool)
    requires tag != HrTag && tag != BrTag && tag != ImgTag && TagName(tag) == name && Agrees(Serialized(env, kids), html, plain)
    requires Attributes(env, c, a) == ClassAttribute(c) + more
    ensures Agrees(Serialized(env, Node(k, Elem(tag, c, a), kids, Empty)), Classed(name, ClassName(c), more, html),
                   PlainClass(c) && plain)
  {
    Alone(env, k, tag, c, a, kids);
    OpenTagAgrees(name, c, more);
  }

  lemma {:induction false} TextKidAgrees(env: Urls, text: string)
    ensures Serialized(env, TextKid(text)) == EscapeHtml(text)
  {
    assert EscapeHtml("") == "";
    assert Serialized(env, Empty) == "";
  }

  lemma PrefixKeepsPlain(s: string, t: string)
    requires NothingToEscape(s)
    ensures NothingToEscape(s + t) <==> NothingToEscape(t)
  {
    if NothingToEscape(s + t) {
      forall i | 0 <= i < |t| ensures !Escapable(t[i]) { assert (s + t)[|s| + i] == t[i]; }
    }
  }

  lemma {:induction false} LinkText(env: Urls, href: Url, title: string, d: string)
    ensures Printed(env, ATag, NoClass, LinkAttrs(href, title), d) == LinkOpen(env, DomUrl(env, href), title) + d + "</a>"
  {
    var h, t, r := Optional("href", env.link(DomUrl(env, href))), Attribute("title", title), " target=\"_blank\" rel=\"noopener noreferrer\"";
    assert Attributes(env, NoClass, LinkAttrs(href, title)) == h + t + r;
    Reassociated(h, t, r, d);
  }

  lemma Reassociated(h: string, t: string, r: string, d: string)
    ensures "<" + "a" + (h + t + r) + ">" + d + "</" + "a" + ">" == "<a" + h + t + r + ">" + d + "</a>"
  {
    assert "<" + "a" + (h + t + r) + ">" == "<a" + h + t + r + ">";
    assert "</" + "a" + ">" == "</a>";
  }

  /** A link, apart from its children. */
  lemma {:induction false} LinkAgrees(env: Urls, k: Option<Path>, href: Url, title: string, kids: Keyed, html: string, plain: bool)
    requires Filled(href) && Agrees(Serialized(env, kids), html, plain)
    ensures Agrees(Serialized(env, Node(k, Elem(ATag, NoClass, LinkAttrs(href, title)), kids, Empty)),
                   LinkOpen(env, HtmlUrl(env, href), title) + html + "</a>", plain)
  {
    Alone(env, k, ATag, NoClass, LinkAttrs(href, title), kids);
    LinkText(env, href, title, Serialized(env, kids));
    assert DomUrl(env, href) == HtmlUrl(env, href);
  }

  lemma {:induction false} ImageText(env: Urls, src: Url, alt: string, title: string)
    ensures Printed(env, ImgTag, ImageClass, ImageAttrs(src, alt, title), "") == ImageHtml(env, DomUrl(env, src), alt, title)
  {
    var o := Optional("src", env.image(DomUrl(env, src)));
    assert Attributes(env, ImageClass, ImageAttrs(src, alt, title))
        == o + Attribute("alt", alt) + Attribute("title", title) + " loading=\"lazy\"" + ClassAttribute(ImageClass);
    ImageClassText();
  }

  lemma ImageClassText()
    ensures ClassAttribute(ImageClass) == " class=\"vcp-markdown-image\""
  {}

  lemma {:induction false} ImageAgrees(env: Urls, k: Option<Path>, src: Url, alt: string, title: string)
    ensures Serialized(env, Node(k, Elem(ImgTag, ImageClass, ImageAttrs(src, alt, title)), Empty, Empty))
         == ImageHtml(env, DomUrl(env, src), alt, title)
  {
    Alone(env, k, ImgTag, ImageClass, ImageAttrs(src, alt, title), Empty);
    ImageText(env, src, alt, title);
  }

  lemma {:induction false} MathAgrees(env: Urls, k: Option<Path>, content: string, display: bool)
    ensures Agrees(Serialized(env, Node(k, Elem(SpanTag, MathClass(display), LatexAttr(content)), TextKid(content), Empty)),
                   Classed("span", ClassName(MathClass(display)), Attribute("data-latex", content), EscapeHtml(content)), true)
  {
    TextKidAgrees(env, content);
    ClassedAgrees(env, k, SpanTag, "span", MathClass(display), LatexAttr(content), Attribute("data-latex", content), TextKid(content),
                  EscapeHtml(content), true);
  }

  /** An element whose class is its only attribute. */
  lemma {:induction false} OnlyClassAgrees(env: Urls, k: Option<Path>, tag: Tag, name: string, c: Class, kids: Keyed,
                                           html: string, plain: bool)
    requires c != NoClass && tag != HrTag && tag != BrTag && tag != ImgTag && TagName(tag) == name
    requires Agrees(Serialized(env, kids), html, plain)
    ensures Agrees(Serialized(env, Node(k, Elem(tag, c, NoAttrs), kids, Empty)), Classed(name, ClassName(c), "", html),
                   PlainClass(c) && plain)
  {
    ClassedAgrees(env, k, tag, name, c, NoAttrs, "", kids, html, plain);
  }

  lemma {:induction false} InlineAgrees(env: Urls, x: Inline, id: Path)
    requires FilledInline(x)
    ensures Agrees(Serialized(env, RenderInline(x, id, Empty)), InlineHtml(env, x), PlainInline(x))
    decreases x, 0, 2
  {
    match x
    case Marked(_, _) => MarkedAgrees(env, x, id);
    case Link(_, _, _) => AnchorAgrees(env, x, id);
    case Custom(_, _, _) => CustomAgrees(env, x, id);
    case _ => LeafAgrees(env, x, id);
  }

  /** Inline nodes without children of their own. */
  lemma {:induction false} LeafAgrees(env: Urls, x: Inline, id: Path)
    requires FilledInline(x) && !x.Marked? && !x.Link? && !x.Custom?
    ensures Agrees(Serialized(env, RenderInline(x, id, Empty)), InlineHtml(env, x), PlainInline(x))
  {
    if x.Image? { ImageLeaf(env, x, id); } else if x.Math? { MathLeaf(env, x, id); } else { SimpleAgrees(env, x, id); }
  }

  lemma {:induction false} ImageLeaf(env: Urls, x: Inline, id: Path)
    requires FilledInline(x) && x.Image?
    ensures Agrees(Serialized(env, RenderInline(x, id, Empty)), InlineHtml(env, x), PlainInline(x))
  {
    ImageAgrees(env, Some(id), x.src, x.alt, OrEmpty(x.title));
    assert DomUrl(env, x.src) == HtmlUrl(env, x.src);
  }

  lemma {:induction false} MathText(env: Urls, content: string, display: bool)
    ensures InlineHtml(env, Math(content, display))
         == Classed("span", ClassName(MathClass(display)), Attribute("data-latex", content), EscapeHtml(content))
  {}

  lemma {:induction false} MathLeaf(env: Urls, x: Inline, id: Path)
    requires x.Math?
    ensures Agrees(Serialized(env, RenderInline(x, id, Empty)), InlineHtml(env, x), PlainInline(x))
  {
    MathText(env, x.content, x.display);
    MathAgrees(env, Some(id), x.content, x.display);
  }

  lemma {:induction false} SimpleAgrees(env: Urls, x: Inline, id: Path)
    requires x.Text? || x.Code? || x.Break?
    ensures Agrees(Serialized(env, RenderInline(x, id, Empty)), InlineHtml(env, x), PlainInline(x))
  {
    if x.Code? {
      TextKidAgrees(env, x.value);
      ElementAgrees(env, Some(id), CodeTag, "code", TextKid(x.value), EscapeHtml(x.value), true);
    } else {
      assert Serialized(env, Empty) == "";
    }
  }

  lemma MarkNames(m: Mark)
    ensures TagName(MarkTag(m)) == MarkName(m) && MarkTag(m) != HrTag && MarkTag(m) != BrTag && MarkTag(m) != ImgTag
  {}

  lemma {:induction false} MarkedAgrees(env: Urls, x: Inline, id: Path)
    requires FilledInline(x) && x.Marked?
    ensures Agrees(Serialized(env, RenderInline(x, id, Empty)), InlineHtml(env, x), PlainInline(x))
    decreases x, 0, 1
  {
    InlinesAgree(env, x.kids, id, 0);
    MarkNames(x.mark);
    ElementAgrees(env, Some(id), MarkTag(x.mark), MarkName(x.mark), RenderInlines(x.kids, id, 0), InlinesHtml(env, x.kids),
                  PlainInlines(x.kids));
  }

  lemma {:induction false} AnchorAgrees(env: Urls, x: Inline, id: Path)
    requires FilledInline(x) && x.Link?
    ensures Agrees(Serialized(env, RenderInline(x, id, Empty)), InlineHtml(env, x), PlainInline(x))
    decreases x, 0, 1
  {
    InlinesAgree(env, x.kids, id, 0);
    LinkAgrees(env, Some(id), x.href, OrEmpty(x.title), RenderInlines(x.kids, id, 0), InlinesHtml(env, x.kids), PlainInlines(x.kids));
  }

  lemma CustomPlain(kind: string)
    ensures PlainClass(CustomClass(kind)) <==> NothingToEscape(kind)
  {
    PrefixKeepsPlain("vcp-custom-", kind);
  }

  lemma {:induction false} CustomKids(env: Urls, x: Inline, id: Path)
    requires FilledInline(x) && x.Custom?
    ensures Agrees(Serialized(env, InlineKids(x, id)), CustomInner(env, x.text, x.inner), x.inner.Some? ==> PlainInlines(x.inner.value))
    decreases x, 0, 0
  {
    if x.inner.Some? && x.inner.value.Cons? {
      InlinesAgree(env, x.inner.value, id, 0);
    } else {
      TextKidAgrees(env, OrEmpty(x.text));
    }
  }

  lemma {:induction false} CustomAgrees(env: Urls, x: Inline, id: Path)
    requires FilledInline(x) && x.Custom?
    ensures Agrees(Serialized(env, RenderInline(x, id, Empty)), InlineHtml(env, x), PlainInline(x))
    decreases x, 0, 1
  {
    CustomKids(env, x, id);
    OnlyClassAgrees(env, Some(id), SpanTag, "span", CustomClass(x.kind), InlineKids(x, id), CustomInner(env, x.text, x.inner),
                    x.inner.Some? ==> PlainInlines(x.inner.value));
    CustomPlain(x.kind);
  }

  lemma {:induction false} InlinesAgree(env: Urls, xs: List<Inline>, base: Path, k: nat)
    requires FilledInlines(xs)
    ensures Agrees(Serialized(env, RenderInlines(xs, base, k)), InlinesHtml(env, xs), PlainInlines(xs))
    decreases xs, 1
  {
    if xs.Cons? {
      var id := Sub(base, In(k));
      InlineAgrees(env, xs.head, id);
      InlinesAgree(env, xs.tail, base, k + 1);
      NextAgrees(env, Some(id), InlineLabel(xs.head), InlineKids(xs.head, id), RenderInlines(xs.tail, base, k + 1),
                 InlineHtml(env, xs.head), PlainInline(xs.head), InlinesHtml(env, xs.tail), PlainInlines(xs.tail));
    }
  }

  lemma {:induction false} CellsAgree(env: Urls, cells: List<List<Inline>>, base: Path, header: bool, k: nat)
    requires FilledCells(cells)
    ensures Agrees(Serialized(env, RenderCells(cells, base, header, k)), CellsHtml(env, cells, CellName(header)), PlainCells(cells))
  {
    if cells.Cons? {
      var id := Sub(base, if header then Th(k) else Td(k));
      var cell := Elem(if header then ThTag else TdTag, NoClass, NoAttrs);
      CellAgrees(env, cells.head, id, header);
      CellsAgree(env, cells.tail, base, header, k + 1);
      NextAgrees(env, Some(id), cell, RenderInlines(cells.head, id, 0), RenderCells(cells.tail, base, header, k + 1),
                 Wrapped(CellName(header), InlinesHtml(env, cells.head)), PlainInlines(cells.head),
                 CellsHtml(env, cells.tail, CellName(header)), PlainCells(cells.tail));
    }
  }

  function CellName(header: bool): string { if header then "th" else "td" }

  lemma {:induction false} CellAgrees(env: Urls, cell: List<Inline>, id: Path, header: bool)
    requires FilledInlines(cell)
    ensures Agrees(Serialized(env, Node(Some(id), Elem(if header then ThTag else TdTag, NoClass, NoAttrs), RenderInlines(cell, id, 0), Empty)),
                   Wrapped(CellName(header), InlinesHtml(env, cell)), PlainInlines(cell))
  {
    InlinesAgree(env, cell, id, 0);
    var kids, html, plain := RenderInlines(cell, id, 0), InlinesHtml(env, cell), PlainInlines(cell);
    if header {
      ElementAgrees(env, Some(id), ThTag, "th", kids, html, plain);
    } else {
      ElementAgrees(env, Some(id), TdTag, "td", kids, html, plain);
    }
  }

  lemma {:induction false} RowsAgree(env: Urls, rows: List<List<List<Inline>>>, base: Path, k: nat)
    requires FilledRows(rows)
    ensures Agrees(Serialized(env, RenderRows(rows, base, k)), RowsHtml(env, rows), PlainRows(rows))
  {
    if rows.Cons? {
      var kids, rest := RenderCells(rows.head, Sub(base, Tr(k)), false, 0), RenderRows(rows.tail, base, k + 1);
      CellsAgree(env, rows.head, Sub(base, Tr(k)), false, 0);
      RowsAgree(env, rows.tail, base, k + 1);
      ElementAgrees(env, None, TrTag, "tr", kids, CellsHtml(env, rows.head, "td"), PlainCells(rows.head));
      NextAgrees(env, None, Elem(TrTag, NoClass, NoAttrs), kids, rest, Wrapped("tr", CellsHtml(env, rows.head, "td")), PlainCells(rows.head),
                 RowsHtml(env, rows.tail), PlainRows(rows.tail));
    }
  }

  lemma {:induction false} PlainElement(env: Urls, tag: Tag, name: string, kids: Keyed, html: string, plain: bool)
    requires tag != HrTag && tag != BrTag && tag != ImgTag && TagName(tag) == name && Agrees(Serialized(env, kids), html, plain)
    ensures Agrees(Serialized(env, Plain(tag, kids)), Wrapped(name, html), plain)
  {
    ElementAgrees(env, None, tag, name, kids, html, plain);
  }

  /** What stands inside the wrapper of a table. */
  lemma {:induction false} TableAgrees(env: Urls, header: List<List<Inline>>, rows: List<List<List<Inline>>>, id: Path)
    requires FilledCells(header) && FilledRows(rows)
    ensures Agrees(Serialized(env, Plain(TableTag, Graft(Plain(TheadTag, Plain(TrTag, RenderCells(header, id, true, 0))),
                                                         Plain(TbodyTag, RenderRows(rows, id, 0))))),
                   Wrapped("table", Wrapped("thead", Wrapped("tr", CellsHtml(env, header, "th"))) + Wrapped("tbody", RowsHtml(env, rows))),
                   PlainCells(header) && PlainRows(rows))
  {
    var head, body := Plain(TheadTag, Plain(TrTag, RenderCells(header, id, true, 0))), Plain(TbodyTag, RenderRows(rows, id, 0));
    HeadAgrees(env, header, id);
    RowsAgree(env, rows, id, 0);
    PlainElement(env, TbodyTag, "tbody", RenderRows(rows, id, 0), RowsHtml(env, rows), PlainRows(rows));
    var h, b := Wrapped("thead", Wrapped("tr", CellsHtml(env, header, "th"))), Wrapped("tbody", RowsHtml(env, rows));
    PartsAgree(env, head, body, h, PlainCells(header), b, PlainRows(rows));
  }

  lemma {:induction false} HeadAgrees(env: Urls, header: List<List<Inline>>, id: Path)
    requires FilledCells(header)
    ensures Agrees(Serialized(env, Plain(TheadTag, Plain(TrTag, RenderCells(header, id, true, 0)))),
                   Wrapped("thead", Wrapped("tr", CellsHtml(env, header, "th"))), PlainCells(header))
  {
    var tr := Plain(TrTag, RenderCells(header, id, true, 0));
    CellsAgree(env, header, id, true, 0);
    PlainElement(env, TrTag, "tr", RenderCells(header, id, true, 0), CellsHtml(env, header, "th"), PlainCells(header));
    PlainElement(env, TheadTag, "thead", tr, Wrapped("tr", CellsHtml(env, header, "th")), PlainCells(header));
  }

  lemma {:induction false} PartsAgree(env: Urls, head: Keyed, body: Keyed, h: string, p: bool, b: string, q: bool)
    requires head.Node? && head.rest.Empty? && Agrees(Serialized(env, head), h, p) && Agrees(Serialized(env, body), b, q)
    ensures Agrees(Serialized(env, Plain(TableTag, Graft(head, body))), Wrapped("table", h + b), p && q)
  {
    assert Graft(head, body) == Node(head.key, head.el, head.kids, body);
    NextAgrees(env, head.key, head.el, head.kids, body, h, p, b, q);
    PlainElement(env, TableTag, "table", Graft(head, body), h + b, p && q);
  }

  lemma {:induction false} CodeAgrees(env: Urls, k: Option<Path>, mermaid: bool, code: string)
    ensures Agrees(Serialized(env, Node(k, if mermaid then Elem(DivTag, MermaidClass, NoAttrs) else Elem(PreTag, CodeBlockClass, NoAttrs),
                                        if mermaid then TextKid(code) else Plain(CodeTag, TextKid(code)), Empty)),
                   if mermaid then Classed("div", ClassName(MermaidClass), "", EscapeHtml(code))
                   else Classed("pre", ClassName(CodeBlockClass), "", Wrapped("code", EscapeHtml(code))), true)
  {
    TextKidAgrees(env, code);
    if mermaid {
      OnlyClassAgrees(env, k, DivTag, "div", MermaidClass, TextKid(code), EscapeHtml(code), true);
    } else {
      PlainElement(env, CodeTag, "code", TextKid(code), EscapeHtml(code), true);
      OnlyClassAgrees(env, k, PreTag, "pre", CodeBlockClass, Plain(CodeTag, TextKid(code)), Wrapped("code", EscapeHtml(code)), true);
    }
  }

  /** The static renderer's text for a block is the text of the tree that the streaming renderer builds. */
  lemma {:induction false} BlockAgrees(env: Urls, b: Block, id: Path)
    requires FilledBlock(b)
    ensures Agrees(Serialized(env, RenderBlock(b, id, Empty)), BlockHtml(env, b), PlainBlock(b))
    decreases b, 0, 1
  {
    match b
    case Paragraph(_) => TextBlockAgrees(env, b, id);
    case Heading(_, _) => TextBlockAgrees(env, b, id);
    case CodeBlock(mermaid, _, code) => CodeAgrees(env, Some(id), mermaid, code);
    case Quote(_) => QuoteAgrees(env, b, id);
    case Itemized(_, _) => ListAgrees(env, b, id);
    case Table(_, _, _) => TableBlockAgrees(env, b, id);
    case Rule => RuleAgrees(env, Some(id));
  }

  lemma {:induction false} RuleAgrees(env: Urls, k: Option<Path>)
    ensures Serialized(env, Node(k, Elem(HrTag, NoClass, NoAttrs), Empty, Empty)) == "<hr/>"
  {
    Alone(env, k, HrTag, NoClass, NoAttrs, Empty);
  }

  lemma {:induction false} TableBlockAgrees(env: Urls, b: Block, id: Path)
    requires FilledBlock(b) && b.Table?
    ensures Agrees(Serialized(env, RenderBlock(b, id, Empty)), BlockHtml(env, b), PlainBlock(b))
  {
    TableAgrees(env, b.header, b.rows, id);
    WrapperAgrees(env, Some(id), OrEmpty(b.wrapper), BlockKids(b, id),
                  Wrapped("table", Wrapped("thead", Wrapped("tr", CellsHtml(env, b.header, "th"))) + Wrapped("tbody", RowsHtml(env, b.rows))),
                  PlainCells(b.header) && PlainRows(b.rows));
  }

  lemma {:induction false} TextBlockAgrees(env: Urls, b: Block, id: Path)
    requires FilledBlock(b) && (b.Paragraph? || b.Heading?)
    ensures Agrees(Serialized(env, RenderBlock(b, id, Empty)), BlockHtml(env, b), PlainBlock(b))
  {
    InlinesAgree(env, b.kids, id, 0);
    var tag := if b.Paragraph? then PTag else HTag(HeadingNumber(b.level));
    var name := if b.Paragraph? then "p" else "h" + Decimal(HeadingNumber(b.level));
    ElementAgrees(env, Some(id), tag, name, RenderInlines(b.kids, id, 0), InlinesHtml(env, b.kids), PlainInlines(b.kids));
  }

  lemma {:induction false} QuoteAgrees(env: Urls, b: Block, id: Path)
    requires FilledBlock(b) && b.Quote?
    ensures Agrees(Serialized(env, RenderBlock(b, id, Empty)), BlockHtml(env, b), PlainBlock(b))
    decreases b, 0, 0
  {
    BlocksAgree(env, b.blocks, id, 0);
    ElementAgrees(env, Some(id), BlockquoteTag, "blockquote", RenderBlocks(b.blocks, id, 0), BlocksHtml(env, b.blocks), PlainBlocks(b.blocks));
  }

  lemma {:induction false} ListAgrees(env: Urls, b: Block, id: Path)
    requires FilledBlock(b) && b.Itemized?
    ensures Agrees(Serialized(env, RenderBlock(b, id, Empty)), BlockHtml(env, b), PlainBlock(b))
    decreases b, 0, 0
  {
    ItemsAgree(env, b.items, id, 0);
    ElementAgrees(env, Some(id), if b.ordered then OlTag else UlTag, if b.ordered then "ol" else "ul", RenderItems(b.items, id, 0),
                  ItemsHtml(env, b.items), PlainItems(b.items));
  }

  lemma WrapperPlain(wrapper: string)
    ensures PlainClass(WrapperClass(if wrapper == "" then "vcp-table-wrapper" else wrapper)) <==> NothingToEscape(wrapper)
  {}

  lemma {:induction false} WrapperAgrees(env: Urls, k: Option<Path>, wrapper: string, kids: Keyed, html: string, plain: bool)
    requires Agrees(Serialized(env, kids), html, plain)
    ensures var name := if wrapper == "" then "vcp-table-wrapper" else wrapper;
            Agrees(Serialized(env, Node(k, Elem(DivTag, WrapperClass(name), NoAttrs), kids, Empty)), Classed("div", name, "", html),
                   NothingToEscape(wrapper) && plain)
  {
    var name := if wrapper == "" then "vcp-table-wrapper" else wrapper;
    WrapperPlain(wrapper);
    OnlyClassAgrees(env, k, DivTag, "div", WrapperClass(name), kids, html, plain);
  }

  lemma {:induction false} BlocksAgree(env: Urls, bs: List<Block>, base: Path, k: nat)
    requires FilledBlocks(bs)
    ensures Agrees(Serialized(env, RenderBlocks(bs, base, k)), BlocksHtml(env, bs), PlainBlocks(bs))
    decreases bs, 1
  {
    if bs.Cons? {
      var id := Sub(base, BlockSeg(base, k));
      var rest := RenderBlocks(bs.tail, base, k + 1);
      BlockAgrees(env, bs.head, id);
      BlocksAgree(env, bs.tail, base, k + 1);
      NextAgrees(env, Some(id), BlockLabel(bs.head), BlockKids(bs.head, id), rest, BlockHtml(env, bs.head), PlainBlock(bs.head),
                 BlocksHtml(env, bs.tail), PlainBlocks(bs.tail));
    }
  }

  lemma {:induction false} ItemsAgree(env: Urls, items: List<List<Block>>, base: Path, k: nat)
    requires FilledItems(items)
    ensures Agrees(Serialized(env, RenderItems(items, base, k)), ItemsHtml(env, items), PlainItems(items))
    decreases items, 1
  {
    if items.Cons? {
      var id := Sub(base, Item(k));
      var kids, rest := RenderBlocks(items.head, id, 0), RenderItems(items.tail, base, k + 1);
      BlocksAgree(env, items.head, id, 0);
      ItemsAgree(env, items.tail, base, k + 1);
      ElementAgrees(env, Some(id), LiTag, "li", kids, BlocksHtml(env, items.head), PlainBlocks(items.head));
      NextAgrees(env, Some(id), Elem(LiTag, NoClass, NoAttrs), kids, rest, Wrapped("li", BlocksHtml(env, items.head)),
                 PlainBlocks(items.head), ItemsHtml(env, items.tail), PlainItems(items.tail));
    }
  }

  /** The two renderers agree on a document exactly if no class name in it needs escaping. */
  lemma {:induction false} RenderersAgree(env: Urls, doc: List<Block>)
    requires FilledBlocks(doc)
    ensures PlainBlocks(doc) <==> Serialized(env, RenderDocument(doc)) == BlocksHtml(env, doc)
  {
    BlocksAgree(env, doc, Root, 0);
  }

  lemma Between(p: string, a: string, b: string, q: string)
    ensures p + a + q == p + b + q <==> a == b
  {
    if p + a + q == p + b + q {
      assert |a| == |b|;
      assert (p + a + q)[|p|..|p| + |a|] == a && (p + b + q)[|p|..|p| + |b|] == b;
    }
  }

  lemma OptionalInjective(name: string, a: Option<string>, b: Option<string>)
    ensures Optional(name, a) == Optional(name, b) <==> a == b
  {
    if a.Some? && b.Some? {
      Between(" " + name + "=\"", EscapeHtml(a.value), EscapeHtml(b.value), "\"");
      EscapeRoundTrip(a.value);
      EscapeRoundTrip(b.value);
    }
  }

  lemma Regrouped(p: string, o: string, a: string, t: string, l: string, c: string, q: string)
    ensures p + (o + a + t + l + c) + q == p + o + (a + t + l + c + q)
  {}

  /** The text of an image determines the URL that the filter lets through, if any. */
  lemma ImageInjective(env: Urls, u: string, v: string, alt: string, title: string)
    ensures ImageHtml(env, u, alt, title) == ImageHtml(env, v, alt, title) <==> env.image(u) == env.image(v)
  {
    var a, t, l, c := Attribute("alt", alt), Attribute("title", title), " loading=\"lazy\"", " class=\"vcp-markdown-image\"";
    Regrouped("<img", Optional("src", env.image(u)), a, t, l, c, " />");
    Regrouped("<img", Optional("src", env.image(v)), a, t, l, c, " />");
    Between("<img", Optional("src", env.image(u)), Optional("src", env.image(v)), a + t + l + c + " />");
    OptionalInjective("src", env.image(u), env.image(v));
  }

  /** An empty URL that is flagged for conversion is converted by the static renderer only: the texts of the image
      differ exactly if the filter tells the two URLs apart. */
  lemma EmptyUrlDiffers(env: Urls, alt: string, title: Option<string>, id: Path)
    ensures var x := Image(Url("", true), alt, title);
            Serialized(env, RenderInline(x, id, Empty)) == InlineHtml(env, x) <==> env.image("") == env.image(env.convert(""))
  {
    ImageAgrees(env, Some(id), Url("", true), alt, OrEmpty(title));
    ImageInjective(env, "", env.convert(""), alt, OrEmpty(title));
  }

  lemma Tailed(p: string, o: string, t: string, r: string, d: string, q: string)
    ensures p + o + t + r + ">" + d + q == p + o + (t + r + ">" + d + q)
  {}

  lemma LinkInjective(env: Urls, u: string, v: string, title: string, d: string)
    ensures LinkOpen(env, u, title) + d + "</a>" == LinkOpen(env, v, title) + d + "</a>" <==> env.link(u) == env.link(v)
  {
    var t, r := Attribute("title", title), " target=\"_blank\" rel=\"noopener noreferrer\"";
    Tailed("<a", Optional("href", env.link(u)), t, r, d, "</a>");
    Tailed("<a", Optional("href", env.link(v)), t, r, d, "</a>");
    Between("<a", Optional("href", env.link(u)), Optional("href", env.link(v)), t + r + ">" + d + "</a>");
    OptionalInjective("href", env.link(u), env.link(v));
  }

  /** The same for a link, whatever children the renderers agree on. */
  lemma EmptyLinkDiffers(env: Urls, title: Option<string>, kids: List<Inline>, id: Path)
    requires Serialized(env, RenderInlines(kids, id, 0)) == InlinesHtml(env, kids)
    ensures var x := Link(Url("", true), title, kids);
            Serialized(env, RenderInline(x, id, Empty)) == InlineHtml(env, x) <==> env.link("") == env.link(env.convert(""))
  {
    var rendered := RenderInlines(kids, id, 0);
    Alone(env, Some(id), ATag, NoClass, LinkAttrs(Url("", true), OrEmpty(title)), rendered);
    LinkText(env, Url("", true), OrEmpty(title), Serialized(env, rendered));
    LinkInjective(env, "", env.convert(""), OrEmpty(title), InlinesHtml(env, kids));
  }
}
