/** What a reader meets in a tree, in tree order: its texts, heading levels, where its links lead, its pictures, titles,
    formulas and given class names; and that a rendered document shows exactly what its syntax tree holds. */
module DomContent {
  import opened Wrappers
  import opened MarkdownAst
  import opened NodeIds
  import opened DomTree

  datatype Piece =
    | Words(text: string)
    | Destination(url: Url)
    | Picture(url: Url, alt: string)
    | Title(text: string)
    | Formula(latex: string)
    | ClassName(name: string)
    | Level(number: nat)

  /** An empty text shows nothing. */
  function Word(text: string): seq<Piece> { if text == "" then [] else [Words(text)] }

  function LabelPieces(l: Label): seq<Piece> {
    match l
    case TextNode(data) => Word(data)
    case Elem(tag, c, attrs) => (if tag.HTag? then [Level(tag.n)] else []) + ClassPieces(c) + AttrPieces(attrs)
  }

  function ClassPieces(c: Class): seq<Piece> {
    match c
    case WrapperClass(name) => [ClassName(name)]
    case CustomClass(kind) => [ClassName("vcp-custom-" + kind)]
    case _ => []
  }

  function AttrPieces(a: Attrs): seq<Piece> {
    match a
    case LinkAttrs(href, title) => [Destination(href), Title(title)]
    case ImageAttrs(src, alt, title) => [Picture(src, alt), Title(title)]
    case LatexAttr(content) => [Formula(content)]
    case _ => []
  }

  function Pieces<K>(f: Forest<K>): seq<Piece> {
    match f
    case Empty => []
    case Node(_, l, kids, rest) => LabelPieces(l) + Pieces(kids) + Pieces(rest)
  }

  // ---- What the syntax tree holds

  function InlinePieces(x: Inline): seq<Piece>
    decreases x, 0
  {
    match x
    case Text(v) => Word(v)
    case Marked(_, kids) => InlinesPieces(kids)
    case Code(v) => Word(v)
    case Link(href, Some(title), kids) => [Destination(href), Title(title)] + InlinesPieces(kids)
    case Link(href, None, kids) => [Destination(href), Title("")] + InlinesPieces(kids)
    case Image(src, alt, Some(title)) => [Picture(src, alt), Title(title)]
    case Image(src, alt, None) => [Picture(src, alt), Title("")]
    case Break => []
    case Math(content, _) => [Formula(content)] + Word(content)
    case Custom(kind, _, Some(Cons(y, ys))) => [ClassName("vcp-custom-" + kind)] + InlinePieces(y) + InlinesPieces(ys)
    case Custom(kind, Some(text), _) => [ClassName("vcp-custom-" + kind)] + Word(text)
    case Custom(kind, None, _) => [ClassName("vcp-custom-" + kind)]
  }

  function InlinesPieces(xs: List<Inline>): seq<Piece>
    decreases xs, 1
  {
    match xs
    case Nil => []
    case Cons(x, rest) => InlinePieces(x) + InlinesPieces(rest)
  }

  function CellsPieces(cells: List<List<Inline>>): seq<Piece> {
    match cells
    case Nil => []
    case Cons(cell, rest) => InlinesPieces(cell) + CellsPieces(rest)
  }

  function RowsPieces(rows: List<List<List<Inline>>>): seq<Piece> {
    match rows
    case Nil => []
    case Cons(row, rest) => CellsPieces(row) + RowsPieces(rest)
  }

  function BlockPieces(b: Block): seq<Piece>
    decreases b, 0
  {
    match b
    case Paragraph(kids) => InlinesPieces(kids)
    case Heading(level, kids) => [Level(if level < 1 then 1 else level)] + InlinesPieces(kids)
    case CodeBlock(_, _, code) => Word(code)
    case Quote(blocks) => DocumentPieces(blocks)
    case Itemized(_, items) => ItemsPieces(items)
    case Table(header, rows, wrapper) =>
      [ClassName(if wrapper.None? || wrapper.value == "" then "vcp-table-wrapper" else wrapper.value)]
      + CellsPieces(header) + RowsPieces(rows)
    case Rule => []
  }

  function DocumentPieces(bs: List<Block>): seq<Piece>
    decreases bs, 1
  {
    match bs
    case Nil => []
    case Cons(b, rest) => BlockPieces(b) + DocumentPieces(rest)
  }

  function ItemsPieces(items: List<List<Block>>): seq<Piece>
    decreases items, 1
  {
    match items
    case Nil => []
    case Cons(item, rest) => DocumentPieces(item) + ItemsPieces(rest)
  }

  // ---- Rendering shows exactly that

  lemma {:induction false} GraftPieces<K>(f: Forest<K>, g: Forest<K>)
    ensures Pieces(Graft(f, g)) == Pieces(f) + Pieces(g)
  {
    if f.Node? { GraftPieces(f.rest, g); }
  }

  lemma {:induction false} TextKidPieces(text: string)
    ensures Pieces(TextKid(text)) == Word(text)
  {
    if text != "" { NothingShows(); }
  }

  lemma NothingShows()
    ensures Pieces<Option<Path>>(Empty) == []
  {}

  lemma ElementShows(key: Option<Path>, tag: Tag, kids: Keyed, rest: Keyed)
    requires !tag.HTag?
    ensures Pieces(Node(key, Elem(tag, NoClass, NoAttrs), kids, rest)) == Pieces(kids) + Pieces(rest)
  {
    assert LabelPieces(Elem(tag, NoClass, NoAttrs)) == [];
  }

  lemma {:induction false} CustomShows(x: Inline, id: Path)
    requires x.Custom? && (x.inner.Some? ==> Pieces(RenderInlines(x.inner.value, id, 0)) == InlinesPieces(x.inner.value))
    ensures LabelPieces(InlineLabel(x)) + Pieces(InlineKids(x, id)) == InlinePieces(x)
  {
    hide Pieces, RenderInlines;
    if x.inner.None? || x.inner.value.Nil? { TextKidPieces(OrEmpty(x.text)); }
  }

  lemma {:induction false} InlineShows(x: Inline, id: Path)
    ensures LabelPieces(InlineLabel(x)) + Pieces(InlineKids(x, id)) == InlinePieces(x)
    decreases x, 0
  {
    hide Pieces, RenderInlines, InlinesPieces;
    NothingShows();
    match x
    case Marked(_, kids) => InlinesShow(kids, id, 0);
    case Link(_, _, kids) => InlinesShow(kids, id, 0);
    case Code(v) => TextKidPieces(v);
    case Math(content, _) => TextKidPieces(content);
    case Custom(_, _, inner) =>
      if inner.Some? { InlinesShow(inner.value, id, 0); }
      CustomShows(x, id);
    case _ =>
  }

  lemma {:induction false} InlinesShow(xs: List<Inline>, base: Path, k: nat)
    ensures Pieces(RenderInlines(xs, base, k)) == InlinesPieces(xs)
    decreases xs, 1
  {
    if xs.Cons? {
      InlineShows(xs.head, Sub(base, In(k)));
      InlinesShow(xs.tail, base, k + 1);
    }
  }

  lemma {:induction false} CellsShow(cells: List<List<Inline>>, base: Path, header: bool, k: nat)
    ensures Pieces(RenderCells(cells, base, header, k)) == CellsPieces(cells)
  {
    hide Pieces, RenderInlines, InlinesPieces;
    NothingShows();
    if cells.Cons? {
      var id := Sub(base, if header then Th(k) else Td(k));
      InlinesShow(cells.head, id, 0);
      CellsShow(cells.tail, base, header, k + 1);
      ElementShows(Some(id), if header then ThTag else TdTag, RenderInlines(cells.head, id, 0),
                   RenderCells(cells.tail, base, header, k + 1));
    }
  }

  lemma {:induction false} RowsShow(rows: List<List<List<Inline>>>, base: Path, k: nat)
    ensures Pieces(RenderRows(rows, base, k)) == RowsPieces(rows)
  {
    if rows.Cons? {
      CellsShow(rows.head, Sub(base, Tr(k)), false, 0);
      RowsShow(rows.tail, base, k + 1);
    }
  }

  lemma {:induction false} PlainPieces(tag: Tag, kids: Keyed)
    requires !tag.HTag?
    ensures Pieces(Plain(tag, kids)) == Pieces(kids)
  {
    hide Pieces;
    NothingShows();
    ElementShows(None, tag, kids, Empty);
  }

  lemma {:induction false} TableShows(header: List<List<Inline>>, rows: List<List<List<Inline>>>, wrapper: Option<string>, id: Path)
    ensures Pieces(BlockKids(Table(header, rows, wrapper), id)) == CellsPieces(header) + RowsPieces(rows)
  {
    var h, b := RenderCells(header, id, true, 0), RenderRows(rows, id, 0);
    CellsShow(header, id, true, 0);
    RowsShow(rows, id, 0);
    PlainPieces(TrTag, h);
    PlainPieces(TheadTag, Plain(TrTag, h));
    PlainPieces(TbodyTag, b);
    GraftPieces(Plain(TheadTag, Plain(TrTag, h)), Plain(TbodyTag, b));
    PlainPieces(TableTag, Graft(Plain(TheadTag, Plain(TrTag, h)), Plain(TbodyTag, b)));
  }

  lemma {:induction false} BlockShows(b: Block, id: Path)
    ensures LabelPieces(BlockLabel(b)) + Pieces(BlockKids(b, id)) == BlockPieces(b)
    decreases b, 0
  {
    hide Pieces, RenderInlines, RenderBlocks, RenderItems, InlinesPieces, DocumentPieces, ItemsPieces;
    NothingShows();
    match b
    case Paragraph(kids) => InlinesShow(kids, id, 0);
    case Heading(_, kids) => InlinesShow(kids, id, 0);
    case CodeBlock(_, _, code) => TextKidPieces(code); PlainPieces(CodeTag, TextKid(code));
    case Quote(blocks) => BlocksShow(blocks, id, 0);
    case Itemized(_, items) => ItemsShow(items, id, 0);
    case Table(header, rows, wrapper) => TableShows(header, rows, wrapper, id);
    case Rule =>
  }

  lemma {:induction false} BlocksShow(bs: List<Block>, base: Path, k: nat)
    ensures Pieces(RenderBlocks(bs, base, k)) == DocumentPieces(bs)
    decreases bs, 1
  {
    if bs.Cons? {
      BlockShows(bs.head, Sub(base, BlockSeg(base, k)));
      BlocksShow(bs.tail, base, k + 1);
    }
  }

  lemma {:induction false} ItemsShow(items: List<List<Block>>, base: Path, k: nat)
    ensures Pieces(RenderItems(items, base, k)) == ItemsPieces(items)
    decreases items, 1
  {
    if items.Cons? {
      BlocksShow(items.head, Sub(base, Item(k)), 0);
      ItemsShow(items.tail, base, k + 1);
    }
  }

  /** A rendered document shows what its syntax tree holds: every text, heading level, link, picture, title, formula and
      given class name, each once and in order. */
  lemma DocumentShows(doc: List<Block>)
    ensures Pieces(RenderDocument(doc)) == DocumentPieces(doc)
  {
    BlocksShow(doc, Root, 0);
  }
}
