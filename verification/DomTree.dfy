/** DOM trees, and the trees that createDomFromNode and createInlineDom build from the syntax tree. */
module DomTree {
  import opened Wrappers
  import opened MarkdownAst
  import opened NodeIds

  datatype Tag =
    | PTag | HTag(n: nat) | DivTag | PreTag | CodeTag | BlockquoteTag | OlTag | UlTag | LiTag
    | TableTag | TheadTag | TbodyTag | TrTag | ThTag | TdTag | HrTag
    | StrongTag | EmTag | DelTag | ATag | ImgTag | BrTag | SpanTag

  datatype Class =
    | NoClass | MermaidClass | CodeBlockClass | WrapperClass(name: string)
    | MathClass(display: bool) | CustomClass(kind: string) | ImageClass

  datatype Attrs =
    | NoAttrs
    | LinkAttrs(href: Url, title: string)
    | ImageAttrs(src: Url, alt: string, title: string)
    | LatexAttr(content: string)
    | LevelAttr(value: nat)

  datatype Label = TextNode(data: string) | Elem(tag: Tag, class_: Class, attrs: Attrs)

  /** The child nodes of one parent: first child with its own children, then its later siblings.
      K is what identifies a node: an object identity, or the id it is registered under. */
  datatype Forest<+K> = Empty | Node(key: K, el: Label, kids: Forest<K>, rest: Forest<K>)

  /** A forest whose nodes carry the id they are registered under, if any. */
  type Keyed = Forest<Option<Path>>

  function Graft<K>(f: Forest<K>, g: Forest<K>): Forest<K> {
    match f
    case Empty => g
    case Node(k, l, kids, rest) => Node(k, l, kids, Graft(rest, g))
  }

  predicate HasKey(f: Keyed, p: Path) {
    f.Node? && (f.key == Some(p) || HasKey(f.kids, p) || HasKey(f.rest, p))
  }

  /** Every registered id lies in the subtree of p. */
  predicate AllBelow(f: Keyed, p: Path) {
    || f.Empty?
    || (&& (f.key.Some? ==> InSub(p, f.key.value))
        && AllBelow(f.kids, p)
        && AllBelow(f.rest, p))
  }

  /** No registered id lies in the subtree of p. */
  predicate NoneBelow(f: Keyed, p: Path) {
    || f.Empty?
    || (&& (f.key.Some? ==> !InSub(p, f.key.value))
        && NoneBelow(f.kids, p)
        && NoneBelow(f.rest, p))
  }

  predicate Disjoint(f: Keyed, g: Keyed) {
    || f.Empty?
    || (&& (f.key.Some? ==> !HasKey(g, f.key.value))
        && Disjoint(f.kids, g)
        && Disjoint(f.rest, g))
  }

  /** No id is used twice. */
  predicate Distinct(f: Keyed) {
    f.Empty? ||
    (&& (f.key.Some? ==> !HasKey(f.kids, f.key.value) && !HasKey(f.rest, f.key.value))
     && Disjoint(f.kids, f.rest) && Distinct(f.kids) && Distinct(f.rest))
  }

  /** Every registered id lies inside a table cell. */
  predicate AllInCells(f: Keyed) {
    || f.Empty?
    || (&& (f.key.Some? ==> InCell(f.key.value))
        && AllInCells(f.kids)
        && AllInCells(f.rest))
  }

  /** The same nodes, none of them registered. */
  function Unkeyed(f: Keyed): Keyed {
    match f
    case Empty => Empty
    case Node(_, l, kids, rest) => Node(None, l, Unkeyed(kids), Unkeyed(rest))
  }

  // ---- Rendering

  /** Assigning textContent: the empty string leaves no text node behind. */
  function TextKid(text: string): Keyed {
    if text == "" then Empty else Node(None, TextNode(text), Empty, Empty)
  }

  function HeadingNumber(level: nat): nat { if level == 0 then 1 else level }

  function MarkTag(m: Mark): Tag {
    match m
    case Strong => StrongTag
    case Emphasis => EmTag
    case Strikethrough => DelTag
  }

  function InlineLabel(x: Inline): Label {
    match x
    case Text(v) => TextNode(v)
    case Marked(m, _) => Elem(MarkTag(m), NoClass, NoAttrs)
    case Code(_) => Elem(CodeTag, NoClass, NoAttrs)
    case Link(href, title, _) => Elem(ATag, NoClass, LinkAttrs(href, OrEmpty(title)))
    case Image(src, alt, title) => Elem(ImgTag, ImageClass, ImageAttrs(src, alt, OrEmpty(title)))
    case Break => Elem(BrTag, NoClass, NoAttrs)
    case Math(content, display) => Elem(SpanTag, MathClass(display), LatexAttr(content))
    case Custom(kind, _, _) => Elem(SpanTag, CustomClass(kind), NoAttrs)
  }

  function InlineKids(x: Inline, id: Path): Keyed
    decreases x, 0
  {
    match x
    case Text(_) => Empty
    case Image(_, _, _) => Empty
    case Break => Empty
    case Marked(_, kids) => RenderInlines(kids, id, 0)
    case Link(_, _, kids) => RenderInlines(kids, id, 0)
    case Code(v) => TextKid(v)
    case Math(content, _) => TextKid(content)
    case Custom(_, text, inner) =>
      if inner.Some? && inner.value.Cons? then RenderInlines(inner.value, id, 0) else TextKid(OrEmpty(text))
  }

  /** Inline children from the k-th on, below the node with id base. */
  function RenderInlines(xs: List<Inline>, base: Path, k: nat): Keyed
    decreases xs, 1
  {
    match xs
    case Nil => Empty
    case Cons(x, rest) =>
      var id := Sub(base, In(k));
      Node(Some(id), InlineLabel(x), InlineKids(x, id), RenderInlines(rest, base, k + 1))
  }

  /** One inline node followed by the siblings rest. */
  function RenderInline(x: Inline, id: Path, rest: Keyed): Keyed {
    Node(Some(id), InlineLabel(x), InlineKids(x, id), rest)
  }

  function BlockLabel(b: Block): Label {
    match b
    case Paragraph(_) => Elem(PTag, NoClass, NoAttrs)
    case Heading(level, _) => Elem(HTag(HeadingNumber(level)), NoClass, NoAttrs)
    case CodeBlock(mermaid, _, _) =>
      if mermaid then Elem(DivTag, MermaidClass, NoAttrs) else Elem(PreTag, CodeBlockClass, NoAttrs)
    case Quote(_) => Elem(BlockquoteTag, NoClass, NoAttrs)
    case Itemized(ordered, _) => Elem(if ordered then OlTag else UlTag, NoClass, NoAttrs)
    case Table(_, _, wrapper) =>
      Elem(DivTag, WrapperClass(if OrEmpty(wrapper) == "" then "vcp-table-wrapper" else OrEmpty(wrapper)), NoAttrs)
    case Rule => Elem(HrTag, NoClass, NoAttrs)
  }

  function Plain(tag: Tag, kids: Keyed): Keyed { Node(None, Elem(tag, NoClass, NoAttrs), kids, Empty) }

  function BlockKids(b: Block, id: Path): Keyed
    decreases b, 0
  {
    match b
    case Paragraph(kids) => RenderInlines(kids, id, 0)
    case Heading(_, kids) => RenderInlines(kids, id, 0)
    case CodeBlock(mermaid, _, code) => if mermaid then TextKid(code) else Plain(CodeTag, TextKid(code))
    case Quote(blocks) => RenderBlocks(blocks, id, 0)
    case Itemized(_, items) => RenderItems(items, id, 0)
    case Table(header, rows, _) =>
      Plain(TableTag, Graft(Plain(TheadTag, Plain(TrTag, RenderCells(header, id, true, 0))),
                            Plain(TbodyTag, RenderRows(rows, id, 0))))
    case Rule => Empty
  }

  function RenderBlocks(bs: List<Block>, base: Path, k: nat): Keyed
    decreases bs, 1
  {
    match bs
    case Nil => Empty
    case Cons(b, rest) =>
      var id := Sub(base, BlockSeg(base, k));
      Node(Some(id), BlockLabel(b), BlockKids(b, id), RenderBlocks(rest, base, k + 1))
  }

  /** One block followed by the siblings rest. */
  function RenderBlock(b: Block, id: Path, rest: Keyed): Keyed {
    Node(Some(id), BlockLabel(b), BlockKids(b, id), rest)
  }

  const LiLabel := Elem(LiTag, NoClass, NoAttrs)

  function RenderItems(items: List<List<Block>>, base: Path, k: nat): Keyed
    decreases items, 1
  {
    match items
    case Nil => Empty
    case Cons(item, rest) =>
      var id := Sub(base, Item(k));
      Node(Some(id), LiLabel, RenderBlocks(item, id, 0), RenderItems(rest, base, k + 1))
  }

  function RenderCells(cells: List<List<Inline>>, base: Path, header: bool, k: nat): Keyed {
    match cells
    case Nil => Empty
    case Cons(cell, rest) =>
      var id := Sub(base, if header then Th(k) else Td(k));
      Node(Some(id), Elem(if header then ThTag else TdTag, NoClass, NoAttrs), RenderInlines(cell, id, 0),
           RenderCells(rest, base, header, k + 1))
  }

  function RenderRows(rows: List<List<List<Inline>>>, base: Path, k: nat): Keyed {
    match rows
    case Nil => Empty
    case Cons(row, rest) =>
      Node(None, Elem(TrTag, NoClass, NoAttrs), RenderCells(row, Sub(base, Tr(k)), false, 0),
           RenderRows(rest, base, k + 1))
  }

  /** The whole message: what rebuildSnapshot puts in the sandbox. */
  function RenderDocument(doc: List<Block>): Keyed { RenderBlocks(doc, Root, 0) }

  // ---- Where the ids of a rendered tree lie

  /** Every registered id lies under the k-th or a later child of p. */
  predicate AllFrom(f: Keyed, p: Path, k: nat) {
    f.Empty? ||
    ((f.key.Some? ==> var s := Branch(p, f.key.value); s.Some? && s.value.n >= k)
     && AllFrom(f.kids, p, k) && AllFrom(f.rest, p, k))
  }

  lemma {:induction false} FromIsBelow(f: Keyed, p: Path, k: nat)
    requires AllFrom(f, p, k)
    ensures AllBelow(f, p)
  {
    if f.Node? {
      FromIsBelow(f.kids, p, k);
      FromIsBelow(f.rest, p, k);
      if f.key.Some? {
        var s := Branch(p, f.key.value).value;
        BranchIsSubtree(p, s, f.key.value);
        BelowIsTransitive(p, Sub(p, s), f.key.value);
      }
    }
  }

  lemma {:induction false} BelowChildIsFrom(f: Keyed, p: Path, s: Seg, k: nat)
    requires AllBelow(f, Sub(p, s)) && s.n >= k
    ensures AllFrom(f, p, k)
  {
    if f.Node? {
      BelowChildIsFrom(f.kids, p, s, k);
      BelowChildIsFrom(f.rest, p, s, k);
      if f.key.Some? { BranchIsSubtree(p, s, f.key.value); }
    }
  }

  lemma {:induction false} FromIsMonotone(f: Keyed, p: Path, j: nat, k: nat)
    requires AllFrom(f, p, k) && j <= k
    ensures AllFrom(f, p, j)
  {
    if f.Node? { FromIsMonotone(f.kids, p, j, k); FromIsMonotone(f.rest, p, j, k); }
  }

  lemma {:induction false} LaterSiblings(f: Keyed, p: Path, s: Seg)
    requires AllFrom(f, p, s.n + 1)
    ensures NoneBelow(f, Sub(p, s))
  {
    if f.Node? {
      LaterSiblings(f.kids, p, s);
      LaterSiblings(f.rest, p, s);
      if f.key.Some? { BranchIsSubtree(p, s, f.key.value); }
    }
  }

  lemma {:induction false} NoKeyOutside(f: Keyed, q: Path, x: Path)
    requires AllBelow(f, q) && !InSub(q, x)
    ensures !HasKey(f, x)
  {
    if f.Node? { NoKeyOutside(f.kids, q, x); NoKeyOutside(f.rest, q, x); }
  }

  lemma {:induction false} NoKeyBelow(f: Keyed, q: Path, x: Path)
    requires NoneBelow(f, q) && InSub(q, x)
    ensures !HasKey(f, x)
  {
    if f.Node? { NoKeyBelow(f.kids, q, x); NoKeyBelow(f.rest, q, x); }
  }

  lemma {:induction false} BelowApart(f: Keyed, g: Keyed, q: Path)
    requires AllBelow(f, q) && NoneBelow(g, q)
    ensures Disjoint(f, g)
  {
    if f.Node? {
      BelowApart(f.kids, g, q);
      BelowApart(f.rest, g, q);
      if f.key.Some? { NoKeyBelow(g, q, f.key.value); }
    }
  }

  lemma {:induction false} NoKeyItself(f: Keyed, p: Path, k: nat)
    requires AllFrom(f, p, k)
    ensures !HasKey(f, p)
  {
    if f.Node? {
      NoKeyItself(f.kids, p, k);
      NoKeyItself(f.rest, p, k);
      if f.key == Some(p) {
        BranchIsSubtree(p, Branch(p, p).value, p);
        BelowIsDeeper(Sub(p, Branch(p, p).value), p);
      }
    }
  }

  /** Glue for one rendered child: its own id and its descendants, then its later siblings. */
  lemma ChildFrom(p: Path, s: Seg, l: Label, kids: Keyed, rest: Keyed)
    requires AllFrom(kids, Sub(p, s), 0) && AllFrom(rest, p, s.n + 1)
    ensures AllFrom(Node(Some(Sub(p, s)), l, kids, rest), p, s.n)
    ensures Distinct(kids) && Distinct(rest) ==> Distinct(Node(Some(Sub(p, s)), l, kids, rest))
  {
    FromIsBelow(kids, Sub(p, s), 0);
    BelowChildIsFrom(kids, p, s, s.n);
    FromIsMonotone(rest, p, s.n, s.n + 1);
    LaterSiblings(rest, p, s);
    BelowApart(kids, rest, Sub(p, s));
    NoKeyItself(kids, Sub(p, s), 0);
    NoKeyBelow(rest, Sub(p, s), Sub(p, s));
  }

  lemma {:induction false} InlineKidsBelow(x: Inline, id: Path)
    ensures AllFrom(InlineKids(x, id), id, 0) && Distinct(InlineKids(x, id))
    decreases x, 0
  {
    match x
    case Marked(_, kids) => InlinesFrom(kids, id, 0);
    case Link(_, _, kids) => InlinesFrom(kids, id, 0);
    case Custom(_, _, inner) => if inner.Some? && inner.value.Cons? { InlinesFrom(inner.value, id, 0); }
    case _ =>
  }

  lemma {:induction false} InlinesFrom(xs: List<Inline>, base: Path, k: nat)
    ensures AllFrom(RenderInlines(xs, base, k), base, k) && Distinct(RenderInlines(xs, base, k))
    decreases xs, 1
  {
    match xs
    case Nil =>
    case Cons(x, rest) =>
      var id := Sub(base, In(k));
      InlineKidsBelow(x, id);
      InlinesFrom(rest, base, k + 1);
      ChildFrom(base, In(k), InlineLabel(x), InlineKids(x, id), RenderInlines(rest, base, k + 1));
  }

  lemma {:induction false} InlineKidsInCell(x: Inline, id: Path)
    requires InCell(id)
    ensures AllInCells(InlineKids(x, id))
    decreases x, 0
  {
    match x
    case Marked(_, kids) => InlinesInCell(kids, id, 0);
    case Link(_, _, kids) => InlinesInCell(kids, id, 0);
    case Custom(_, _, inner) => if inner.Some? && inner.value.Cons? { InlinesInCell(inner.value, id, 0); }
    case _ =>
  }

  lemma {:induction false} InlinesInCell(xs: List<Inline>, base: Path, k: nat)
    requires InCell(base)
    ensures AllInCells(RenderInlines(xs, base, k))
    decreases xs, 1
  {
    if xs.Cons? {
      InlineKidsInCell(xs.head, Sub(base, In(k)));
      InlinesInCell(xs.tail, base, k + 1);
    }
  }

  lemma {:induction false} CellsFrom(cells: List<List<Inline>>, base: Path, header: bool, k: nat)
    ensures var f := RenderCells(cells, base, header, k);
            AllFrom(f, base, k) && Distinct(f) && AllInCells(f) && (header ==> OnHeaderSide(f, base, true))
  {
    match cells
    case Nil =>
    case Cons(cell, rest) =>
      var s := if header then Th(k) else Td(k);
      var id := Sub(base, s);
      InlinesFrom(cell, id, 0);
      InlinesInCell(cell, id, 0);
      CellsFrom(rest, base, header, k + 1);
      ChildFrom(base, s, Elem(if header then ThTag else TdTag, NoClass, NoAttrs),
                RenderInlines(cell, id, 0), RenderCells(rest, base, header, k + 1));
      FromIsBelow(RenderInlines(cell, id, 0), id, 0);
      OneSide(RenderInlines(cell, id, 0), base, s);
      BranchIsSubtree(base, s, id);
  }

  /** The registered ids branch off p at a header cell, or at something else. */
  predicate OnHeaderSide(f: Keyed, p: Path, header: bool) {
    f.Empty? ||
    ((f.key.Some? ==> var s := Branch(p, f.key.value); s.Some? && s.value.Th? == header)
     && OnHeaderSide(f.kids, p, header) && OnHeaderSide(f.rest, p, header))
  }

  lemma {:induction false} OneSide(f: Keyed, p: Path, s: Seg)
    requires AllBelow(f, Sub(p, s))
    ensures OnHeaderSide(f, p, s.Th?)
  {
    if f.Node? {
      OneSide(f.kids, p, s);
      OneSide(f.rest, p, s);
      if f.key.Some? { BranchIsSubtree(p, s, f.key.value); }
    }
  }

  lemma {:induction false} OtherSide(f: Keyed, g: Keyed, p: Path)
    requires OnHeaderSide(f, p, true) && OnHeaderSide(g, p, false)
    ensures Disjoint(f, g)
  {
    if f.Node? {
      OtherSide(f.kids, g, p);
      OtherSide(f.rest, g, p);
      if f.key.Some? { NoKeyOnOtherSide(g, p, f.key.value); }
    }
  }

  lemma {:induction false} NoKeyOnOtherSide(f: Keyed, p: Path, x: Path)
    requires OnHeaderSide(f, p, false) && Branch(p, x).Some? && Branch(p, x).value.Th?
    ensures !HasKey(f, x)
  {
    if f.Node? { NoKeyOnOtherSide(f.kids, p, x); NoKeyOnOtherSide(f.rest, p, x); }
  }

  lemma {:induction false} RowsFrom(rows: List<List<List<Inline>>>, base: Path, k: nat)
    ensures var f := RenderRows(rows, base, k);
            AllFrom(f, base, k) && Distinct(f) && AllInCells(f) && OnHeaderSide(f, base, false)
  {
    match rows
    case Nil =>
    case Cons(row, rest) =>
      var cells := RenderCells(row, Sub(base, Tr(k)), false, 0);
      CellsFrom(row, Sub(base, Tr(k)), false, 0);
      FromIsBelow(cells, Sub(base, Tr(k)), 0);
      BelowChildIsFrom(cells, base, Tr(k), k);
      OneSide(cells, base, Tr(k));
      RowsFrom(rest, base, k + 1);
      FromIsMonotone(RenderRows(rest, base, k + 1), base, k, k + 1);
      LaterSiblings(RenderRows(rest, base, k + 1), base, Tr(k));
      BelowApart(cells, RenderRows(rest, base, k + 1), Sub(base, Tr(k)));
  }

  predicate CellForest(f: Keyed, p: Path) {
    && AllFrom(f, p, 0)
    && Distinct(f)
    && AllInCells(f)
  }

  lemma Unregistered(l: Label, kids: Keyed, rest: Keyed, p: Path)
    requires CellForest(kids, p) && CellForest(rest, p) && (rest.Empty? || Disjoint(kids, rest))
    ensures CellForest(Node(None, l, kids, rest), p)
  {
    if rest.Empty? { DisjointEmpty(kids); }
  }

  lemma {:induction false} DisjointEmpty(f: Keyed)
    ensures Disjoint(f, Empty)
  {
    if f.Node? { DisjointEmpty(f.kids); DisjointEmpty(f.rest); }
  }

  lemma TableKids(b: Block, id: Path)
    requires b.Table?
    ensures CellForest(BlockKids(b, id), id)
  {
    var cells, rows := RenderCells(b.header, id, true, 0), RenderRows(b.rows, id, 0);
    CellsFrom(b.header, id, true, 0);
    RowsFrom(b.rows, id, 0);
    OtherSide(cells, rows, id);
    var body := Plain(TbodyTag, rows);
    var row := Plain(TrTag, cells);
    var head := Plain(TheadTag, row);
    DisjointWrapped(cells, body);
    Unregistered(row.el, cells, Empty, id);
    Unregistered(body.el, rows, Empty, id);
    assert Disjoint(row, body);
    Unregistered(head.el, row, body, id);
    assert Graft(head, body) == head.(rest := body);
    Unregistered(Elem(TableTag, NoClass, NoAttrs), Graft(head, body), Empty, id);
  }

  lemma {:induction false} DisjointWrapped(f: Keyed, g: Keyed)
    requires g.Node? && g.key.None? && g.rest.Empty? && Disjoint(f, g.kids)
    ensures Disjoint(f, g)
  {
    if f.Node? { DisjointWrapped(f.kids, g); DisjointWrapped(f.rest, g); }
  }

  lemma {:induction false} BlockKidsBelow(b: Block, id: Path)
    ensures AllFrom(BlockKids(b, id), id, 0) && Distinct(BlockKids(b, id))
    decreases b, 0
  {
    match b
    case Paragraph(kids) => InlinesFrom(kids, id, 0);
    case Heading(_, kids) => InlinesFrom(kids, id, 0);
    case Quote(blocks) => BlocksFrom(blocks, id, 0);
    case Itemized(_, items) => ItemsFrom(items, id, 0);
    case Table(_, _, _) => TableKids(b, id);
    case CodeBlock(_, _, code) => assert AllFrom(TextKid(code), id, 0) && Distinct(TextKid(code));
    case Rule =>
  }

  lemma {:induction false} BlocksFrom(bs: List<Block>, base: Path, k: nat)
    ensures AllFrom(RenderBlocks(bs, base, k), base, k) && Distinct(RenderBlocks(bs, base, k))
    decreases bs, 1
  {
    match bs
    case Nil =>
    case Cons(b, rest) =>
      var s := BlockSeg(base, k);
      BlockKidsBelow(b, Sub(base, s));
      BlocksFrom(rest, base, k + 1);
      ChildFrom(base, s, BlockLabel(b), BlockKids(b, Sub(base, s)), RenderBlocks(rest, base, k + 1));
  }

  lemma {:induction false} ItemsFrom(items: List<List<Block>>, base: Path, k: nat)
    ensures AllFrom(RenderItems(items, base, k), base, k) && Distinct(RenderItems(items, base, k))
    decreases items, 1
  {
    match items
    case Nil =>
    case Cons(item, rest) =>
      var id := Sub(base, Item(k));
      BlocksFrom(item, id, 0);
      ItemsFrom(rest, base, k + 1);
      ChildFrom(base, Item(k), LiLabel, RenderBlocks(item, id, 0), RenderItems(rest, base, k + 1));
  }

  /** The first of several rendered children and its siblings. */
  predicate ApartAt(f: Keyed, id: Path) {
    f.Node? && f.key == Some(id) && AllBelow(f.kids, id) && NoneBelow(f.rest, id)
  }

  lemma InlinesApart(xs: List<Inline>, p: Path, k: nat)
    requires xs.Cons?
    ensures ApartAt(RenderInlines(xs, p, k), Sub(p, In(k)))
  {
    InlineKidsBelow(xs.head, Sub(p, In(k)));
    FromIsBelow(InlineKids(xs.head, Sub(p, In(k))), Sub(p, In(k)), 0);
    InlinesFrom(xs.tail, p, k + 1);
    LaterSiblings(RenderInlines(xs.tail, p, k + 1), p, In(k));
  }

  lemma BlocksApart(xs: List<Block>, p: Path, k: nat)
    requires xs.Cons?
    ensures ApartAt(RenderBlocks(xs, p, k), Sub(p, BlockSeg(p, k)))
  {
    var s := BlockSeg(p, k);
    BlockKidsBelow(xs.head, Sub(p, s));
    FromIsBelow(BlockKids(xs.head, Sub(p, s)), Sub(p, s), 0);
    BlocksFrom(xs.tail, p, k + 1);
    LaterSiblings(RenderBlocks(xs.tail, p, k + 1), p, s);
  }

  lemma ItemsApart(xs: List<List<Block>>, p: Path, k: nat)
    requires xs.Cons?
    ensures ApartAt(RenderItems(xs, p, k), Sub(p, Item(k)))
  {
    BlocksFrom(xs.head, Sub(p, Item(k)), 0);
    FromIsBelow(RenderBlocks(xs.head, Sub(p, Item(k)), 0), Sub(p, Item(k)), 0);
    ItemsFrom(xs.tail, p, k + 1);
    LaterSiblings(RenderItems(xs.tail, p, k + 1), p, Item(k));
  }
}
