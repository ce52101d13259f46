/** The backend diff of two syntax trees: the list of mutations that is sent to the frontend. */
module AstDiff {
  import opened Wrappers
  import opened MarkdownAst
  import opened NodeIds

  datatype Mutation =
    | AppendText(id: Path, chunk: string)
    | SetText(id: Path, text: string)
    | SetLevel(id: Path, level: nat)
    | Add(id: Path, parent: Path, block: Block)
    | AddInline(id: Path, parent: Path, inline: Inline)
    | AddItem(id: Path, parent: Path, blocks: List<Block>)
    | Replace(id: Path, block: Block)
    | ReplaceInline(id: Path, inline: Inline)
    | Remove(id: Path)
  {
    predicate IsAdd() { Add? || AddInline? || AddItem? }
  }

  /** Nodes that carry a content hash; the hash is taken to be injective. */
  predicate HashedInline(x: Inline) { !x.Text? && !x.Code? && !x.Break? }

  predicate SameInlineKind(x: Inline, y: Inline) {
    match (x, y)
    case (Text(_), Text(_)) => true
    case (Marked(m, _), Marked(n, _)) => m == n
    case (Code(_), Code(_)) => true
    case (Link(_, _, _), Link(_, _, _)) => true
    case (Image(_, _, _), Image(_, _, _)) => true
    case (Break, Break) => true
    case (Math(_, _), Math(_, _)) => true
    case (Custom(_, _, _), Custom(_, _, _)) => true
    case _ => false
  }

  function DiffText(id: Path, x: string, y: string): seq<Mutation> {
    if x <= y then
      if x == y then [] else [AppendText(id, y[|x|..])]
    else [SetText(id, y)]
  }

  function DiffInline(x: Inline, y: Inline, id: Path): seq<Mutation>
    decreases x, 0
  {
    if x == y && HashedInline(x) then []
    else if !SameInlineKind(x, y) then [ReplaceInline(id, y)]
    else
      match (x, y)
      case (Text(v), Text(w)) => DiffText(id, v, w)
      case (Marked(_, xs), Marked(_, ys)) => DiffInlines(xs, ys, id, 0)
      case (Link(h, t, xs), Link(h', t', ys)) =>
        if h.raw != h'.raw || t != t' then [ReplaceInline(id, y)] else DiffInlines(xs, ys, id, 0)
      case (Custom(k, t, xs), Custom(k', t', ys)) =>
        if k != k' || t != t' then [ReplaceInline(id, y)]
        else if xs.Some? && ys.Some? then DiffInlines(xs.value, ys.value, id, 0)
        else if xs.None? && ys.None? then []
        else [ReplaceInline(id, y)]
      case (Code(v), Code(w)) => if v == w then [] else [ReplaceInline(id, y)]
      case (Break, _) => []
      case _ => [ReplaceInline(id, y)]
  }

  /** Common children first, then the new tail is added or the old tail removed. */
  function DiffInlines(xs: List<Inline>, ys: List<Inline>, base: Path, k: nat): seq<Mutation>
    decreases xs, 1, ys
  {
    var id := Sub(base, In(k));
    match (xs, ys)
    case (Cons(x, xs'), Cons(y, ys')) => DiffInline(x, y, id) + DiffInlines(xs', ys', base, k + 1)
    case (Nil, Cons(y, ys')) => [AddInline(id, base, y)] + DiffInlines(Nil, ys', base, k + 1)
    case (Cons(_, xs'), Nil) => [Remove(id)] + DiffInlines(xs', Nil, base, k + 1)
    case (Nil, Nil) => []
  }

  predicate SameBlockKind(x: Block, y: Block) {
    match (x, y)
    case (Paragraph(_), Paragraph(_)) => true
    case (Heading(_, _), Heading(_, _)) => true
    case (CodeBlock(_, _, _), CodeBlock(_, _, _)) => true
    case (Quote(_), Quote(_)) => true
    case (Itemized(_, _), Itemized(_, _)) => true
    case (Table(_, _, _), Table(_, _, _)) => true
    case (Rule, Rule) => true
    case _ => false
  }

  function DiffBlock(x: Block, y: Block, id: Path): seq<Mutation>
    decreases x, 0
  {
    if x == y && !x.Rule? then []
    else if !SameBlockKind(x, y) then [Replace(id, y)]
    else
      match (x, y)
      case (Paragraph(xs), Paragraph(ys)) => DiffInlines(xs, ys, id, 0)
      case (Heading(l, xs), Heading(l', ys)) =>
        (if l == l' then [] else [SetLevel(id, l')]) + DiffInlines(xs, ys, id, 0)
      case (Quote(xs), Quote(ys)) => DiffBlocks(xs, ys, id, 0)
      case (Itemized(o, xs), Itemized(o', ys)) => if o != o' then [Replace(id, y)] else DiffItems(xs, ys, id, 0)
      case _ => [Replace(id, y)]
  }

  function DiffBlocks(xs: List<Block>, ys: List<Block>, base: Path, k: nat): seq<Mutation>
    decreases xs, 1, ys
  {
    var id := Sub(base, BlockSeg(base, k));
    match (xs, ys)
    case (Cons(x, xs'), Cons(y, ys')) => DiffBlock(x, y, id) + DiffBlocks(xs', ys', base, k + 1)
    case (Nil, Cons(y, ys')) => [Add(id, base, y)] + DiffBlocks(Nil, ys', base, k + 1)
    case (Cons(_, xs'), Nil) => [Remove(id)] + DiffBlocks(xs', Nil, base, k + 1)
    case (Nil, Nil) => []
  }

  function DiffItems(xs: List<List<Block>>, ys: List<List<Block>>, base: Path, k: nat): seq<Mutation>
    decreases xs, 1, ys
  {
    var id := Sub(base, Item(k));
    match (xs, ys)
    case (Cons(x, xs'), Cons(y, ys')) => DiffBlocks(x, y, id, 0) + DiffItems(xs', ys', base, k + 1)
    case (Nil, Cons(y, ys')) => [AddItem(id, base, y)] + DiffItems(Nil, ys', base, k + 1)
    case (Cons(_, xs'), Nil) => [Remove(id)] + DiffItems(xs', Nil, base, k + 1)
    case (Nil, Nil) => []
  }

  function DiffDocuments(before: List<Block>, after: List<Block>): seq<Mutation> {
    DiffBlocks(before, after, Root, 0)
  }

  // ---- Which nodes survive

  /** Paragraphs, headings, quotes and lists of one order stay, whatever becomes of what they hold; rules never do. */
  predicate BlockGoes(x: Block, y: Block) {
    match (x, y)
    case (Paragraph(_), Paragraph(_)) => false
    case (Heading(_, _), Heading(_, _)) => false
    case (Quote(_), Quote(_)) => false
    case (Itemized(ordered, _), Itemized(ordered', _)) => ordered != ordered'
    case (Rule, Rule) => true
    case _ => x != y
  }

  /** Texts stay, marks of one sort, links with one address and title, and custom spans of one kind and text that have
      children before and after. */
  predicate InlineGoes(x: Inline, y: Inline) {
    && x != y
    && match (x, y)
       case (Text(_), Text(_)) => false
       case (Marked(m, _), Marked(n, _)) => m != n
       case (Link(href, title, _), Link(href', title', _)) => href.raw != href'.raw || title != title'
       case (Custom(kind, text, Some(_)), Custom(kind', text', Some(_))) => kind != kind' || text != text'
       case _ => true
  }

  lemma {:induction false} InlineDeeper(x: Inline, y: Inline, id: Path)
    ensures forall m :: m in DiffInline(x, y, id) ==> Depth(m.id) >= Depth(id) && !m.Replace?
    decreases x, 0
  {
    match (x, y)
    case (Marked(_, xs), Marked(_, ys)) => InlinesDeeper(xs, ys, id, 0);
    case (Link(_, _, xs), Link(_, _, ys)) => InlinesDeeper(xs, ys, id, 0);
    case (Custom(_, _, Some(xs)), Custom(_, _, Some(ys))) => InlinesDeeper(xs, ys, id, 0);
    case _ =>
  }

  lemma {:induction false} InlinesDeeper(xs: List<Inline>, ys: List<Inline>, base: Path, k: nat)
    ensures forall m :: m in DiffInlines(xs, ys, base, k) ==> Depth(m.id) > Depth(base) && !m.Replace?
    decreases xs, 1, ys
  {
    match (xs, ys)
    case (Cons(x, xs'), Cons(y, ys')) => InlineDeeper(x, y, Sub(base, In(k))); InlinesDeeper(xs', ys', base, k + 1);
    case (Nil, Cons(y, ys')) => InlinesDeeper(Nil, ys', base, k + 1);
    case (Cons(_, xs'), Nil) => InlinesDeeper(xs', Nil, base, k + 1);
    case (Nil, Nil) =>
  }

  lemma {:induction false} BlockDeeper(x: Block, y: Block, id: Path)
    ensures forall m :: m in DiffBlock(x, y, id) ==> Depth(m.id) >= Depth(id)
    decreases x, 0
  {
    match (x, y)
    case (Paragraph(xs), Paragraph(ys)) => InlinesDeeper(xs, ys, id, 0);
    case (Heading(_, xs), Heading(_, ys)) => InlinesDeeper(xs, ys, id, 0);
    case (Quote(xs), Quote(ys)) => BlocksDeeper(xs, ys, id, 0);
    case (Itemized(_, xs), Itemized(_, ys)) => ItemsDeeper(xs, ys, id, 0);
    case _ =>
  }

  lemma {:induction false} BlocksDeeper(xs: List<Block>, ys: List<Block>, base: Path, k: nat)
    ensures forall m :: m in DiffBlocks(xs, ys, base, k) ==> Depth(m.id) > Depth(base)
    decreases xs, 1, ys
  {
    match (xs, ys)
    case (Cons(x, xs'), Cons(y, ys')) => BlockDeeper(x, y, Sub(base, BlockSeg(base, k))); BlocksDeeper(xs', ys', base, k + 1);
    case (Nil, Cons(y, ys')) => BlocksDeeper(Nil, ys', base, k + 1);
    case (Cons(_, xs'), Nil) => BlocksDeeper(xs', Nil, base, k + 1);
    case (Nil, Nil) =>
  }

  lemma {:induction false} ItemsDeeper(xs: List<List<Block>>, ys: List<List<Block>>, base: Path, k: nat)
    ensures forall m :: m in DiffItems(xs, ys, base, k) ==> Depth(m.id) > Depth(base)
    decreases xs, 1, ys
  {
    match (xs, ys)
    case (Cons(x, xs'), Cons(y, ys')) => BlocksDeeper(x, y, Sub(base, Item(k)), 0); ItemsDeeper(xs', ys', base, k + 1);
    case (Nil, Cons(y, ys')) => ItemsDeeper(Nil, ys', base, k + 1);
    case (Cons(_, xs'), Nil) => ItemsDeeper(xs', Nil, base, k + 1);
    case (Nil, Nil) =>
  }

  /** The node of a block is replaced exactly if it goes, and is addressed otherwise only to change a heading's level. */
  lemma BlockStaysIff(x: Block, y: Block, id: Path)
    ensures BlockGoes(x, y) ==> DiffBlock(x, y, id) == [Replace(id, y)]
    ensures !BlockGoes(x, y) ==> forall m :: m in DiffBlock(x, y, id) && m.id == id ==>
                                  x.Heading? && y.Heading? && x.level != y.level && m == SetLevel(id, y.level)
  {
    match (x, y)
    case (Paragraph(xs), Paragraph(ys)) => InlinesDeeper(xs, ys, id, 0);
    case (Heading(_, xs), Heading(_, ys)) => InlinesDeeper(xs, ys, id, 0);
    case (Quote(xs), Quote(ys)) => BlocksDeeper(xs, ys, id, 0);
    case (Itemized(_, xs), Itemized(_, ys)) => ItemsDeeper(xs, ys, id, 0);
    case _ =>
  }

  /** The node of an inline is replaced exactly if it goes, and is addressed otherwise only to change a text, which is
      appended to if it grows. */
  lemma InlineStaysIff(x: Inline, y: Inline, id: Path)
    ensures InlineGoes(x, y) ==> DiffInline(x, y, id) == [ReplaceInline(id, y)]
    ensures !InlineGoes(x, y) && !x.Text? ==> forall m :: m in DiffInline(x, y, id) ==> m.id != id
    ensures x.Text? && y.Text? && !(x.value <= y.value) ==> DiffInline(x, y, id) == [SetText(id, y.value)]
  {
    match (x, y)
    case (Marked(_, xs), Marked(_, ys)) => InlinesDeeper(xs, ys, id, 0);
    case (Link(_, _, xs), Link(_, _, ys)) => InlinesDeeper(xs, ys, id, 0);
    case (Custom(_, _, Some(xs)), Custom(_, _, Some(ys))) => InlinesDeeper(xs, ys, id, 0);
    case _ =>
  }

  lemma GrowingTextIsAppended(v: string, more: string, id: Path)
    ensures DiffInline(Text(v), Text(v + more), id) == if more == "" then [] else [AppendText(id, more)]
  {
    assert v <= v + more && (v + more)[|v|..] == more;
    if more == "" { assert v + more == v; }
  }
}
