/** What each mutation does to a tree of registered nodes, and the law that ties the backend diff to it:
    patching the rendered old document with the diff gives the rendered new document. */
module AstPatch {
  import opened Wrappers
  import opened MarkdownAst
  import opened NodeIds
  import opened DomTree
  import opened AstDiff

  /** The node whose children or content a mutation changes. */
  function Target(m: Mutation): Path { if m.IsAdd() then m.parent else m.id }

  function Added(m: Mutation): (r: Keyed)
    requires m.IsAdd()
    ensures r.Node? && r.rest.Empty?
  {
    match m
    case Add(id, _, b) => RenderBlock(b, id, Empty)
    case AddInline(id, _, x) => RenderInline(x, id, Empty)
    case AddItem(id, _, blocks) => Node(Some(id), LiLabel, RenderBlocks(blocks, id, 0), Empty)
  }

  function Clamp(level: nat): nat { if level == 0 then 1 else if level > 6 then 6 else level }

  predicate IsHeading(l: Label) { l.Elem? && l.tag.HTag? && 1 <= l.tag.n <= 6 }

  /** morphdom turns the registered node into the made tree. With another tag it must put a new node in
      its place, and the registry keeps the old one. */
  function Morph(id: Path, l: Label, made: Keyed, rest: Keyed): Keyed
    requires l.Elem? && made.Node?
  {
    if made.el.Elem? && made.el.tag == l.tag then Node(Some(id), made.el, made.kids, rest)
    else Node(None, made.el, Unkeyed(made.kids), rest)
  }

  predicate IsContainer(x: Inline) { x.Link? || x.Custom? || x.Marked? }

  /** The effect on the node registered under the target id. */
  function Hit(l: Label, kids: Keyed, rest: Keyed, m: Mutation): Keyed {
    match m
    case AppendText(id, chunk) =>
      Node(Some(id), if l.TextNode? then TextNode(l.data + chunk) else l, kids, rest)
    case SetText(id, text) =>
      if l.TextNode? then Node(Some(id), TextNode(text), kids, rest) else Node(Some(id), l, TextKid(text), rest)
    case SetLevel(id, level) =>
      Node(Some(id),
           if IsHeading(l) then l.(tag := HTag(Clamp(level))) else if l.Elem? then l.(attrs := LevelAttr(level)) else l,
           kids, rest)
    case Remove(_) => rest
    case Replace(id, b) =>
      if b.CodeBlock? && b.mermaid && l.Elem? && l.class_ == MermaidClass then
        Node(Some(id), l, TextKid(b.code), rest)
      else if b.Table? && l.Elem? then Morph(id, l, RenderBlock(b, id, Empty), rest)
      else RenderBlock(b, id, rest)
    case ReplaceInline(id, x) =>
      if x.Text? && l.TextNode? then Node(Some(id), TextNode(x.value), kids, rest)
      else if x.Code? && l.Elem? && l.tag == CodeTag then Node(Some(id), l, TextKid(x.value), rest)
      else if x.Math? && l.Elem? && l.class_.MathClass? then
        Node(Some(id), l.(attrs := LatexAttr(x.content)), TextKid(x.content), rest)
      else if x.Custom? && x.inner.None? && l.Elem? then Node(Some(id), l, TextKid(OrEmpty(x.text)), rest)
      else if x.Image? && l.Elem? && l.tag == ImgTag then
        Node(Some(id), l.(attrs := ImageAttrs(x.src, x.alt, OrEmpty(x.title))), kids, rest)
      else if IsContainer(x) && l.Elem? then Morph(id, l, RenderInline(x, id, Empty), rest)
      else RenderInline(x, id, rest)
    case _ => Node(Some(m.parent), l, Graft(kids, Added(m)), rest)
  }

  function Act(f: Keyed, m: Mutation): Keyed {
    match f
    case Empty => Empty
    case Node(key, l, kids, rest) =>
      if key == Some(Target(m)) then Hit(l, kids, Act(rest, m), m)
      else Node(key, l, Act(kids, m), Act(rest, m))
  }

  /** One mutation, seen at the children of the node with id p (the sandbox itself when p is Root). */
  function Step(f: Keyed, p: Path, m: Mutation): Keyed {
    if m.IsAdd() && m.parent == p then Graft(f, Added(m)) else Act(f, m)
  }

  function Run(f: Keyed, p: Path, ms: seq<Mutation>): Keyed
    decreases |ms|
  {
    if ms == [] then f else Run(Step(f, p, ms[0]), p, ms[1..])
  }

  predicate Suits(l: Label, m: Mutation) {
    match m
    case AppendText(_, _) => l.TextNode?
    case SetLevel(_, _) => l.Elem?
    case Add(_, _, _) => l.Elem?
    case AddInline(_, _, _) => l.Elem?
    case AddItem(_, _, _) => l.Elem?
    case _ => true
  }

  predicate HasTarget(f: Keyed, m: Mutation) {
    f.Node? && ((f.key == Some(Target(m)) && Suits(f.el, m)) || HasTarget(f.kids, m) || HasTarget(f.rest, m))
  }

  /** Outside the nodes registered as id, nothing is registered in the subtree of id. */
  predicate Apart(f: Keyed, id: Path) {
    f.Empty? ||
    if f.key == Some(id) then Apart(f.rest, id)
    else (f.key.Some? ==> !InSub(id, f.key.value)) && Apart(f.kids, id) && Apart(f.rest, id)
  }

  predicate NoKeys(f: Keyed) { f.Empty? || (f.key.None? && NoKeys(f.kids) && NoKeys(f.rest)) }

  /** The strategy chosen for the node under the target id forgets no registered node: either its
      descendants are purged, or none of the nodes it discards was registered. */
  predicate CleanHit(l: Label, kids: Keyed, m: Mutation) {
    match m
    case SetText(_, _) => l.TextNode? || NoKeys(kids)
    case Remove(id) => AllBelow(kids, id)
    case Replace(id, b) => (b.Table? && l.Elem? ==> l.tag == DivTag) && AllBelow(kids, id)
    case ReplaceInline(id, x) =>
      if (x.Text? && l.TextNode?) || (x.Code? && l.Elem? && l.tag == CodeTag)
         || (x.Math? && l.Elem? && l.class_.MathClass?) || (x.Custom? && x.inner.None? && l.Elem?)
      then NoKeys(kids)
      else if x.Image? && l.Elem? && l.tag == ImgTag then true
      else (IsContainer(x) && l.Elem? ==> l.tag == InlineLabel(x).tag) && AllBelow(kids, id)
    case _ => true
  }

  predicate Clean(f: Keyed, m: Mutation) {
    f.Empty? ||
    if f.key == Some(Target(m)) then CleanHit(f.el, f.kids, m) && Clean(f.rest, m)
    else Clean(f.kids, m) && Clean(f.rest, m)
  }

  /** The mutation finds its target and the ids it registers are free; if exact, it is clean too. */
  predicate Fits(f: Keyed, p: Path, m: Mutation, exact: bool) {
    && ((m.IsAdd() && m.parent == p) || (HasTarget(f, m) && !InCell(Target(m)) && (exact ==> Clean(f, m))))
    && (if m.IsAdd() then NoneBelow(f, m.id) else Apart(f, m.id))
  }

  predicate Runs(f: Keyed, p: Path, ms: seq<Mutation>, exact: bool)
    decreases |ms|
  {
    || ms == []
    || (&& Fits(f, p, ms[0], exact)
        && Runs(Step(f, p, ms[0]), p, ms[1..], exact))
  }

  // ---- Locality: a mutation below one child leaves its siblings alone

  predicate Rooted(m: Mutation) { m.IsAdd() ==> m.id.Sub? && m.id.parent == m.parent }

  /** Every mutation works strictly below id. */
  predicate Inside(ms: seq<Mutation>, id: Path) {
    forall i :: 0 <= i < |ms| ==> Rooted(ms[i]) && InSub(id, ms[i].id) && ms[i].id != id
  }

  /** Every mutation works on, or below, the k-th or a later child of p. */
  predicate From(ms: seq<Mutation>, p: Path, k: nat) {
    forall i :: 0 <= i < |ms| ==>
      Rooted(ms[i]) && Branch(p, ms[i].id).Some? && Branch(p, ms[i].id).value.n >= k
  }

  lemma {:induction false} ActMiss(f: Keyed, m: Mutation)
    requires !HasKey(f, Target(m))
    ensures Act(f, m) == f && Clean(f, m)
  {
    if f.Node? { ActMiss(f.kids, m); ActMiss(f.rest, m); }
  }

  lemma {:induction false} NoneBelowIsApart(f: Keyed, id: Path)
    requires NoneBelow(f, id)
    ensures Apart(f, id)
  {
    if f.Node? { NoneBelowIsApart(f.kids, id); NoneBelowIsApart(f.rest, id); }
  }

  lemma {:induction false} NoneBelowDeeper(f: Keyed, p: Path, q: Path)
    requires NoneBelow(f, p) && InSub(p, q)
    ensures NoneBelow(f, q)
  {
    if f.Node? {
      NoneBelowDeeper(f.kids, p, q);
      NoneBelowDeeper(f.rest, p, q);
      if f.key.Some? && InSub(q, f.key.value) { BelowIsTransitive(p, q, f.key.value); }
    }
  }

  /** Subtrees of different children share no node. */
  lemma {:induction false} OtherBranch(f: Keyed, p: Path, s: Seg, id: Path)
    requires AllBelow(f, Sub(p, s))
    requires Branch(p, id).Some? && Branch(p, id) != Some(s)
    ensures NoneBelow(f, id)
  {
    if f.Node? {
      OtherBranch(f.kids, p, s, id);
      OtherBranch(f.rest, p, s, id);
      if f.key.Some? && InSub(id, f.key.value) {
        var t := Branch(p, id).value;
        BranchIsSubtree(p, t, id);
        BelowIsTransitive(Sub(p, t), id, f.key.value);
        BranchIsSubtree(p, t, f.key.value);
        BranchIsSubtree(p, s, f.key.value);
      }
    }
  }

  /** A step below another child passes over the first node of a forest. */
  lemma StepPassesHead(f: Keyed, p: Path, s: Seg, m: Mutation, exact: bool)
    requires f.Node? && (f.key.Some? ==> InSub(Sub(p, s), f.key.value)) && AllBelow(f.kids, Sub(p, s))
    requires Rooted(m) && Branch(p, m.id).Some? && Branch(p, m.id).value.n != s.n
    ensures Step(f, p, m) == f.(rest := Step(f.rest, p, m))
    ensures Fits(f.rest, p, m, exact) ==> Fits(f, p, m, exact)
  {
    var head := f.(rest := Empty);
    OtherBranch(head, p, s, m.id);
    NoneBelowIsApart(f.kids, m.id);
    if !(m.IsAdd() && m.parent == p) {
      BranchIsSubtree(p, s, Target(m));
      NoKeyOutside(head, Sub(p, s), Target(m));
      ActMiss(f.kids, m);
    }
  }

  /** A step strictly below id is a step at the children of the node registered as id. */
  lemma StepEntersNode(f: Keyed, p: Path, s: Seg, m: Mutation, exact: bool)
    requires f.Node? && f.key == Some(Sub(p, s)) && f.el.Elem? && NoneBelow(f.rest, Sub(p, s))
    requires Rooted(m) && InSub(Sub(p, s), m.id) && m.id != Sub(p, s) && !InCell(Sub(p, s))
    ensures Step(f, p, m) == f.(kids := Step(f.kids, Sub(p, s), m))
    ensures Fits(f.kids, Sub(p, s), m, exact) ==> Fits(f, p, m, exact)
  {
    var id := Sub(p, s);
    BelowIsDeeper(id, m.id);
    if m.IsAdd() { BelowIsDeeper(id, m.parent); }
    assert InSub(id, Target(m));
    NoKeyBelow(f.rest, id, Target(m));
    ActMiss(f.rest, m);
    NoneBelowDeeper(f.rest, id, m.id);
    NoneBelowIsApart(f.rest, m.id);
    if InSub(m.id, id) { BelowIsDeeper(m.id, id); }
  }

  lemma {:induction false} RunConcat(f: Keyed, p: Path, a: seq<Mutation>, b: seq<Mutation>, exact: bool)
    ensures Run(f, p, a + b) == Run(Run(f, p, a), p, b)
    ensures Runs(f, p, a, exact) && Runs(Run(f, p, a), p, b, exact) ==> Runs(f, p, a + b, exact)
    decreases |a|
  {
    if a == [] {
      assert a + b == b;
    } else {
      assert (a + b)[1..] == a[1..] + b;
      RunConcat(Step(f, p, a[0]), p, a[1..], b, exact);
    }
  }

  lemma {:induction false} RunPassesHead(f: Keyed, p: Path, s: Seg, ms: seq<Mutation>, exact: bool)
    requires f.Node? && (f.key.Some? ==> InSub(Sub(p, s), f.key.value)) && AllBelow(f.kids, Sub(p, s))
    requires From(ms, p, s.n + 1)
    ensures Run(f, p, ms) == f.(rest := Run(f.rest, p, ms))
    ensures Runs(f.rest, p, ms, exact) ==> Runs(f, p, ms, exact)
    decreases |ms|
  {
    if ms != [] {
      StepPassesHead(f, p, s, ms[0], exact);
      RunPassesHead(Step(f, p, ms[0]), p, s, ms[1..], exact);
    }
  }

  lemma {:induction false} RunEntersNode(f: Keyed, p: Path, s: Seg, ms: seq<Mutation>, exact: bool)
    requires f.Node? && f.key == Some(Sub(p, s)) && f.el.Elem? && NoneBelow(f.rest, Sub(p, s))
    requires Inside(ms, Sub(p, s)) && !InCell(Sub(p, s))
    ensures Run(f, p, ms) == f.(kids := Run(f.kids, Sub(p, s), ms))
    ensures Runs(f.kids, Sub(p, s), ms, exact) ==> Runs(f, p, ms, exact)
    decreases |ms|
  {
    if ms != [] {
      StepEntersNode(f, p, s, ms[0], exact);
      RunEntersNode(Step(f, p, ms[0]), p, s, ms[1..], exact);
    }
  }

  // ---- When the patched tree is the rendered tree

  /** Replacing inline x by y in place loses nothing: the strategy chosen for y ends in the tree of y.
      If exact, it also leaves no registry entry behind. */
  predicate FaithfulReplace(x: Inline, y: Inline, exact: bool) {
    x.Text? ||
    match y
    case Math(_, display) => x.Math? ==> x.display == display
    case Custom(_, _, None) =>
      InlineLabel(x) == InlineLabel(y) && (exact ==> x.inner.None? || x.inner.value.Nil?)
    case Custom(_, _, Some(_)) => InlineLabel(x).tag == SpanTag
    case Link(_, _, _) => InlineLabel(x).tag == ATag
    case Marked(m, _) => InlineLabel(x).tag == MarkTag(m)
    case _ => true
  }

  predicate FaithfulInline(x: Inline, y: Inline, exact: bool)
    decreases x, 0
  {
    x == y ||
    if !SameInlineKind(x, y) then FaithfulReplace(x, y, exact)
    else
      match (x, y)
      case (Marked(_, xs), Marked(_, ys)) => FaithfulInlines(xs, ys, exact)
      case (Link(h, t, xs), Link(h', t', ys)) =>
        h.raw != h'.raw || t != t' || (h.asset == h'.asset && FaithfulInlines(xs, ys, exact))
      case (Custom(k, t, xs), Custom(k', t', ys)) =>
        if k == k' && t == t' && xs.Some? && ys.Some? then
          (xs.value.Nil? == ys.value.Nil? || OrEmpty(t) == "") && FaithfulInlines(xs.value, ys.value, exact)
        else FaithfulReplace(x, y, exact)
      case (Math(_, d), Math(_, d')) => d == d'
      case _ => true
  }

  predicate FaithfulInlines(xs: List<Inline>, ys: List<Inline>, exact: bool)
    decreases xs, 1
  {
    xs.Nil? || ys.Nil? || (FaithfulInline(xs.head, ys.head, exact) && FaithfulInlines(xs.tail, ys.tail, exact))
  }

  predicate FaithfulBlock(x: Block, y: Block, exact: bool)
    decreases x, 0
  {
    x == y ||
    if !SameBlockKind(x, y) then y.Table? ==> x.CodeBlock? && x.mermaid
    else
      match (x, y)
      case (Paragraph(xs), Paragraph(ys)) => FaithfulInlines(xs, ys, exact)
      case (Heading(l, xs), Heading(l', ys)) => (l == l' || (l <= 6 && l' <= 6)) && FaithfulInlines(xs, ys, exact)
      case (Quote(xs), Quote(ys)) => FaithfulBlocks(xs, ys, exact)
      case (Itemized(o, xs), Itemized(o', ys)) => o != o' || FaithfulItems(xs, ys, exact)
      case _ => true
  }

  predicate FaithfulBlocks(xs: List<Block>, ys: List<Block>, exact: bool)
    decreases xs, 1
  {
    xs.Nil? || ys.Nil? || (FaithfulBlock(xs.head, ys.head, exact) && FaithfulBlocks(xs.tail, ys.tail, exact))
  }

  predicate FaithfulItems(xs: List<List<Block>>, ys: List<List<Block>>, exact: bool)
    decreases xs, 1
  {
    xs.Nil? || ys.Nil? || (FaithfulBlocks(xs.head, ys.head, exact) && FaithfulItems(xs.tail, ys.tail, exact))
  }

  // ---- The diff law

  predicate Within(ms: seq<Mutation>, id: Path) {
    forall i :: 0 <= i < |ms| ==> Rooted(ms[i]) && InSub(id, ms[i].id)
  }

  /** What is left of one node, followed by the siblings rest. */
  predicate OneNode(r: Keyed, id: Path, rest: Keyed) {
    && r.Node?
    && r.rest == rest
    && (r.key.Some? ==> InSub(id, r.key.value))
    && AllBelow(r.kids, id)
  }

  lemma {:induction false} UnkeyedBelow(f: Keyed, id: Path)
    ensures AllBelow(Unkeyed(f), id)
  {
    if f.Node? { UnkeyedBelow(f.kids, id); UnkeyedBelow(f.rest, id); }
  }

  lemma FromIsInside(ms: seq<Mutation>, id: Path)
    requires From(ms, id, 0)
    ensures Inside(ms, id)
  {
    forall i | 0 <= i < |ms| ensures InSub(id, ms[i].id) && ms[i].id != id {
      var s := Branch(id, ms[i].id).value;
      BranchIsSubtree(id, s, ms[i].id);
      BelowIsTransitive(id, Sub(id, s), ms[i].id);
      BelowIsDeeper(Sub(id, s), ms[i].id);
    }
  }

  lemma WithinIsFrom(ms: seq<Mutation>, p: Path, s: Seg)
    requires Within(ms, Sub(p, s))
    ensures From(ms, p, s.n)
  {
    forall i | 0 <= i < |ms| ensures Branch(p, ms[i].id) == Some(s) { BranchIsSubtree(p, s, ms[i].id); }
  }

  /** One mutation of the first node itself. */
  lemma RunHits(f: Keyed, p: Path, s: Seg, m: Mutation, exact: bool)
    requires f.Node? && f.key == Some(Sub(p, s)) && NoneBelow(f.rest, Sub(p, s)) && !InCell(Sub(p, s))
    requires !m.IsAdd() && m.id == Sub(p, s) && Suits(f.el, m) && (exact ==> CleanHit(f.el, f.kids, m))
    ensures Run(f, p, [m]) == Hit(f.el, f.kids, f.rest, m)
    ensures Runs(f, p, [m], exact)
  {
    NoKeyBelow(f.rest, m.id, m.id);
    ActMiss(f.rest, m);
    NoneBelowIsApart(f.rest, m.id);
    assert [m][1..] == [];
    assert Run(f, p, [m]) == Run(Step(f, p, m), p, []);
    assert Runs(Step(f, p, m), p, [], exact);
  }

  /** Adding children after an unregistered text node. */
  lemma {:induction false} RunPassesText(f: Keyed, p: Path, ms: seq<Mutation>, exact: bool)
    requires f.Node? && f.key.None? && f.kids.Empty? && From(ms, p, 0)
    ensures Run(f, p, ms) == f.(rest := Run(f.rest, p, ms))
    ensures Runs(f.rest, p, ms, exact) ==> Runs(f, p, ms, exact)
    decreases |ms|
  {
    if ms != [] {
      StepPassesHead(f, p, In(Branch(p, ms[0].id).value.n + 1), ms[0], exact);
      RunPassesText(Step(f, p, ms[0]), p, ms[1..], exact);
    }
  }

  /** Run the mutations of the children of one node. */
  lemma RunKids(f: Keyed, p: Path, s: Seg, ms: seq<Mutation>, exact: bool)
    requires f.Node? && f.key == Some(Sub(p, s)) && f.el.Elem? && NoneBelow(f.rest, Sub(p, s)) && !InCell(Sub(p, s))
    requires From(ms, Sub(p, s), 0) && Runs(f.kids, Sub(p, s), ms, exact)
    requires AllFrom(Run(f.kids, Sub(p, s), ms), Sub(p, s), 0)
    ensures Run(f, p, ms) == f.(kids := Run(f.kids, Sub(p, s), ms)) && Runs(f, p, ms, exact)
    ensures OneNode(Run(f, p, ms), Sub(p, s), f.rest) && Within(ms, Sub(p, s))
  {
    FromIsInside(ms, Sub(p, s));
    RunEntersNode(f, p, s, ms, exact);
    FromIsBelow(Run(f.kids, Sub(p, s), ms), Sub(p, s), 0);
  }

  /** Patch the first child, then its later siblings. */
  lemma ChainRuns(f: Keyed, p: Path, s: Seg, ms: seq<Mutation>, ns: seq<Mutation>, exact: bool)
    requires f.Node? && Within(ms, Sub(p, s)) && From(ns, p, s.n + 1)
    requires Runs(f, p, ms, exact) && OneNode(Run(f, p, ms), Sub(p, s), f.rest)
    requires Runs(f.rest, p, ns, exact) && AllFrom(Run(f.rest, p, ns), p, s.n + 1)
    ensures From(ms + ns, p, s.n) && Runs(f, p, ms + ns, exact)
    ensures Run(f, p, ms + ns) == Run(f, p, ms).(rest := Run(f.rest, p, ns))
    ensures AllFrom(Run(f, p, ms + ns), p, s.n)
  {
    var r := Run(f, p, ms);
    WithinIsFrom(ms, p, s);
    RunPassesHead(r, p, s, ns, exact);
    RunConcat(f, p, ms, ns, exact);
    BelowChildIsFrom(r.kids, p, s, s.n);
    FromIsMonotone(Run(f.rest, p, ns), p, s.n, s.n + 1);
    if r.key.Some? { BranchIsSubtree(p, s, r.key.value); }
  }

  /** The strategies of replace_inline: what each leaves in place of x is the tree of y, or is not. */
  lemma ReplaceLeafOutcome(x: Inline, y: Inline, id: Path, rest: Keyed)
    requires !IsContainer(y)
    ensures Hit(InlineLabel(x), InlineKids(x, id), rest, ReplaceInline(id, y)) == RenderInline(y, id, rest)
            <==> FaithfulReplace(x, y, false)
  {}

  lemma ReplaceContainerOutcome(x: Inline, y: Inline, id: Path, rest: Keyed)
    requires IsContainer(y)
    ensures Hit(InlineLabel(x), InlineKids(x, id), rest, ReplaceInline(id, y)) == RenderInline(y, id, rest)
            <==> FaithfulReplace(x, y, false)
  {
    if !x.Text? && !(y.Custom? && y.inner.None?) {
      assert Hit(InlineLabel(x), InlineKids(x, id), rest, ReplaceInline(id, y))
          == Morph(id, InlineLabel(x), RenderInline(y, id, Empty), rest);
    }
  }

  lemma ReplaceInlineClean(x: Inline, y: Inline, id: Path)
    requires FaithfulReplace(x, y, true)
    ensures FaithfulReplace(x, y, false) && CleanHit(InlineLabel(x), InlineKids(x, id), ReplaceInline(id, y))
  {
    InlineKidsBelow(x, id);
    FromIsBelow(InlineKids(x, id), id, 0);
  }

  /** The strategies of replace, for blocks. */
  lemma ReplaceOutcome(x: Block, y: Block, id: Path, rest: Keyed)
    ensures var f := RenderBlock(x, id, rest);
            && (Hit(f.el, f.kids, rest, Replace(id, y)) == RenderBlock(y, id, rest)
                <==> (y.Table? ==> BlockLabel(x).tag == DivTag))
            && ((y.Table? ==> BlockLabel(x).tag == DivTag) ==> CleanHit(f.el, f.kids, Replace(id, y)))
  {
    BlockKidsBelow(x, id);
    FromIsBelow(BlockKids(x, id), id, 0);
  }

  /** The outcome of patching node f with ms, where g is the rendered new node and both are followed by
      the same siblings: whole is when the tree comes out right, tidy when the registry does too. */
  predicate NodeOutcome(f: Keyed, g: Keyed, p: Path, id: Path, ms: seq<Mutation>, whole: bool, tidy: bool)
    requires f.Node?
  {
    && Within(ms, id)
    && Runs(f, p, ms, false)
    && OneNode(Run(f, p, ms), id, f.rest)
    && (Run(f, p, ms) == g <==> whole)
    && (tidy ==> whole && Runs(f, p, ms, true))
  }

  /** The same for a list of siblings from the k-th child of p on. */
  predicate ListOutcome(f: Keyed, g: Keyed, p: Path, k: nat, ms: seq<Mutation>, whole: bool, tidy: bool) {
    && From(ms, p, k)
    && Runs(f, p, ms, false)
    && AllFrom(Run(f, p, ms), p, k)
    && (Run(f, p, ms) == g <==> whole)
    && (tidy ==> whole && Runs(f, p, ms, true))
  }

  /** A node whose children are patched by ms, and nothing else. */
  lemma KidsOutcome(f: Keyed, g: Keyed, p: Path, s: Seg, ms: seq<Mutation>, whole: bool, tidy: bool)
    requires f.Node? && f.key == Some(Sub(p, s)) && f.el.Elem? && NoneBelow(f.rest, Sub(p, s)) && !InCell(Sub(p, s))
    requires g.Node? && g == f.(kids := g.kids)
    requires ListOutcome(f.kids, g.kids, Sub(p, s), 0, ms, whole, tidy)
    ensures NodeOutcome(f, g, p, Sub(p, s), ms, whole, tidy) && Run(f, p, ms).el == f.el
  {
    RunKids(f, p, s, ms, false);
    if tidy { RunKids(f, p, s, ms, true); }
  }

  /** The outcome for the first child and the outcome for its later siblings, combined. */
  lemma ConsOutcome(f: Keyed, g: Keyed, p: Path, s: Seg, ms: seq<Mutation>, ns: seq<Mutation>,
                    whole: bool, tidy: bool, whole': bool, tidy': bool)
    requires f.Node? && g.Node? && g.key == Some(Sub(p, s))
    requires NodeOutcome(f, g.(rest := f.rest), p, Sub(p, s), ms, whole, tidy)
    requires ListOutcome(f.rest, g.rest, p, s.n + 1, ns, whole', tidy')
    ensures ListOutcome(f, g, p, s.n, ms + ns, whole && whole', tidy && tidy')
  {
    ChainRuns(f, p, s, ms, ns, false);
    if tidy && tidy' { ChainRuns(f, p, s, ms, ns, true); }
  }

  /** Add the first missing child, then the rest of them. */
  lemma AddOutcome(g: Keyed, p: Path, s: Seg, m: Mutation, ns: seq<Mutation>, whole: bool, tidy: bool)
    requires m.IsAdd() && m.parent == p && m.id == Sub(p, s) && g.Node? && g.(rest := Empty) == Added(m)
    requires g.key == Some(Sub(p, s)) && AllFrom(g.kids, Sub(p, s), 0)
    requires ListOutcome(Empty, g.rest, p, s.n + 1, ns, whole, tidy)
    ensures ListOutcome(Empty, g, p, s.n, [m] + ns, whole, tidy)
  {
    FromIsBelow(g.kids, Sub(p, s), 0);
    RunPassesHead(Added(m), p, s, ns, false);
    RunPassesHead(Added(m), p, s, ns, true);
    assert ([m] + ns)[1..] == ns;
    ChildFrom(p, s, g.el, g.kids, Run(Empty, p, ns));
  }

  /** Remove the first surplus child, then the rest of them. */
  lemma RemoveOutcome(f: Keyed, g: Keyed, p: Path, s: Seg, ns: seq<Mutation>, whole: bool, tidy: bool)
    requires ApartAt(f, Sub(p, s)) && !InCell(Sub(p, s))
    requires ListOutcome(f.rest, g, p, s.n + 1, ns, whole, tidy)
    ensures ListOutcome(f, g, p, s.n, [Remove(Sub(p, s))] + ns, whole, tidy)
  {
    RunHits(f, p, s, Remove(Sub(p, s)), true);
    RunHits(f, p, s, Remove(Sub(p, s)), false);
    RunConcat(f, p, [Remove(Sub(p, s))], ns, true);
    RunConcat(f, p, [Remove(Sub(p, s))], ns, false);
    FromIsMonotone(Run(f.rest, p, ns), p, s.n, s.n + 1);
  }

  /** One mutation of the node itself decides its outcome. */
  lemma HitOutcome(f: Keyed, g: Keyed, p: Path, s: Seg, m: Mutation, whole: bool, tidy: bool)
    requires f.Node? && f.key == Some(Sub(p, s)) && NoneBelow(f.rest, Sub(p, s)) && !InCell(Sub(p, s))
    requires !m.IsAdd() && m.id == Sub(p, s) && Suits(f.el, m)
    requires OneNode(Hit(f.el, f.kids, f.rest, m), Sub(p, s), f.rest)
    requires Hit(f.el, f.kids, f.rest, m) == g <==> whole
    requires tidy ==> whole && CleanHit(f.el, f.kids, m)
    ensures NodeOutcome(f, g, p, Sub(p, s), [m], whole, tidy)
  {
    RunHits(f, p, s, m, false);
    RunHits(f, p, s, m, tidy);
  }

  lemma HitIsOneNode(l: Label, kids: Keyed, rest: Keyed, id: Path, y: Inline)
    requires AllBelow(kids, id) && AllBelow(InlineKids(y, id), id) && AllBelow(Unkeyed(InlineKids(y, id)), id)
    ensures OneNode(Hit(l, kids, rest, ReplaceInline(id, y)), id, rest)
  {}

  lemma ReplacedStaysBelow(l: Label, kids: Keyed, rest: Keyed, id: Path, y: Inline)
    requires AllBelow(kids, id)
    ensures OneNode(Hit(l, kids, rest, ReplaceInline(id, y)), id, rest)
  {
    InlineKidsBelow(y, id);
    FromIsBelow(InlineKids(y, id), id, 0);
    UnkeyedBelow(InlineKids(y, id), id);
    HitIsOneNode(l, kids, rest, id, y);
  }

  lemma InlineReplaced(x: Inline, y: Inline, p: Path, s: Seg, rest: Keyed)
    requires NoneBelow(rest, Sub(p, s)) && !InCell(Sub(p, s))
    ensures NodeOutcome(RenderInline(x, Sub(p, s), rest),
                        RenderInline(y, Sub(p, s), rest),
                        p, Sub(p, s),
                        [ReplaceInline(Sub(p, s), y)], FaithfulReplace(x, y, false), FaithfulReplace(x, y, true))
  {
    var id := Sub(p, s);
    InlineKidsBelow(x, id);
    FromIsBelow(InlineKids(x, id), id, 0);
    ReplacedStaysBelow(InlineLabel(x), InlineKids(x, id), rest, id, y);
    if IsContainer(y) { ReplaceContainerOutcome(x, y, id, rest); } else { ReplaceLeafOutcome(x, y, id, rest); }
    if FaithfulReplace(x, y, true) { ReplaceInlineClean(x, y, id); }
    HitOutcome(RenderInline(x, id, rest), RenderInline(y, id, rest), p, s, ReplaceInline(id, y),
               FaithfulReplace(x, y, false), FaithfulReplace(x, y, true));
  }

  lemma TextCorrect(v: string, w: string, p: Path, s: Seg, rest: Keyed)
    requires NoneBelow(rest, Sub(p, s)) && !InCell(Sub(p, s))
    ensures NodeOutcome(RenderInline(Text(v), Sub(p, s), rest),
                        RenderInline(Text(w), Sub(p, s), rest),
                        p, Sub(p, s),
                        DiffText(Sub(p, s), v, w), true, true)
  {
    var f := RenderInline(Text(v), Sub(p, s), rest);
    if v != w {
      RunHits(f, p, s, DiffText(Sub(p, s), v, w)[0], true);
      RunHits(f, p, s, DiffText(Sub(p, s), v, w)[0], false);
    }
    if v <= w { assert w == v + w[|v|..]; }
  }

  /** Both inlines hold children that are compared one by one. */
  predicate Descends(x: Inline, y: Inline) {
    SameInlineKind(x, y) &&
    (x.Marked? || (x.Link? && x.href.raw == y.href.raw && x.title == y.title)
     || (x.Custom? && x.kind == y.kind && x.text == y.text && x.inner.Some? && y.inner.Some?))
  }

  lemma {:induction false} InlineCorrect(x: Inline, y: Inline, p: Path, s: Seg, rest: Keyed)
    requires NoneBelow(rest, Sub(p, s)) && !InCell(Sub(p, s))
    ensures NodeOutcome(RenderInline(x, Sub(p, s), rest),
                        RenderInline(y, Sub(p, s), rest),
                        p, Sub(p, s),
                        DiffInline(x, y, Sub(p, s)), FaithfulInline(x, y, false), FaithfulInline(x, y, true))
    decreases x, 0
  {
    var id := Sub(p, s);
    var f, g := RenderInline(x, id, rest), RenderInline(y, id, rest);
    if x == y {
      assert DiffInline(x, y, id) == [];
      InlineKidsBelow(x, id);
      FromIsBelow(InlineKids(x, id), id, 0);
    } else if !Descends(x, y) {
      if x.Text? && y.Text? {
        TextCorrect(x.value, y.value, p, s, rest);
      } else {
        InlineReplaced(x, y, p, s, rest);
      }
    } else if x.Custom? {
      CustomCorrect(x, y, p, s, rest);
    } else {
      InlinesCorrect(x.kids, y.kids, id, 0);
      LinkAssetCorrect(x, y, p, s, rest);
    }
  }

  /** Children compared one by one: only the asset flag of a link can be lost. */
  lemma LinkAssetCorrect(x: Inline, y: Inline, p: Path, s: Seg, rest: Keyed)
    requires NoneBelow(rest, Sub(p, s)) && !InCell(Sub(p, s))
    requires Descends(x, y) && !x.Custom? && x != y
    requires ListOutcome(RenderInlines(x.kids, Sub(p, s), 0), RenderInlines(y.kids, Sub(p, s), 0), Sub(p, s), 0,
                         DiffInlines(x.kids, y.kids, Sub(p, s), 0),
                         FaithfulInlines(x.kids, y.kids, false), FaithfulInlines(x.kids, y.kids, true))
    ensures NodeOutcome(RenderInline(x, Sub(p, s), rest),
                        RenderInline(y, Sub(p, s), rest),
                        p, Sub(p, s),
                        DiffInline(x, y, Sub(p, s)), FaithfulInline(x, y, false), FaithfulInline(x, y, true))
  {
    var f, g := RenderInline(x, Sub(p, s), rest), RenderInline(y, Sub(p, s), rest);
    KidsOutcome(f, f.(kids := g.kids), p, s, DiffInlines(x.kids, y.kids, Sub(p, s), 0),
                FaithfulInlines(x.kids, y.kids, false), FaithfulInlines(x.kids, y.kids, true));
    if x.Link? {
      assert f.el == g.el <==> x.href.asset == y.href.asset;
    } else {
      assert f.el == g.el;
    }
  }

  /** A custom span shows its text only while it has no inline children. */
  lemma {:induction false} CustomCorrect(x: Inline, y: Inline, p: Path, s: Seg, rest: Keyed)
    requires NoneBelow(rest, Sub(p, s)) && !InCell(Sub(p, s))
    requires Descends(x, y) && x.Custom? && x != y
    ensures NodeOutcome(RenderInline(x, Sub(p, s), rest),
                        RenderInline(y, Sub(p, s), rest),
                        p, Sub(p, s),
                        DiffInline(x, y, Sub(p, s)), FaithfulInline(x, y, false), FaithfulInline(x, y, true))
    decreases x, 0, 0
  {
    var id := Sub(p, s);
    var f, g := RenderInline(x, id, rest), RenderInline(y, id, rest);
    var xs, ys := x.inner.value, y.inner.value;
    var ms := DiffInlines(xs, ys, id, 0);
    var whole, tidy := FaithfulInlines(xs, ys, false), FaithfulInlines(xs, ys, true);
    var fits := xs.Nil? == ys.Nil? || OrEmpty(x.text) == "";
    InlinesCorrect(xs, ys, id, 0);
    if xs.Nil? && f.kids.Node? {
      RunPassesText(f.kids, id, ms, false);
      RunPassesText(f.kids, id, ms, true);
    }
    if ys.Cons? { assert RenderInlines(ys, id, 0).key.Some?; }
    assert Run(f.kids, id, ms) == g.kids <==> fits && whole;
    KidsOutcome(f, g, p, s, ms, fits && whole, fits && tidy);
  }

  lemma {:induction false} InlinesCorrect(xs: List<Inline>, ys: List<Inline>, p: Path, k: nat)
    requires !InCell(p)
    ensures ListOutcome(RenderInlines(xs, p, k),
                        RenderInlines(ys, p, k),
                        p, k, DiffInlines(xs, ys, p, k),
                        FaithfulInlines(xs, ys, false), FaithfulInlines(xs, ys, true))
    decreases xs, 1, ys
  {
    var f, g := RenderInlines(xs, p, k), RenderInlines(ys, p, k);
    var s := In(k);
    var id := Sub(p, s);
    if xs.Cons? { InlinesApart(xs, p, k); }
    match (xs, ys)
    case (Nil, Nil) =>
    case (Cons(x, xs'), Cons(y, ys')) =>
      InlineCorrect(x, y, p, s, f.rest);
      InlinesCorrect(xs', ys', p, k + 1);
      ConsOutcome(f, g, p, s, DiffInline(x, y, id), DiffInlines(xs', ys', p, k + 1),
                  FaithfulInline(x, y, false), FaithfulInline(x, y, true),
                  FaithfulInlines(xs', ys', false), FaithfulInlines(xs', ys', true));
    case (Nil, Cons(y, ys')) =>
      InlinesCorrect(Nil, ys', p, k + 1);
      InlineKidsBelow(y, id);
      AddOutcome(g, p, s, AddInline(id, p, y), DiffInlines(Nil, ys', p, k + 1), true, true);
    case (Cons(_, xs'), Nil) =>
      InlinesCorrect(xs', Nil, p, k + 1);
      RemoveOutcome(f, g, p, s, DiffInlines(xs', Nil, p, k + 1), true, true);
  }

  lemma BlockReplaced(x: Block, y: Block, p: Path, s: Seg, rest: Keyed)
    requires NoneBelow(rest, Sub(p, s)) && !InCell(Sub(p, s))
    ensures var whole := y.Table? ==> BlockLabel(x).tag == DivTag;
            NodeOutcome(RenderBlock(x, Sub(p, s), rest),
                        RenderBlock(y, Sub(p, s), rest),
                        p, Sub(p, s),
                        [Replace(Sub(p, s), y)], whole, whole)
  {
    var id := Sub(p, s);
    var whole := y.Table? ==> BlockLabel(x).tag == DivTag;
    BlockKidsBelow(y, id);
    FromIsBelow(BlockKids(y, id), id, 0);
    UnkeyedBelow(BlockKids(y, id), id);
    ReplaceOutcome(x, y, id, rest);
    HitOutcome(RenderBlock(x, id, rest), RenderBlock(y, id, rest), p, s, Replace(id, y), whole, whole);
  }

  lemma HeadingLevelCorrect(x: Block, y: Block, p: Path, s: Seg, rest: Keyed, whole: bool, tidy: bool)
    requires NoneBelow(rest, Sub(p, s)) && !InCell(Sub(p, s))
    requires x.Heading? && y.Heading? && x.level != y.level
    requires ListOutcome(RenderInlines(x.kids, Sub(p, s), 0), RenderInlines(y.kids, Sub(p, s), 0), Sub(p, s), 0,
                         DiffInlines(x.kids, y.kids, Sub(p, s), 0), whole, tidy)
    ensures var ok := x.level <= 6 && y.level <= 6;
            NodeOutcome(RenderBlock(x, Sub(p, s), rest),
                        RenderBlock(y, Sub(p, s), rest),
                        p, Sub(p, s),
                        [SetLevel(Sub(p, s), y.level)] + DiffInlines(x.kids, y.kids, Sub(p, s), 0), ok && whole, ok && tidy)
  {
    var id := Sub(p, s);
    var f, g := RenderBlock(x, id, rest), RenderBlock(y, id, rest);
    var m, ns := SetLevel(id, y.level), DiffInlines(x.kids, y.kids, id, 0);
    var h := Run(f, p, [m]);
    RunHits(f, p, s, m, true);
    RunHits(f, p, s, m, false);
    assert h == f.(el := h.el);
    assert h.el == g.el <==> x.level <= 6 && y.level <= 6;
    KidsOutcome(h, h.(kids := g.kids), p, s, ns, whole, tidy);
    RunConcat(f, p, [m], ns, false);
    RunConcat(f, p, [m], ns, true);
  }

  lemma HeadingCorrect(x: Block, y: Block, p: Path, s: Seg, rest: Keyed)
    requires NoneBelow(rest, Sub(p, s)) && !InCell(Sub(p, s))
    requires x.Heading? && y.Heading? && x != y
    ensures NodeOutcome(RenderBlock(x, Sub(p, s), rest),
                        RenderBlock(y, Sub(p, s), rest),
                        p, Sub(p, s),
                        DiffBlock(x, y, Sub(p, s)), FaithfulBlock(x, y, false), FaithfulBlock(x, y, true))
  {
    var ns := DiffInlines(x.kids, y.kids, Sub(p, s), 0);
    var whole, tidy := FaithfulInlines(x.kids, y.kids, false), FaithfulInlines(x.kids, y.kids, true);
    InlinesCorrect(x.kids, y.kids, Sub(p, s), 0);
    if x.level == y.level {
      assert [] + ns == ns;
      KidsOutcome(RenderBlock(x, Sub(p, s), rest), RenderBlock(y, Sub(p, s), rest), p, s, ns, whole, tidy);
    } else {
      HeadingLevelCorrect(x, y, p, s, rest, whole, tidy);
    }
  }

  lemma {:induction false} BlockCorrect(x: Block, y: Block, p: Path, s: Seg, rest: Keyed)
    requires NoneBelow(rest, Sub(p, s)) && !InCell(Sub(p, s))
    ensures NodeOutcome(RenderBlock(x, Sub(p, s), rest),
                        RenderBlock(y, Sub(p, s), rest),
                        p, Sub(p, s),
                        DiffBlock(x, y, Sub(p, s)), FaithfulBlock(x, y, false), FaithfulBlock(x, y, true))
    decreases x, 0
  {
    var id := Sub(p, s);
    var f, g := RenderBlock(x, id, rest), RenderBlock(y, id, rest);
    if x == y && !x.Rule? {
      assert DiffBlock(x, y, id) == [];
      BlockKidsBelow(x, id);
      FromIsBelow(BlockKids(x, id), id, 0);
    } else if !SameBlockKind(x, y) || x.CodeBlock? || x.Table? || x.Rule? || (x.Itemized? && x.ordered != y.ordered) {
      BlockReplaced(x, y, p, s, rest);
    } else if x.Heading? {
      HeadingCorrect(x, y, p, s, rest);
    } else if x.Paragraph? {
      InlinesCorrect(x.kids, y.kids, id, 0);
      KidsOutcome(f, g, p, s, DiffInlines(x.kids, y.kids, id, 0),
                  FaithfulInlines(x.kids, y.kids, false), FaithfulInlines(x.kids, y.kids, true));
    } else if x.Quote? {
      BlocksCorrect(x.blocks, y.blocks, id, 0);
      KidsOutcome(f, g, p, s, DiffBlocks(x.blocks, y.blocks, id, 0),
                  FaithfulBlocks(x.blocks, y.blocks, false), FaithfulBlocks(x.blocks, y.blocks, true));
    } else {
      ItemsCorrect(x.items, y.items, id, 0);
      KidsOutcome(f, g, p, s, DiffItems(x.items, y.items, id, 0),
                  FaithfulItems(x.items, y.items, false), FaithfulItems(x.items, y.items, true));
    }
  }

  lemma {:induction false} BlocksCorrect(xs: List<Block>, ys: List<Block>, p: Path, k: nat)
    requires !InCell(p)
    ensures ListOutcome(RenderBlocks(xs, p, k),
                        RenderBlocks(ys, p, k),
                        p, k, DiffBlocks(xs, ys, p, k),
                        FaithfulBlocks(xs, ys, false), FaithfulBlocks(xs, ys, true))
    decreases xs, 1, ys
  {
    var f, g := RenderBlocks(xs, p, k), RenderBlocks(ys, p, k);
    var s := BlockSeg(p, k);
    var id := Sub(p, s);
    if xs.Cons? { BlocksApart(xs, p, k); }
    match (xs, ys)
    case (Nil, Nil) =>
    case (Cons(x, xs'), Cons(y, ys')) =>
      BlockCorrect(x, y, p, s, f.rest);
      BlocksCorrect(xs', ys', p, k + 1);
      ConsOutcome(f, g, p, s, DiffBlock(x, y, id), DiffBlocks(xs', ys', p, k + 1),
                  FaithfulBlock(x, y, false), FaithfulBlock(x, y, true),
                  FaithfulBlocks(xs', ys', false), FaithfulBlocks(xs', ys', true));
    case (Nil, Cons(y, ys')) =>
      BlocksCorrect(Nil, ys', p, k + 1);
      BlockKidsBelow(y, id);
      AddOutcome(g, p, s, Add(id, p, y), DiffBlocks(Nil, ys', p, k + 1), true, true);
    case (Cons(_, xs'), Nil) =>
      BlocksCorrect(xs', Nil, p, k + 1);
      RemoveOutcome(f, g, p, s, DiffBlocks(xs', Nil, p, k + 1), true, true);
  }

  lemma {:induction false} ItemsCorrect(xs: List<List<Block>>, ys: List<List<Block>>, p: Path, k: nat)
    requires !InCell(p)
    ensures ListOutcome(RenderItems(xs, p, k),
                        RenderItems(ys, p, k),
                        p, k, DiffItems(xs, ys, p, k),
                        FaithfulItems(xs, ys, false), FaithfulItems(xs, ys, true))
    decreases xs, 1, ys
  {
    var f, g := RenderItems(xs, p, k), RenderItems(ys, p, k);
    var s := Item(k);
    var id := Sub(p, s);
    if xs.Cons? { ItemsApart(xs, p, k); }
    match (xs, ys)
    case (Nil, Nil) =>
    case (Cons(x, xs'), Cons(y, ys')) =>
      BlocksCorrect(x, y, id, 0);
      KidsOutcome(f, g.(rest := f.rest), p, s, DiffBlocks(x, y, id, 0),
                  FaithfulBlocks(x, y, false), FaithfulBlocks(x, y, true));
      ItemsCorrect(xs', ys', p, k + 1);
      ConsOutcome(f, g, p, s, DiffBlocks(x, y, id, 0), DiffItems(xs', ys', p, k + 1),
                  FaithfulBlocks(x, y, false), FaithfulBlocks(x, y, true),
                  FaithfulItems(xs', ys', false), FaithfulItems(xs', ys', true));
    case (Nil, Cons(y, ys')) =>
      ItemsCorrect(Nil, ys', p, k + 1);
      BlocksFrom(y, id, 0);
      AddOutcome(g, p, s, AddItem(id, p, y), DiffItems(Nil, ys', p, k + 1), true, true);
    case (Cons(_, xs'), Nil) =>
      ItemsCorrect(xs', Nil, p, k + 1);
      RemoveOutcome(f, g, p, s, DiffItems(xs', Nil, p, k + 1), true, true);
  }

  /** Patching the rendered old document with the diff runs without a failed mutation, and gives the
      rendered new document exactly when no in-place update on the way loses something. */
  lemma DiffThenPatchIsRender(before: List<Block>, after: List<Block>)
    ensures Runs(RenderDocument(before), Root, DiffDocuments(before, after), false)
    ensures Run(RenderDocument(before), Root, DiffDocuments(before, after)) == RenderDocument(after)
            <==> FaithfulBlocks(before, after, false)
    ensures FaithfulBlocks(before, after, true)
            ==> FaithfulBlocks(before, after, false) && Runs(RenderDocument(before), Root, DiffDocuments(before, after), true)
  {
    BlocksCorrect(before, after, Root, 0);
  }

  /** A paragraph that turns into a table, as every streamed table does: the registry loses the table. */
  lemma ParagraphToTableIsLossy(text: string, header: List<List<Inline>>)
    ensures var before := Cons(Paragraph(Cons(Text(text), Nil)), Nil);
            var after := Cons(Table(header, Nil, None), Nil);
            && Run(RenderDocument(before), Root, DiffDocuments(before, after)) != RenderDocument(after)
            && !HasKey(Run(RenderDocument(before), Root, DiffDocuments(before, after)), Sub(Root, Top(0)))
  {
    var before := Cons(Paragraph(Cons(Text(text), Nil)), Nil);
    var after := Cons(Table(header, Nil, None), Nil);
    DiffThenPatchIsRender(before, after);
    var id := Sub(Root, Top(0));
    assert DiffBlocks(Nil, Nil, Root, 1) == [];
    assert DiffBlock(before.head, after.head, id) == [Replace(id, after.head)];
    assert DiffDocuments(before, after) == DiffBlock(before.head, after.head, id) + [] == [Replace(id, after.head)];
    assert RenderBlocks(Nil, Root, 1) == Empty;
    assert RenderDocument(before) == RenderBlock(before.head, id, Empty);
    RunHits(RenderDocument(before), Root, Top(0), Replace(id, after.head), false);
    UnkeyedHasNoKey(BlockKids(after.head, id), id);
  }

  lemma {:induction false} UnkeyedHasNoKey(f: Keyed, p: Path)
    ensures !HasKey(Unkeyed(f), p)
  {
    if f.Node? { UnkeyedHasNoKey(f.kids, p); UnkeyedHasNoKey(f.rest, p); }
  }
}
