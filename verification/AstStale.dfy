/** Which registry entries survive a run of mutations, and when one of them is left without a node. */
module AstStale {
  import opened Wrappers
  import opened MarkdownAst
  import opened NodeIds
  import opened DomTree
  import opened AstDiff
  import opened AstPatch

  /** The strategies that update a leaf in place purge nothing; all other replacements purge. */
  predicate Purges(l: Label, m: Mutation) {
    match m
    case Remove(_) => true
    case Replace(_, _) => true
    case ReplaceInline(_, x) =>
      !((x.Text? && l.TextNode?) || (x.Code? && l.Elem? && l.tag == CodeTag)
        || (x.Math? && l.Elem? && l.class_.MathClass?) || (x.Custom? && x.inner.None? && l.Elem?)
        || (x.Image? && l.Elem? && l.tag == ImgTag))
    case _ => false
  }

  predicate PurgesIn(f: Keyed, m: Mutation) {
    f.Node? && ((f.key == Some(m.id) && Purges(f.el, m)) || PurgesIn(f.kids, m) || PurgesIn(f.rest, m))
  }

  /** The mutation, applied to f, deletes the entry of q from the registry. */
  predicate Forgets(f: Keyed, m: Mutation, q: Path) {
    (m.Remove? || m.Replace? || m.ReplaceInline?) && InSub(m.id, q) && PurgesIn(f, m)
  }

  /** No mutation deletes the entry of q. */
  predicate Spared(f: Keyed, p: Path, ms: seq<Mutation>, q: Path)
    decreases |ms|
  {
    ms == [] || (!Forgets(f, ms[0], q) && Spared(Step(f, p, ms[0]), p, ms[1..], q))
  }

  /** Whether q is registered after the mutation, if was tells it before: it is not deleted, or in the new tree; and the
      id of a replaced node stays registered even if morphdom takes the node out of the tree. */
  predicate Lists(f: Keyed, m: Mutation, q: Path, was: bool) {
    (was && !Forgets(f, m, q)) || HasKey(Step(f, Root, m), q) || (q == m.id && (m.Replace? || m.ReplaceInline?))
  }

  predicate Listed(f: Keyed, ms: seq<Mutation>, q: Path, was: bool)
    decreases |ms|
  {
    if ms == [] then was else Listed(Step(f, Root, ms[0]), ms[1..], q, Lists(f, ms[0], q, was))
  }

  lemma {:induction false} SparedIsListed(f: Keyed, ms: seq<Mutation>, q: Path)
    requires Spared(f, Root, ms, q)
    ensures Listed(f, ms, q, true)
    decreases |ms|
  {
    if ms != [] { SparedIsListed(Step(f, Root, ms[0]), ms[1..], q); }
  }

  lemma {:induction false} PurgesMiss(f: Keyed, m: Mutation)
    requires !HasKey(f, m.id)
    ensures !PurgesIn(f, m)
  {
    if f.Node? { PurgesMiss(f.kids, m); PurgesMiss(f.rest, m); }
  }

  lemma {:induction false} SparedConcat(f: Keyed, p: Path, a: seq<Mutation>, b: seq<Mutation>, q: Path)
    ensures Spared(f, p, a + b, q) <==> Spared(f, p, a, q) && Spared(Run(f, p, a), p, b, q)
    decreases |a|
  {
    if a == [] {
      assert a + b == b;
    } else {
      assert (a + b)[1..] == a[1..] + b;
      SparedConcat(Step(f, p, a[0]), p, a[1..], b, q);
    }
  }

  lemma {:induction false} SparedElsewhere(f: Keyed, p: Path, ms: seq<Mutation>, q: Path)
    requires forall i :: 0 <= i < |ms| ==> !InSub(ms[i].id, q)
    ensures Spared(f, p, ms, q)
    decreases |ms|
  {
    if ms != [] { SparedElsewhere(Step(f, p, ms[0]), p, ms[1..], q); }
  }

  /** Mutations of other children of p. */
  lemma SparedByOthers(f: Keyed, p: Path, ms: seq<Mutation>, q: Path)
    requires Branch(p, q).Some?
    requires forall i :: 0 <= i < |ms| ==> Branch(p, ms[i].id).Some? && Branch(p, ms[i].id).value.n != Branch(p, q).value.n
    ensures Spared(f, p, ms, q)
  {
    forall i | 0 <= i < |ms| ensures !InSub(ms[i].id, q) {
      if InSub(ms[i].id, q) {
        var s := Branch(p, ms[i].id).value;
        BranchIsSubtree(p, s, ms[i].id);
        BelowIsTransitive(Sub(p, s), ms[i].id, q);
        BranchIsSubtree(p, s, q);
      }
    }
    SparedElsewhere(f, p, ms, q);
  }

  /** Mutations of later children, seen past the first node. */
  lemma {:induction false} SparedPassesHead(f: Keyed, p: Path, s: Seg, ms: seq<Mutation>, q: Path)
    requires f.Node? && (f.key.Some? ==> InSub(Sub(p, s), f.key.value)) && AllBelow(f.kids, Sub(p, s))
    requires From(ms, p, s.n + 1) && Spared(f.rest, p, ms, q)
    ensures Spared(f, p, ms, q)
    decreases |ms|
  {
    if ms != [] {
      var m := ms[0];
      StepPassesHead(f, p, s, m, false);
      BranchIsSubtree(p, s, m.id);
      NoKeyOutside(f.kids, Sub(p, s), m.id);
      PurgesMiss(f.kids, m);
      SparedPassesHead(Step(f, p, m), p, s, ms[1..], q);
    }
  }

  /** Mutations strictly below the node, seen at its children. */
  lemma {:induction false} SparedEntersNode(f: Keyed, p: Path, s: Seg, ms: seq<Mutation>, q: Path)
    requires f.Node? && f.key == Some(Sub(p, s)) && f.el.Elem? && NoneBelow(f.rest, Sub(p, s)) && !InCell(Sub(p, s))
    requires Inside(ms, Sub(p, s)) && Spared(f.kids, Sub(p, s), ms, q)
    ensures Spared(f, p, ms, q)
    decreases |ms|
  {
    if ms != [] {
      StepEntersNode(f, p, s, ms[0], false);
      NoKeyBelow(f.rest, Sub(p, s), ms[0].id);
      PurgesMiss(f.rest, ms[0]);
      SparedEntersNode(Step(f, p, ms[0]), p, s, ms[1..], q);
    }
  }

  // ---- The entry that a faithful but inexact update leaves

  /** The entry of q, in the old node, is spared and names nothing in the new one. */
  predicate NodeLeaves(f: Keyed, g: Keyed, p: Path, id: Path, ms: seq<Mutation>, q: Path) {
    && f.Node? && g.Node? && InSub(id, q) && !InCell(q)
    && HasKey(f.(rest := Empty), q) && !HasKey(g.(rest := Empty), q) && Spared(f, p, ms, q)
  }

  predicate ListLeaves(f: Keyed, g: Keyed, p: Path, k: nat, ms: seq<Mutation>, q: Path) {
    && Branch(p, q).Some? && Branch(p, q).value.n >= k && !InCell(q)
    && HasKey(f, q) && !HasKey(g, q) && Spared(f, p, ms, q)
  }

  /** The entry left among the children is left in the node. */
  lemma LeftInside(f: Keyed, g: Keyed, p: Path, s: Seg, ms: seq<Mutation>, q: Path)
    requires f.Node? && f.key == Some(Sub(p, s)) && f.el.Elem? && NoneBelow(f.rest, Sub(p, s)) && !InCell(Sub(p, s))
    requires g.Node? && g.key == Some(Sub(p, s)) && From(ms, Sub(p, s), 0)
    requires ListLeaves(f.kids, g.kids, Sub(p, s), 0, ms, q)
    ensures NodeLeaves(f, g, p, Sub(p, s), ms, q)
  {
    var id, t := Sub(p, s), Branch(Sub(p, s), q).value;
    BranchIsSubtree(id, t, q);
    BelowIsTransitive(id, Sub(id, t), q);
    BelowIsDeeper(Sub(id, t), q);
    FromIsInside(ms, id);
    SparedEntersNode(f, p, s, ms, q);
  }

  /** The entry left in the first node is left in the list. */
  lemma LeftFirst(f: Keyed, g: Keyed, p: Path, s: Seg, ms: seq<Mutation>, ns: seq<Mutation>, q: Path)
    requires NodeLeaves(f, g, p, Sub(p, s), ms, q) && From(ns, p, s.n + 1) && AllFrom(g.rest, p, s.n + 1)
    ensures ListLeaves(f, g, p, s.n, ms + ns, q)
  {
    BranchIsSubtree(p, s, q);
    SparedByOthers(Run(f, p, ms), p, ns, q);
    SparedConcat(f, p, ms, ns, q);
    LaterSiblings(g.rest, p, s);
    NoKeyBelow(g.rest, Sub(p, s), q);
  }

  /** The entry left in a later node is left in the list. */
  lemma LeftLater(f: Keyed, g: Keyed, p: Path, s: Seg, ms: seq<Mutation>, ns: seq<Mutation>, q: Path)
    requires f.Node? && Within(ms, Sub(p, s)) && From(ns, p, s.n + 1) && OneNode(Run(f, p, ms), Sub(p, s), f.rest)
    requires g.Node? && g.key == Some(Sub(p, s)) && AllBelow(g.kids, Sub(p, s))
    requires ListLeaves(f.rest, g.rest, p, s.n + 1, ns, q)
    ensures ListLeaves(f, g, p, s.n, ms + ns, q)
  {
    forall i | 0 <= i < |ms| ensures Branch(p, ms[i].id) == Some(s) { BranchIsSubtree(p, s, ms[i].id); }
    SparedByOthers(f, p, ms, q);
    SparedPassesHead(Run(f, p, ms), p, s, ns, q);
    SparedConcat(f, p, ms, ns, q);
    BranchIsSubtree(p, s, q);
    NoKeyOutside(g.kids, Sub(p, s), q);
  }

  /** A custom span that loses its children to a text: the in-place update purges none of them. */
  lemma SpanLeaves(x: Inline, y: Inline, p: Path, s: Seg, rest: Keyed) returns (q: Path)
    requires NoneBelow(rest, Sub(p, s)) && !InCell(Sub(p, s))
    requires y.Custom? && y.inner.None? && InlineLabel(x) == InlineLabel(y) && x.inner.Some? && x.inner.value.Cons?
    ensures NodeLeaves(RenderInline(x, Sub(p, s), rest), RenderInline(y, Sub(p, s), rest), p, Sub(p, s),
                       [ReplaceInline(Sub(p, s), y)], q)
  {
    var id := Sub(p, s);
    var f, m := RenderInline(x, id, rest), ReplaceInline(id, y);
    q := Sub(id, In(0));
    assert RenderInlines(x.inner.value, id, 0).key == Some(q);
    InlineKidsBelow(x, id);
    NoKeyItself(InlineKids(x, id), id, 0);
    PurgesMiss(f.kids, m);
    NoKeyBelow(rest, id, id);
    PurgesMiss(rest, m);
    BelowIsDeeper(id, q);
    assert q != id && !HasKey(TextKid(OrEmpty(y.text)), q);
    assert Spared(Step(f, p, m), p, [m][1..], q);
  }

  lemma {:induction false} InlineLeaves(x: Inline, y: Inline, p: Path, s: Seg, rest: Keyed) returns (q: Path)
    requires NoneBelow(rest, Sub(p, s)) && !InCell(Sub(p, s))
    requires FaithfulInline(x, y, false) && !FaithfulInline(x, y, true)
    ensures NodeLeaves(RenderInline(x, Sub(p, s), rest), RenderInline(y, Sub(p, s), rest), p, Sub(p, s),
                       DiffInline(x, y, Sub(p, s)), q)
    decreases x, 0
  {
    var id := Sub(p, s);
    var f, g := RenderInline(x, id, rest), RenderInline(y, id, rest);
    if !Descends(x, y) {
      q := SpanLeaves(x, y, p, s, rest);
    } else {
      var xs, ys := if x.Custom? then x.inner.value else x.kids, if y.Custom? then y.inner.value else y.kids;
      q := InlinesLeave(xs, ys, id, 0);
      InlinesCorrect(xs, ys, id, 0);
      LeftInside(f, g, p, s, DiffInlines(xs, ys, id, 0), q);
    }
  }

  lemma {:induction false} InlinesLeave(xs: List<Inline>, ys: List<Inline>, p: Path, k: nat) returns (q: Path)
    requires !InCell(p) && FaithfulInlines(xs, ys, false) && !FaithfulInlines(xs, ys, true)
    ensures xs.Cons? && ys.Cons?
    ensures ListLeaves(RenderInlines(xs, p, k), RenderInlines(ys, p, k), p, k, DiffInlines(xs, ys, p, k), q)
    decreases xs, 1
  {
    var f, g := RenderInlines(xs, p, k), RenderInlines(ys, p, k);
    var s := In(k);
    var ms, ns := DiffInline(xs.head, ys.head, Sub(p, s)), DiffInlines(xs.tail, ys.tail, p, k + 1);
    InlinesApart(xs, p, k);
    InlinesApart(ys, p, k);
    InlinesFrom(ys.tail, p, k + 1);
    InlineCorrect(xs.head, ys.head, p, s, f.rest);
    InlinesCorrect(xs.tail, ys.tail, p, k + 1);
    if !FaithfulInline(xs.head, ys.head, true) {
      q := InlineLeaves(xs.head, ys.head, p, s, f.rest);
      LeftFirst(f, g, p, s, ms, ns, q);
    } else {
      q := InlinesLeave(xs.tail, ys.tail, p, k + 1);
      LeftLater(f, g, p, s, ms, ns, q);
    }
  }

  /** A heading changes its level first, which spares everything. */
  lemma HeadingLeaves(x: Block, y: Block, p: Path, s: Seg, rest: Keyed) returns (q: Path)
    requires NoneBelow(rest, Sub(p, s)) && !InCell(Sub(p, s)) && x.Heading? && y.Heading?
    requires FaithfulInlines(x.kids, y.kids, false) && !FaithfulInlines(x.kids, y.kids, true)
    ensures NodeLeaves(RenderBlock(x, Sub(p, s), rest), RenderBlock(y, Sub(p, s), rest), p, Sub(p, s),
                       DiffBlock(x, y, Sub(p, s)), q)
  {
    var id := Sub(p, s);
    var f, g := RenderBlock(x, id, rest), RenderBlock(y, id, rest);
    var ms, ns := if x.level == y.level then [] else [SetLevel(id, y.level)], DiffInlines(x.kids, y.kids, id, 0);
    q := InlinesLeave(x.kids, y.kids, id, 0);
    InlinesCorrect(x.kids, y.kids, id, 0);
    if ms == [] {
      assert ms + ns == ns;
      LeftInside(f, g, p, s, ns, q);
    } else {
      RunHits(f, p, s, ms[0], false);
      LeftInside(Run(f, p, ms), g, p, s, ns, q);
      assert Spared(f, p, ms, q) by { assert Spared(Step(f, p, ms[0]), p, ms[1..], q); }
      SparedConcat(f, p, ms, ns, q);
    }
  }

  lemma {:induction false} BlockLeaves(x: Block, y: Block, p: Path, s: Seg, rest: Keyed) returns (q: Path)
    requires NoneBelow(rest, Sub(p, s)) && !InCell(Sub(p, s))
    requires FaithfulBlock(x, y, false) && !FaithfulBlock(x, y, true)
    ensures NodeLeaves(RenderBlock(x, Sub(p, s), rest), RenderBlock(y, Sub(p, s), rest), p, Sub(p, s),
                       DiffBlock(x, y, Sub(p, s)), q)
    decreases x, 0
  {
    var id := Sub(p, s);
    var f, g := RenderBlock(x, id, rest), RenderBlock(y, id, rest);
    match x
    case Heading(_, _) => q := HeadingLeaves(x, y, p, s, rest);
    case Paragraph(xs) =>
      q := InlinesLeave(xs, y.kids, id, 0);
      InlinesCorrect(xs, y.kids, id, 0);
      LeftInside(f, g, p, s, DiffInlines(xs, y.kids, id, 0), q);
    case Quote(xs) =>
      q := BlocksLeave(xs, y.blocks, id, 0);
      BlocksCorrect(xs, y.blocks, id, 0);
      LeftInside(f, g, p, s, DiffBlocks(xs, y.blocks, id, 0), q);
    case Itemized(_, xs) =>
      q := ItemsLeave(xs, y.items, id, 0);
      ItemsCorrect(xs, y.items, id, 0);
      LeftInside(f, g, p, s, DiffItems(xs, y.items, id, 0), q);
    case _ => assert false;
  }

  lemma {:induction false} BlocksLeave(xs: List<Block>, ys: List<Block>, p: Path, k: nat) returns (q: Path)
    requires !InCell(p) && FaithfulBlocks(xs, ys, false) && !FaithfulBlocks(xs, ys, true)
    ensures ListLeaves(RenderBlocks(xs, p, k), RenderBlocks(ys, p, k), p, k, DiffBlocks(xs, ys, p, k), q)
    decreases xs, 1
  {
    var f, g := RenderBlocks(xs, p, k), RenderBlocks(ys, p, k);
    var s := BlockSeg(p, k);
    var ms, ns := DiffBlock(xs.head, ys.head, Sub(p, s)), DiffBlocks(xs.tail, ys.tail, p, k + 1);
    BlocksApart(xs, p, k);
    BlocksApart(ys, p, k);
    BlocksFrom(ys.tail, p, k + 1);
    BlockCorrect(xs.head, ys.head, p, s, f.rest);
    BlocksCorrect(xs.tail, ys.tail, p, k + 1);
    if !FaithfulBlock(xs.head, ys.head, true) {
      q := BlockLeaves(xs.head, ys.head, p, s, f.rest);
      LeftFirst(f, g, p, s, ms, ns, q);
    } else {
      q := BlocksLeave(xs.tail, ys.tail, p, k + 1);
      LeftLater(f, g, p, s, ms, ns, q);
    }
  }

  lemma {:induction false} ItemsLeave(xs: List<List<Block>>, ys: List<List<Block>>, p: Path, k: nat) returns (q: Path)
    requires !InCell(p) && FaithfulItems(xs, ys, false) && !FaithfulItems(xs, ys, true)
    ensures ListLeaves(RenderItems(xs, p, k), RenderItems(ys, p, k), p, k, DiffItems(xs, ys, p, k), q)
    decreases xs, 1
  {
    var f, g := RenderItems(xs, p, k), RenderItems(ys, p, k);
    var s := Item(k);
    var id := Sub(p, s);
    var ms, ns := DiffBlocks(xs.head, ys.head, id, 0), DiffItems(xs.tail, ys.tail, p, k + 1);
    ItemsApart(xs, p, k);
    ItemsApart(ys, p, k);
    ItemsFrom(ys.tail, p, k + 1);
    BlocksCorrect(xs.head, ys.head, id, 0);
    RunKids(f, p, s, ms, false);
    ItemsCorrect(xs.tail, ys.tail, p, k + 1);
    if !FaithfulBlocks(xs.head, ys.head, true) {
      q := BlocksLeave(xs.head, ys.head, id, 0);
      LeftInside(f, g, p, s, ms, q);
      LeftFirst(f, g, p, s, ms, ns, q);
    } else {
      q := ItemsLeave(xs.tail, ys.tail, p, k + 1);
      LeftLater(f, g, p, s, ms, ns, q);
    }
  }

  /** A faithful diff that is not exact leaves an entry behind: some node of the old document is gone from the new one,
      and no mutation deletes its id. */
  lemma InexactLeavesEntry(before: List<Block>, after: List<Block>) returns (q: Path)
    requires FaithfulBlocks(before, after, false) && !FaithfulBlocks(before, after, true)
    ensures HasKey(RenderDocument(before), q) && !InCell(q) && !HasKey(RenderDocument(after), q)
    ensures Spared(RenderDocument(before), Root, DiffDocuments(before, after), q)
  {
    q := BlocksLeave(before, after, Root, 0);
  }
}
