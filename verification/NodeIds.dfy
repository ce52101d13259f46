/** Node ids: the dotted path strings that name every registered DOM node. */
module NodeIds {
  import opened Wrappers
  import opened MarkdownAst

  datatype Seg =
    | Top(n: nat)   // t0, a root block
    | In(n: nat)    // i0, an inline child
    | Blk(n: nat)   // b0, a block inside a quote or a list item
    | Item(n: nat)  // li0, a list item
    | Th(n: nat)    // th0, a header cell
    | Tr(n: nat)    // tr0, a table row
    | Td(n: nat)    // td0, a body cell

  datatype Path = Root | Sub(parent: Path, seg: Seg)

  /** Blocks are named "t0" at the root and "b0" below a quote or a list item. */
  function BlockSeg(base: Path, k: nat): Seg { if base.Root? then Top(k) else Blk(k) }

  /** q is p or lies below p */
  predicate InSub(p: Path, q: Path) {
    q == p || (q.Sub? && InSub(p, q.parent))
  }

  function Depth(p: Path): nat {
    if p.Root? then 0 else 1 + Depth(p.parent)
  }

  /** The segment directly below p on the way to q, if q lies below p. */
  function Branch(p: Path, q: Path): Option<Seg> {
    if q.Root? then None else if q.parent == p then Some(q.seg) else Branch(p, q.parent)
  }

  /** Nodes inside a table cell: the backend never addresses them, and a replaced table drops their ids. */
  predicate InCell(p: Path) { p.Sub? && (p.seg.Th? || p.seg.Td? || InCell(p.parent)) }

  lemma {:induction false} BelowIsDeeper(p: Path, q: Path)
    requires InSub(p, q)
    ensures Depth(p) <= Depth(q) && (p != q ==> Depth(p) < Depth(q))
  {
    if p != q { BelowIsDeeper(p, q.parent); }
  }

  lemma {:induction false} BelowIsTransitive(p: Path, q: Path, r: Path)
    requires InSub(p, q) && InSub(q, r)
    ensures InSub(p, r)
  {
    if q != r { BelowIsTransitive(p, q, r.parent); }
  }

  /** A node lies under exactly one child of each of its ancestors. */
  lemma {:induction false} BranchIsSubtree(p: Path, s: Seg, q: Path)
    ensures InSub(Sub(p, s), q) <==> Branch(p, q) == Some(s)
  {
    if q.Sub? {
      BranchIsSubtree(p, s, q.parent);
      if q.parent == p && InSub(Sub(p, s), p) { BelowIsDeeper(Sub(p, s), p); }
    }
  }

  // ---- The strings

  function Digit(d: nat): (c: char)
    requires d < 10
    ensures '0' <= c <= '9'
  {
    '0' + d as char
  }

  function Decimal(n: nat): string {
    if n < 10 then [Digit(n)] else Decimal(n / 10) + [Digit(n % 10)]
  }

  function SegName(s: Seg): string {
    match s
    case Top(_) => "t"
    case In(_) => "i"
    case Blk(_) => "b"
    case Item(_) => "li"
    case Th(_) => "th"
    case Tr(_) => "tr"
    case Td(_) => "td"
  }

  function SegString(s: Seg): string { SegName(s) + Decimal(s.n) }

  /** The id as it travels in mutations and keys the registry. */
  function IdString(p: Path): string {
    match p
    case Root => ""
    case Sub(parent, seg) => if parent.Root? then SegString(seg) else IdString(parent) + "." + SegString(seg)
  }

  /** How ids are spelled: root blocks t, nested ones b, inlines i, list items li, cells th and td, rows tr, each with its
      number, joined by dots. */
  lemma IdsAreSpelled(p: Path, s: Seg)
    requires p.Sub?
    ensures var name := match s
                        case Top(_) => "t" case Blk(_) => "b" case In(_) => "i" case Item(_) => "li"
                        case Th(_) => "th" case Tr(_) => "tr" case Td(_) => "td";
            IdString(Sub(Root, s)) == name + Decimal(s.n) && IdString(Sub(p, s)) == IdString(p) + "." + (name + Decimal(s.n))
    ensures BlockSeg(Root, s.n) == Top(s.n) && BlockSeg(p, s.n) == Blk(s.n)
  {}

  predicate StartsWith(s: string, prefix: string) {
    |prefix| <= |s| && s[..|prefix|] == prefix
  }

  predicate IsDigit(c: char) { '0' <= c <= '9' }

  lemma {:induction false} DecimalDigits(n: nat)
    ensures |Decimal(n)| > 0
    ensures forall i :: 0 <= i < |Decimal(n)| ==> IsDigit(Decimal(n)[i])
  {
    if n >= 10 { DecimalDigits(n / 10); }
  }

  lemma {:induction false} DecimalInjective(m: nat, n: nat)
    requires Decimal(m) == Decimal(n)
    ensures m == n
  {
    DecimalDigits(m / 10);
    DecimalDigits(n / 10);
    var a, b := Decimal(m), Decimal(n);
    assert a[|a| - 1] == b[|b| - 1];
    assert a[|a| - 1] == Digit(m % 10) && b[|b| - 1] == Digit(n % 10);
    if m >= 10 && n >= 10 {
      assert a[..|a| - 1] == Decimal(m / 10) && b[..|b| - 1] == Decimal(n / 10);
      DecimalInjective(m / 10, n / 10);
    }
  }

  predicate NoDot(s: string) {
    forall i :: 0 <= i < |s| ==> s[i] != '.'
  }

  lemma SegStringShape(s: Seg)
    ensures |SegString(s)| > 0 && NoDot(SegString(s))
  {
    DecimalDigits(s.n);
  }

  lemma SegStringInjective(s: Seg, t: Seg)
    requires SegString(s) == SegString(t)
    ensures s == t
  {
    DecimalDigits(s.n);
    DecimalDigits(t.n);
    var a, b := SegString(s), SegString(t);
    assert a[0] == SegName(s)[0] && b[0] == SegName(t)[0];
    assert |SegName(s)| == 2 ==> a[1] == SegName(s)[1];
    assert |SegName(t)| == 2 ==> b[1] == SegName(t)[1];
    assert |SegName(s)| == 1 ==> a[1] == Decimal(s.n)[0];
    assert |SegName(t)| == 1 ==> b[1] == Decimal(t.n)[0];
    assert SegName(s) == SegName(t);
    assert a[|SegName(s)|..] == Decimal(s.n) && b[|SegName(s)|..] == Decimal(t.n);
    DecimalInjective(s.n, t.n);
  }

  lemma LaterDot(a: string, s: string, b: string, t: string)
    requires a + "." + s == b + "." + t
    requires |a| < |b|
    ensures !NoDot(s)
  {
    assert s[|b| - |a| - 1] == (a + "." + s)[|b|] == (b + "." + t)[|b|];
  }

  /** Two ways to split one string at a dot with no dot after it are the same way. */
  lemma LastDotUnique(a: string, s: string, b: string, t: string)
    requires a + "." + s == b + "." + t
    requires NoDot(s) && NoDot(t)
    ensures a == b && s == t
  {
    var w := a + "." + s;
    if |a| < |b| { LaterDot(a, s, b, t); }
    if |b| < |a| { LaterDot(b, t, a, s); }
    assert a == w[..|a|] && b == w[..|b|];
    assert s == w[|a| + 1..] && t == w[|b| + 1..];
  }

  lemma {:induction false} IdStringHasDot(p: Path)
    requires p.Sub? && p.parent.Sub?
    ensures !NoDot(IdString(p))
  {
    assert IdString(p)[|IdString(p.parent)|] == '.';
  }

  /** Distinct nodes have distinct ids. */
  lemma {:induction false} IdStringInjective(p: Path, q: Path)
    requires p.Sub? && q.Sub? && IdString(p) == IdString(q)
    ensures p == q
  {
    SegStringShape(p.seg);
    SegStringShape(q.seg);
    if p.parent.Root? != q.parent.Root? {
      if p.parent.Root? { IdStringHasDot(q); } else { IdStringHasDot(p); }
    } else if p.parent.Sub? {
      LastDotUnique(IdString(p.parent), SegString(p.seg), IdString(q.parent), SegString(q.seg));
      IdStringInjective(p.parent, q.parent);
      SegStringInjective(p.seg, q.seg);
    } else {
      SegStringInjective(p.seg, q.seg);
    }
  }

  lemma DottedPrefix(a: string, b: string)
    ensures StartsWith(b, a + ".") <==> |a| < |b| && b[..|a|] == a && b[|a|] == '.'
  {
    if StartsWith(b, a + ".") {
      assert b[|a|] == b[..|a| + 1][|a|] == (a + ".")[|a|];
      assert b[..|a|] == b[..|a| + 1][..|a|] == a;
    }
    if |a| < |b| && b[..|a|] == a && b[|a|] == '.' {
      assert b[..|a| + 1] == b[..|a|] + [b[|a|]];
    }
  }

  /** The prefix test of the registry purge selects exactly the nodes strictly below p:
      purging t1 never touches t10. */
  lemma {:induction false} PrefixTestIsSubtree(p: Path, q: Path)
    requires p.Sub? && q.Sub?
    ensures StartsWith(IdString(q), IdString(p) + ".") <==> InSub(p, q) && q != p
  {
    SegStringShape(q.seg);
    var a, b := IdString(p), IdString(q);
    DottedPrefix(a, b);
    if q.parent.Root? {
      assert !InSub(p, q.parent);
    } else {
      var c, s := IdString(q.parent), SegString(q.seg);
      PrefixTestIsSubtree(p, q.parent);
      DottedPrefix(a, c);
      assert b[|c|] == '.' && b[..|c|] == c;
      assert forall i :: |c| < i < |b| ==> b[i] == s[i - |c| - 1];
      if |a| < |c| {
        assert b[..|a|] == c[..|a|] && b[|a|] == c[|a|];
      } else if |a| == |c| && a == c {
        IdStringInjective(p, q.parent);
      }
      if InSub(p, q.parent) { BelowIsDeeper(p, q.parent); }
    }
  }
}
