/** The frontend executor: it applies mutations to a live DOM tree through a registry of its nodes. */
module AstExecutor {
  import opened Wrappers
  import opened MarkdownAst
  import opened NodeIds
  import opened DomTree
  import opened AstDiff
  import opened AstPatch
  import opened AstStale
  import DomContent

  /** Live nodes are told apart by their identity. */
  type Dom = Forest<nat>

  function Ids(f: Dom): set<nat> {
    if f.Empty? then {} else {f.key} + Ids(f.kids) + Ids(f.rest)
  }

  predicate Unique(f: Dom) {
    f.Empty? ||
    (f.key !in Ids(f.kids) + Ids(f.rest) && Ids(f.kids) !! Ids(f.rest) && Unique(f.kids) && Unique(f.rest))
  }

  function Find(f: Dom, n: nat): Option<Dom> {
    if f.Empty? then None
    else if f.key == n then Some(f)
    else if n in Ids(f.kids) then Find(f.kids, n)
    else Find(f.rest, n)
  }

  /** What happens to one node: a new look, a new last child, or something put in its place. */
  datatype Change = Relabel(node: nat, look: Label) | AddKid(kid: Dom) | PutNode(piece: Dom)

  function Changed(f: Dom, c: Change): Dom
    requires f.Node?
  {
    match c
    case Relabel(n, look) => Node(n, look, f.kids, Empty)
    case AddKid(kid) => Node(f.key, f.el, Graft(f.kids, kid), Empty)
    case PutNode(piece) => piece
  }

  function Alter(f: Dom, n: nat, c: Change): Dom {
    match f
    case Empty => Empty
    case Node(k, l, kids, rest) =>
      if k == n then Graft(Changed(f, c), Alter(rest, n, c))
      else Node(k, l, Alter(kids, n, c), Alter(rest, n, c))
  }

  // ---- The registry

  type Registry = map<Path, nat>

  ghost predicate Unnamed(n: nat, reg: Registry) { forall q :: q in reg ==> reg[q] != n }

  ghost predicate Injective(reg: Registry) {
    forall q, r :: q in reg && r in reg && reg[q] == reg[r] ==> q == r
  }

  /** The registry names node n by key, and by nothing else. Ids inside table cells are optional. */
  ghost predicate Names(n: nat, key: Option<Path>, reg: Registry) {
    match key
    case None => Unnamed(n, reg)
    case Some(p) => (p in reg && reg[p] == n) || (InCell(p) && p !in reg && Unnamed(n, reg))
  }

  /** The live tree f looks like a, and the registry names exactly the nodes that a names. */
  ghost predicate Mirror(f: Dom, a: Keyed, reg: Registry) {
    if f.Empty? || a.Empty? then f.Empty? && a.Empty?
    else
      && f.el == a.el
      && Names(f.key, a.key, reg)
      && Mirror(f.kids, a.kids, reg)
      && Mirror(f.rest, a.rest, reg)
  }

  lemma {:induction false} MirrorAgree(f: Dom, a: Keyed, reg: Registry, reg': Registry)
    requires Mirror(f, a, reg)
    requires forall q :: HasKey(a, q) ==> (q in reg <==> q in reg') && (q in reg ==> reg'[q] == reg[q])
    requires forall n :: n in Ids(f) && Unnamed(n, reg) ==> Unnamed(n, reg')
    ensures Mirror(f, a, reg')
  {
    if f.Node? {
      if a.key.Some? { assert HasKey(a, a.key.value); }
      MirrorAgree(f.kids, a.kids, reg, reg');
      MirrorAgree(f.rest, a.rest, reg, reg');
    }
  }

  lemma {:induction false} MirrorGraft(f: Dom, a: Keyed, g: Dom, b: Keyed, reg: Registry)
    requires Mirror(f, a, reg) && Mirror(g, b, reg)
    ensures Mirror(Graft(f, g), Graft(a, b), reg)
  {
    if f.Node? { MirrorGraft(f.rest, a.rest, g, b, reg); }
  }

  lemma {:induction false} MirrorPieces(f: Dom, a: Keyed, reg: Registry)
    requires Mirror(f, a, reg)
    ensures DomContent.Pieces(f) == DomContent.Pieces(a)
  {
    if f.Node? {
      MirrorPieces(f.kids, a.kids, reg);
      MirrorPieces(f.rest, a.rest, reg);
    }
  }

  /** A node is in the live tree exactly when its id is in the tree it mirrors. */
  lemma {:induction false} MirrorKey(f: Dom, a: Keyed, reg: Registry, p: Path)
    requires Mirror(f, a, reg) && Injective(reg) && p in reg
    ensures reg[p] in Ids(f) <==> HasKey(a, p)
  {
    if f.Node? {
      MirrorKey(f.kids, a.kids, reg, p);
      MirrorKey(f.rest, a.rest, reg, p);
      assert f.key == reg[p] <==> a.key == Some(p);
    }
  }

  function KeyedAt(a: Keyed, p: Path): (r: Keyed)
    requires HasKey(a, p)
    ensures r.Node? && r.key == Some(p)
  {
    if a.key == Some(p) then a else if HasKey(a.kids, p) then KeyedAt(a.kids, p) else KeyedAt(a.rest, p)
  }

  lemma {:induction false} FindMirrors(f: Dom, a: Keyed, reg: Registry, p: Path)
    requires Mirror(f, a, reg) && Injective(reg) && p in reg && reg[p] in Ids(f)
    ensures HasKey(a, p) && Find(f, reg[p]).Some?
    ensures var h := Find(f, reg[p]).value;
            && h.Node? && h.key == reg[p] && h.el == KeyedAt(a, p).el && Mirror(h.kids, KeyedAt(a, p).kids, reg)
            && Ids(h.kids) <= Ids(f) && (Unique(f) ==> h.key !in Ids(h.kids) && Unique(h.kids))
    ensures Suited(a, p, KeyedAt(a, p).kids)
  {
    MirrorKey(f, a, reg, p);
    MirrorKey(f.kids, a.kids, reg, p);
    assert f.key == reg[p] <==> a.key == Some(p);
    if f.key != reg[p] {
      if reg[p] in Ids(f.kids) { FindMirrors(f.kids, a.kids, reg, p); } else { FindMirrors(f.rest, a.rest, reg, p); }
    }
  }

  /** What holds of every subtree of a holds of kids. */
  ghost predicate Suited(a: Keyed, p: Path, kids: Keyed) {
    && (forall q :: NoneBelow(a, q) ==> NoneBelow(kids, q))
    && (forall q :: HasKey(kids, q) ==> HasKey(a, q))
  }

  /** reg' differs from reg only below id, and names no node below the bound anew. */
  ghost predicate SameOutside(reg: Registry, reg': Registry, id: Path, bound: nat) {
    && (forall q :: !InSub(id, q) ==> (q in reg <==> q in reg') && (q in reg ==> reg'[q] == reg[q]))
    && (forall q :: q in reg' ==> reg'[q] >= bound || (q in reg && reg'[q] == reg[q]))
  }

  lemma HitThenRest(l: Label, kids: Keyed, rest: Keyed, m: Mutation)
    ensures Hit(l, kids, rest, m) == Graft(Hit(l, kids, Empty, m), rest)
  {}

  lemma AlterHere(f: Dom, a: Keyed, reg': Registry, c: Change, m: Mutation)
    requires f.Node? && a.Node? && a.key == Some(Target(m))
    requires Mirror(Changed(f, c), Hit(a.el, a.kids, Empty, m), reg') && Mirror(Alter(f.rest, f.key, c), Act(a.rest, m), reg')
    ensures Mirror(Alter(f, f.key, c), Act(a, m), reg')
  {
    HitThenRest(a.el, a.kids, Act(a.rest, m), m);
    MirrorGraft(Changed(f, c), Hit(a.el, a.kids, Empty, m), Alter(f.rest, f.key, c), Act(a.rest, m), reg');
  }

  lemma AlterElsewhere(f: Dom, a: Keyed, reg': Registry, n: nat, c: Change, m: Mutation)
    requires f.Node? && a.Node? && f.key != n && a.key != Some(Target(m)) && f.el == a.el && Names(f.key, a.key, reg')
    requires Mirror(Alter(f.kids, n, c), Act(a.kids, m), reg') && Mirror(Alter(f.rest, n, c), Act(a.rest, m), reg')
    ensures Mirror(Alter(f, n, c), Act(a, m), reg')
  {}

  /** One changed node: if the change mirrors the mutation there, the live tree mirrors it everywhere. */
  lemma {:induction false} AlterMirrors(f: Dom, a: Keyed, reg: Registry, reg': Registry, bound: nat,
                                        n: nat, c: Change, m: Mutation)
    requires Mirror(f, a, reg) && Injective(reg) && Unique(f)
    requires forall i :: i in Ids(f) ==> i < bound
    requires Target(m) in reg && reg[Target(m)] == n
    requires SameOutside(reg, reg', m.id, bound)
    requires if m.IsAdd() then NoneBelow(a, m.id) else Apart(a, m.id)
    requires n in Ids(f) ==>
               HasKey(a, Target(m)) && Find(f, n).Some? && Find(f, n).value.Node? &&
               Mirror(Changed(Find(f, n).value, c),
                      Hit(KeyedAt(a, Target(m)).el, KeyedAt(a, Target(m)).kids, Empty, m), reg')
    ensures Mirror(Alter(f, n, c), Act(a, m), reg')
  {
    if f.Node? {
      var t := Target(m);
      MirrorKey(f.kids, a.kids, reg, t);
      MirrorKey(f.rest, a.rest, reg, t);
      assert f.key == n <==> a.key == Some(t);
      assert Ids(f.rest) <= Ids(f) && Ids(f.kids) <= Ids(f);
      AlterMirrors(f.rest, a.rest, reg, reg', bound, n, c, m);
      if f.key == n {
        AlterHere(f, a, reg', c, m);
      } else {
        AlterMirrors(f.kids, a.kids, reg, reg', bound, n, c, m);
        AlterElsewhere(f, a, reg', n, c, m);
      }
    }
  }

  // ---- Node identities stay distinct

  lemma {:induction false} GraftIds(f: Dom, g: Dom)
    ensures Ids(Graft(f, g)) == Ids(f) + Ids(g)
    ensures Unique(f) && Unique(g) && Ids(f) !! Ids(g) ==> Unique(Graft(f, g))
  {
    if f.Node? { GraftIds(f.rest, g); }
  }

  function ChangeIds(c: Change): set<nat> {
    match c
    case Relabel(n, _) => {n}
    case AddKid(kid) => Ids(kid)
    case PutNode(piece) => Ids(piece)
  }

  /** The nodes that a change brings in are new, except the changed node itself. */
  predicate Novel(f: Dom, n: nat, c: Change) {
    && (forall i :: i in ChangeIds(c) && i in Ids(f) ==> i == n)
    && match c
       case Relabel(_, _) => true
       case AddKid(kid) => Unique(kid) && n !in Ids(kid)
       case PutNode(piece) => Unique(piece)
  }

  lemma {:induction false} AlterUnique(f: Dom, n: nat, c: Change)
    requires Unique(f) && Novel(f, n, c)
    ensures Unique(Alter(f, n, c)) && Ids(Alter(f, n, c)) <= Ids(f) + ChangeIds(c)
    ensures n !in Ids(f) ==> Alter(f, n, c) == f
  {
    if f.Node? {
      assert Ids(f.rest) <= Ids(f) && Ids(f.kids) <= Ids(f);
      AlterUnique(f.kids, n, c);
      AlterUnique(f.rest, n, c);
      if f.key == n {
        ChangedUnique(f, c);
        GraftIds(Changed(f, c), f.rest);
      } else {
        var kids', rest' := Alter(f.kids, n, c), Alter(f.rest, n, c);
        assert f.key !in ChangeIds(c);
        assert Ids(kids') !! Ids(rest') by {
          if n in Ids(f.kids) { assert rest' == f.rest; } else { assert kids' == f.kids; }
        }
      }
    }
  }

  lemma ChangedUnique(f: Dom, c: Change)
    requires f.Node? && Unique(f) && Novel(f, f.key, c)
    ensures Unique(Changed(f, c)) && Ids(Changed(f, c)) <= {f.key} + Ids(f.kids) + ChangeIds(c)
    ensures Ids(Changed(f, c)) !! Ids(f.rest)
  {
    if c.AddKid? { GraftIds(f.kids, c.kid); }
    forall i | i in Ids(Changed(f, c)) ensures i !in Ids(f.rest) {
      if i in ChangeIds(c) && i in Ids(f) { assert i == f.key; }
    }
  }

  // ---- Stale entries

  /** Every registry entry names a node of the live tree. */
  ghost predicate NoStale(reg: Registry, a: Keyed) { forall q :: q in reg ==> HasKey(a, q) }

  /** The entries that the mutation does not delete are still there. */
  ghost predicate Retained(reg: Registry, reg': Registry, a: Keyed, m: Mutation) {
    forall q :: q in reg && !Forgets(a, m, q) ==> q in reg'
  }

  /** The registry names, outside table cells, exactly what the mutation leaves registered. */
  ghost predicate Recorded(reg: Registry, reg': Registry, a: Keyed, m: Mutation) {
    forall q :: !InCell(q) ==> (q in reg' <==> Lists(a, m, q, q in reg))
  }

  /** Every entry was there and is not purged, or names what the mutation puts at its target. */
  ghost predicate Accounted(reg: Registry, reg': Registry, k: Keyed, m: Mutation)
    requires k.Node?
  {
    forall q :: q in reg' ==> (q in reg && (Purges(k.el, m) ==> !InSub(m.id, q))) || HasKey(Hit(k.el, k.kids, Empty, m), q)
  }

  lemma {:induction false} PurgesAlike(a: Keyed, m: Mutation, l: Label)
    requires Alike(a, m.id, l) && PurgesIn(a, m)
    ensures Purges(l, m)
  {
    if !(a.key == Some(m.id) && Purges(a.el, m)) {
      if PurgesIn(a.kids, m) { PurgesAlike(a.kids, m, l); } else { PurgesAlike(a.rest, m, l); }
    }
  }

  lemma {:induction false} PurgesThere(a: Keyed, m: Mutation)
    requires HasKey(a, m.id) && Purges(KeyedAt(a, m.id).el, m)
    ensures PurgesIn(a, m)
  {
    if a.key != Some(m.id) {
      if HasKey(a.kids, m.id) { PurgesThere(a.kids, m); } else { PurgesThere(a.rest, m); }
    }
  }

  lemma RetainedOutside(reg: Registry, reg': Registry, a: Keyed, m: Mutation)
    requires HasKey(a, m.id) && Purges(KeyedAt(a, m.id).el, m)
    requires forall q :: q in reg && !InSub(m.id, q) ==> q in reg'
    ensures Retained(reg, reg', a, m)
  {
    PurgesThere(a, m);
  }

  lemma {:induction false} NoKeysHasNone(f: Keyed, q: Path)
    requires NoKeys(f)
    ensures !HasKey(f, q)
  {
    if f.Node? { NoKeysHasNone(f.kids, q); NoKeysHasNone(f.rest, q); }
  }

  lemma {:induction false} GraftKeys(f: Keyed, g: Keyed, q: Path)
    ensures HasKey(Graft(f, g), q) <==> HasKey(f, q) || HasKey(g, q)
  {
    if f.Node? { GraftKeys(f.rest, g, q); }
  }

  lemma GraftClean(a: Keyed, g: Keyed, reg: Registry, reg': Registry)
    requires forall q :: q in reg' ==> q in reg || HasKey(g, q)
    ensures NoStale(reg, a) ==> NoStale(reg', Graft(a, g))
  {
    if NoStale(reg, a) {
      forall q | q in reg' ensures HasKey(Graft(a, g), q) { GraftKeys(a, g, q); }
    }
  }

  lemma HitKeys(l: Label, kids: Keyed, rest: Keyed, m: Mutation, q: Path)
    requires CleanHit(l, kids, m)
    requires q == Target(m) || HasKey(kids, q) || HasKey(rest, q)
    requires Purges(l, m) ==> !InSub(m.id, q)
    ensures HasKey(Hit(l, kids, rest, m), q)
  {
    HitThenRest(l, kids, rest, m);
    GraftKeys(Hit(l, kids, Empty, m), rest, q);
    if HasKey(kids, q) {
      if m.IsAdd() {
        GraftKeys(kids, Added(m), q);
      } else if Purges(l, m) {
        NoKeyOutside(kids, m.id, q);
      } else if NoKeys(kids) {
        NoKeysHasNone(kids, q);
      }
    }
  }

  lemma {:induction false} KeysKept(a: Keyed, m: Mutation, l: Label, q: Path)
    requires Clean(a, m) && HasKey(a, q)
    requires Alike(a, Target(m), l)
    requires Purges(l, m) ==> !InSub(m.id, q)
    ensures HasKey(Act(a, m), q)
  {
    if HasKey(a.rest, q) { KeysKept(a.rest, m, l, q); }
    if a.key == Some(Target(m)) {
      HitKeys(a.el, a.kids, Act(a.rest, m), m, q);
    } else if HasKey(a.kids, q) {
      KeysKept(a.kids, m, l, q);
    }
  }

  /** All nodes registered under p look alike (there is at most one). */
  predicate Alike(a: Keyed, p: Path, l: Label) {
    a.Empty? || ((a.key == Some(p) ==> a.el == l) && Alike(a.kids, p, l) && Alike(a.rest, p, l))
  }

  lemma {:induction false} NoKeyAlike(a: Keyed, p: Path, l: Label)
    requires !HasKey(a, p)
    ensures Alike(a, p, l)
  {
    if a.Node? { NoKeyAlike(a.kids, p, l); NoKeyAlike(a.rest, p, l); }
  }

  lemma {:induction false} MirrorAlike(f: Dom, a: Keyed, reg: Registry, p: Path)
    requires Mirror(f, a, reg) && Injective(reg) && p in reg && Unique(f) && HasKey(a, p)
    ensures Alike(a, p, KeyedAt(a, p).el)
  {
    MirrorKey(f, a, reg, p);
    MirrorKey(f.kids, a.kids, reg, p);
    MirrorKey(f.rest, a.rest, reg, p);
    assert f.key == reg[p] <==> a.key == Some(p);
    if HasKey(a.kids, p) { MirrorAlike(f.kids, a.kids, reg, p); } else { NoKeyAlike(a.kids, p, KeyedAt(a, p).el); }
    if HasKey(a.rest, p) { MirrorAlike(f.rest, a.rest, reg, p); } else { NoKeyAlike(a.rest, p, KeyedAt(a, p).el); }
  }

  /** What the mutation puts at its target is in the new tree. */
  lemma {:induction false} NewKeys(a: Keyed, m: Mutation, q: Path)
    requires HasKey(a, Target(m))
    requires HasKey(Hit(KeyedAt(a, Target(m)).el, KeyedAt(a, Target(m)).kids, Empty, m), q)
    ensures HasKey(Act(a, m), q)
  {
    if a.key == Some(Target(m)) {
      HitThenRest(a.el, a.kids, Act(a.rest, m), m);
      GraftKeys(Hit(a.el, a.kids, Empty, m), Act(a.rest, m), q);
    } else if HasKey(a.kids, Target(m)) {
      NewKeys(a.kids, m, q);
    } else {
      NewKeys(a.rest, m, q);
    }
  }

  // ---- The executor of one message

  lemma AddedDistinct(m: Mutation)
    requires m.IsAdd()
    ensures Distinct(Added(m)) && AllBelow(Added(m), m.id)
  {
    match m
    case Add(id, _, b) => RenderedDistinct(id, BlockLabel(b), BlockKids(b, id), b);
    case AddInline(id, _, x) => InlineKidsBelow(x, id); SingleDistinct(id, InlineLabel(x), InlineKids(x, id));
    case AddItem(id, _, blocks) => BlocksFrom(blocks, id, 0); SingleDistinct(id, LiLabel, RenderBlocks(blocks, id, 0));
  }

  lemma RenderedDistinct(id: Path, l: Label, kids: Keyed, b: Block)
    requires kids == BlockKids(b, id)
    ensures Distinct(Node(Some(id), l, kids, Empty)) && AllBelow(Node(Some(id), l, kids, Empty), id)
  {
    BlockKidsBelow(b, id);
    SingleDistinct(id, l, kids);
  }

  lemma SingleDistinct(id: Path, l: Label, kids: Keyed)
    requires AllFrom(kids, id, 0) && Distinct(kids)
    ensures Distinct(Node(Some(id), l, kids, Empty)) && AllBelow(Node(Some(id), l, kids, Empty), id)
  {
    NoKeyItself(kids, id, 0);
    FromIsBelow(kids, id, 0);
    DisjointEmpty(kids);
  }

  lemma {:induction false} UnkeyedDistinct(f: Keyed)
    ensures Distinct(Unkeyed(f)) && forall q :: !HasKey(Unkeyed(f), q)
    ensures Disjoint(Unkeyed(f), Empty)
  {
    if f.Node? {
      UnkeyedDistinct(f.kids);
      UnkeyedDistinct(f.rest);
      UnkeyedDisjoint(f.kids, Unkeyed(f.rest));
      DisjointEmpty(Unkeyed(f));
    }
  }

  lemma {:induction false} UnkeyedDisjoint(f: Keyed, g: Keyed)
    ensures Disjoint(Unkeyed(f), g)
  {
    if f.Node? { UnkeyedDisjoint(f.kids, g); UnkeyedDisjoint(f.rest, g); }
  }

  /** Ids inside table cells may stay unregistered. */
  lemma {:induction false} CellsMayBeUnnamed(f: Dom, a: Keyed, reg: Registry)
    requires Mirror(f, Unkeyed(a), reg) && AllInCells(a)
    requires forall q :: HasKey(a, q) ==> q !in reg
    ensures Mirror(f, a, reg)
  {
    if f.Node? {
      if a.key.Some? { assert HasKey(a, a.key.value); }
      CellsMayBeUnnamed(f.kids, a.kids, reg);
      CellsMayBeUnnamed(f.rest, a.rest, reg);
    }
  }

  /** Every id names one node, and all nodes are numbered below next. */
  ghost predicate Named(reg: Registry, next: nat) {
    Injective(reg) && forall q :: q in reg ==> q.Sub? && reg[q] < next
  }

  /** reg' is reg with the ids of a renamed to nodes from lo on. */
  ghost predicate Extends(reg: Registry, reg': Registry, a: Keyed, lo: nat) {
    && (forall q :: q in reg' <==> q in reg || HasKey(a, q))
    && (forall q :: q in reg && !HasKey(a, q) ==> reg'[q] == reg[q])
    && (forall q :: HasKey(a, q) ==> reg'[q] >= lo)
  }

  /** f is a live copy of a, made of the nodes lo to hi. */
  ghost predicate Mounted(f: Dom, a: Keyed, reg: Registry, lo: nat, hi: nat) {
    Mirror(f, a, reg) && Unique(f) && forall n :: n in Ids(f) ==> lo <= n < hi
  }

  /** Naming later nodes under other ids changes nothing for f. */
  lemma MirrorGrow(f: Dom, a: Keyed, reg: Registry, reg': Registry, bound: nat)
    requires Mirror(f, a, reg) && forall n :: n in Ids(f) ==> n < bound
    requires forall q :: q in reg ==> q in reg' && (reg'[q] == reg[q] || !HasKey(a, q))
    requires forall q :: HasKey(a, q) && q in reg' ==> q in reg
    requires forall q :: q in reg' ==> reg'[q] >= bound || (q in reg && reg'[q] == reg[q])
    ensures Mirror(f, a, reg')
  {
    MirrorAgree(f, a, reg, reg');
  }

  /** Registering one more node. */
  lemma Register(reg: Registry, key: Option<Path>, n: nat)
    requires Named(reg, n) && key != Some(Root)
    ensures Named(if key.Some? then reg[key.value := n] else reg, n + 1)
  {}

  lemma ExtendsNode(reg0: Registry, reg1: Registry, reg2: Registry, reg3: Registry, a: Keyed, n0: nat, n1: nat, n2: nat)
    requires a.Node? && Distinct(a) && n0 <= n1 <= n2
    requires Extends(reg0, reg1, a.kids, n0) && Extends(reg1, reg2, a.rest, n1)
    requires reg3 == if a.key.Some? then reg2[a.key.value := n2] else reg2
    ensures Extends(reg0, reg3, a, n0)
  {
    DisjointKeys(a.kids, a.rest);
    forall q ensures HasKey(a, q) <==> a.key == Some(q) || HasKey(a.kids, q) || HasKey(a.rest, q) {}
  }

  lemma KidsSurvive(reg1: Registry, reg2: Registry, reg3: Registry, a: Keyed, f: Dom, n1: nat, n2: nat)
    requires a.Node? && Distinct(a) && n1 <= n2
    requires Mirror(f, a.kids, reg1) && forall n :: n in Ids(f) ==> n < n1
    requires Extends(reg1, reg2, a.rest, n1) && reg3 == if a.key.Some? then reg2[a.key.value := n2] else reg2
    ensures Mirror(f, a.kids, reg3)
  {
    DisjointKeys(a.kids, a.rest);
    MirrorGrow(f, a.kids, reg1, reg2, n1);
    MirrorGrow(f, a.kids, reg2, reg3, n2);
  }

  lemma NodeMounted(reg0: Registry, reg1: Registry, reg2: Registry, reg3: Registry, a: Keyed, fk: Dom, fr: Dom,
                    n0: nat, n1: nat, n2: nat)
    requires a.Node? && Distinct(a) && !HasKey(a, Root) && n0 <= n1 <= n2
    requires Named(reg2, n2)
    requires Extends(reg0, reg1, a.kids, n0) && Mounted(fk, a.kids, reg1, n0, n1)
    requires Extends(reg1, reg2, a.rest, n1) && Mounted(fr, a.rest, reg2, n1, n2)
    requires reg3 == if a.key.Some? then reg2[a.key.value := n2] else reg2
    ensures Named(reg3, n2 + 1) && Extends(reg0, reg3, a, n0)
    ensures Mounted(Node(n2, a.el, fk, fr), a, reg3, n0, n2 + 1)
  {
    var f := Node(n2, a.el, fk, fr);
    assert Named(reg3, n2 + 1) by { Register(reg2, a.key, n2); }
    assert Extends(reg0, reg3, a, n0) by { ExtendsNode(reg0, reg1, reg2, reg3, a, n0, n1, n2); }
    assert Mirror(f, a, reg3) by {
      KidsSurvive(reg1, reg2, reg3, a, fk, n1, n2);
      RestSurvives(reg2, reg3, a, fr, n2);
      assert Names(n2, a.key, reg3);
    }
    assert Unique(f) by { MountedUnique(fk, fr, n0, n1, n2, a.el); }
  }

  lemma RestSurvives(reg2: Registry, reg3: Registry, a: Keyed, f: Dom, n2: nat)
    requires a.Node? && Distinct(a)
    requires Mirror(f, a.rest, reg2) && forall n :: n in Ids(f) ==> n < n2
    requires reg3 == if a.key.Some? then reg2[a.key.value := n2] else reg2
    ensures Mirror(f, a.rest, reg3)
  {
    MirrorGrow(f, a.rest, reg2, reg3, n2);
  }

  lemma MountedUnique(fk: Dom, fr: Dom, n0: nat, n1: nat, n2: nat, l: Label)
    requires n0 <= n1 <= n2 && Unique(fk) && Unique(fr)
    requires forall n :: n in Ids(fk) ==> n0 <= n < n1
    requires forall n :: n in Ids(fr) ==> n1 <= n < n2
    ensures Unique(Node(n2, l, fk, fr)) && forall n :: n in Ids(Node(n2, l, fk, fr)) ==> n0 <= n < n2 + 1
  {}

  /** The registry without the ids below prefix. */
  function Purged(reg: Registry, prefix: Path, includeSelf: bool): Registry {
    map q | q in reg && !(InSub(prefix, q) && (includeSelf || q != prefix)) :: reg[q]
  }

  /** The keys left to look at are still there. */
  function Purging(reg: Registry, keys: set<Path>, prefix: Path, includeSelf: bool): Registry {
    map q | q in reg && (q in keys || !(InSub(prefix, q) && (includeSelf || q != prefix))) :: reg[q]
  }

  lemma PurgedFurther(reg: Registry, keys: set<Path>, key: Path, prefix: Path, includeSelf: bool)
    requires key in keys && keys <= reg.Keys
    ensures var r := Purging(reg, keys, prefix, includeSelf);
            Purging(reg, keys - {key}, prefix, includeSelf)
            == if InSub(prefix, key) && (includeSelf || key != prefix) then map q | q in r && q != key :: r[q] else r
  {}

  /** Outside table cells every node of the mirrored tree is registered. */
  lemma {:induction false} MirrorNames(f: Dom, a: Keyed, reg: Registry, p: Path)
    requires Mirror(f, a, reg) && HasKey(a, p) && !InCell(p)
    ensures p in reg
  {
    if a.key != Some(p) {
      if HasKey(a.kids, p) { MirrorNames(f.kids, a.kids, reg, p); } else { MirrorNames(f.rest, a.rest, reg, p); }
    }
  }

  lemma {:induction false} TargetSuits(a: Keyed, m: Mutation)
    requires HasTarget(a, m)
    ensures HasKey(a, Target(m))
    ensures forall l :: Alike(a, Target(m), l) ==> Suits(l, m)
  {
    if !(a.key == Some(Target(m)) && Suits(a.el, m)) {
      if HasTarget(a.kids, m) { TargetSuits(a.kids, m); } else { TargetSuits(a.rest, m); }
    }
  }

  /** The node that a fitting mutation works on. */
  ghost predicate At(f: Dom, a: Keyed, reg: Registry, m: Mutation, h: Dom, k: Keyed) {
    && Target(m) in reg && HasKey(a, Target(m)) && k == KeyedAt(a, Target(m)) && h.Node?
    && h.key == reg[Target(m)] && h.key in Ids(f) && Find(f, h.key) == Some(h)
    && h.el == k.el && Suits(h.el, m) && Mirror(h.kids, k.kids, reg)
    && Unique(h.kids) && h.key !in Ids(h.kids) && Ids(h.kids) <= Ids(f)
    && Alike(a, Target(m), k.el) && Suited(a, Target(m), k.kids)
  }

  lemma Locate(f: Dom, a: Keyed, reg: Registry, next: nat, m: Mutation, exact: bool)
    requires Mirror(f, a, reg) && Unique(f) && Named(reg, next)
    requires Fits(a, Root, m, exact) && !(m.IsAdd() && m.parent == Root)
    ensures Target(m) in reg && HasKey(a, Target(m)) && Find(f, reg[Target(m)]).Some?
    ensures At(f, a, reg, m, Find(f, reg[Target(m)]).value, KeyedAt(a, Target(m)))
  {
    TargetSuits(a, m);
    MirrorNames(f, a, reg, Target(m));
    MirrorKey(f, a, reg, Target(m));
    FindMirrors(f, a, reg, Target(m));
    MirrorAlike(f, a, reg, Target(m));
  }

  /** The node is registered, but the mutation cannot be applied to it. */
  predicate WrongKind(l: Label, m: Mutation) { (m.AppendText? && !l.TextNode?) || (m.SetLevel? && !l.Elem?) }

  /** After the mutations exactly those ids are registered, outside table cells, that they leave registered. */
  ghost predicate Booking(a: Keyed, ms: seq<Mutation>, reg: Registry, reg': Registry) {
    forall q :: !InCell(q) ==> (q in reg' <==> Listed(a, ms, q, q in reg))
  }

  /** What is left of the run, from here, leaves the ids registered that the whole run does. */
  ghost predicate Underway(a: Keyed, ms: seq<Mutation>, reg: Registry, b: Keyed, rest: seq<Mutation>, reg': Registry) {
    forall q :: !InCell(q) ==> (Listed(a, ms, q, q in reg) <==> Listed(b, rest, q, q in reg'))
  }

  lemma UnderwayFurther(a: Keyed, ms: seq<Mutation>, reg: Registry, b: Keyed, rest: seq<Mutation>, reg1: Registry, reg2: Registry)
    requires rest != [] && Underway(a, ms, reg, b, rest, reg1) && Recorded(reg1, reg2, b, rest[0])
    ensures Underway(a, ms, reg, Step(b, Root, rest[0]), rest[1..], reg2)
  {}

  /** The mutation fails after the run: its target is not registered then, or is of the wrong kind. */
  ghost predicate FailsAfter(a: Keyed, ms: seq<Mutation>, m: Mutation, reg: Registry) {
    var t, b := Target(m), Run(a, Root, ms);
    && !(m.IsAdd() && m.parent == Root)
    && ((!InCell(t) && !Listed(a, ms, t, t in reg)) || (HasKey(b, t) && WrongKind(KeyedAt(b, t).el, m)))
  }

  /** In a tree whose registry names its nodes and no others, the mutation fails. */
  ghost predicate FailsIn(a: Keyed, m: Mutation) {
    && !(m.IsAdd() && m.parent == Root)
    && (!HasKey(a, Target(m)) || WrongKind(KeyedAt(a, Target(m)).el, m))
  }

  /** The registered target, whether the mutation fits it or is of another kind. */
  lemma TargetIs(f: Dom, a: Keyed, reg: Registry, next: nat, m: Mutation, exact: bool)
    requires Mirror(f, a, reg) && Unique(f) && Named(reg, next) && Target(m) in reg && !(m.IsAdd() && m.parent == Root)
    requires Fits(a, Root, m, exact) || (HasKey(a, Target(m)) && WrongKind(KeyedAt(a, Target(m)).el, m))
    ensures HasKey(a, Target(m)) && Find(f, reg[Target(m)]).Some?
    ensures var h, k := Find(f, reg[Target(m)]).value, KeyedAt(a, Target(m));
            && h.Node? && h.el == k.el
            && (WrongKind(h.el, m) <==> !Fits(a, Root, m, exact))
            && (!WrongKind(h.el, m) ==> At(f, a, reg, m, h, k))
  {
    if Fits(a, Root, m, exact) {
      Locate(f, a, reg, next, m, exact);
    } else {
      MirrorKey(f, a, reg, Target(m));
      FindMirrors(f, a, reg, Target(m));
    }
  }

  /** A change that mirrors the mutation at its target carries the whole tree along. */
  lemma Commit(f: Dom, a: Keyed, reg: Registry, next: nat, reg': Registry, next': nat,
               m: Mutation, exact: bool, h: Dom, k: Keyed, c: Change)
    requires Mirror(f, a, reg) && Unique(f) && Named(reg, next) && forall n :: n in Ids(f) ==> n < next
    requires Fits(a, Root, m, exact) && !(m.IsAdd() && m.parent == Root) && At(f, a, reg, m, h, k)
    requires Novel(f, h.key, c) && next <= next' && forall n :: n in ChangeIds(c) ==> n < next'
    requires SameOutside(reg, reg', m.id, next)
    requires Mirror(Changed(h, c), Hit(k.el, k.kids, Empty, m), reg')
    ensures var f' := Alter(f, h.key, c);
            && Unique(f')
            && (forall n :: n in Ids(f') ==> n < next')
            && Mirror(f', Step(a, Root, m), reg')
  {
    AlterUnique(f, h.key, c);
    AlterMirrors(f, a, reg, reg', next, h.key, c, m);
  }

  lemma CommitClean(f: Dom, a: Keyed, reg: Registry, reg': Registry, m: Mutation, h: Dom, k: Keyed)
    requires Fits(a, Root, m, true) && !(m.IsAdd() && m.parent == Root) && At(f, a, reg, m, h, k)
    requires NoStale(reg, a)
    requires Accounted(reg, reg', k, m)
    ensures NoStale(reg', Step(a, Root, m))
  {
    forall q | q in reg' ensures HasKey(Step(a, Root, m), q) {
      if HasKey(Hit(k.el, k.kids, Empty, m), q) { NewKeys(a, m, q); } else { KeysKept(a, m, k.el, q); }
    }
  }

  /** What is registered after a change at one node. */
  lemma Recording(f': Dom, a: Keyed, reg: Registry, reg': Registry, m: Mutation, k: Keyed)
    requires !(m.IsAdd() && m.parent == Root) && HasKey(a, Target(m)) && k == KeyedAt(a, Target(m)) && Alike(a, Target(m), k.el)
    requires Mirror(f', Step(a, Root, m), reg') && Retained(reg, reg', a, m) && Accounted(reg, reg', k, m)
    requires m.Replace? || m.ReplaceInline? ==> m.id in reg'
    ensures Recorded(reg, reg', a, m)
  {
    forall q | !InCell(q) ensures q in reg' <==> Lists(a, m, q, q in reg) {
      if q in reg' {
        if HasKey(Hit(k.el, k.kids, Empty, m), q) {
          NewKeys(a, m, q);
        } else if Forgets(a, m, q) {
          PurgesAlike(a, m, k.el);
        }
      }
      if HasKey(Step(a, Root, m), q) { MirrorNames(f', Step(a, Root, m), reg', q); }
    }
  }

  lemma Booked(f: Dom, f': Dom, a: Keyed, reg: Registry, reg': Registry, m: Mutation, exact: bool, h: Dom, k: Keyed)
    requires Fits(a, Root, m, exact) && !(m.IsAdd() && m.parent == Root) && At(f, a, reg, m, h, k)
    requires Mirror(f', Step(a, Root, m), reg') && Retained(reg, reg', a, m) && Accounted(reg, reg', k, m)
    requires m.Replace? || m.ReplaceInline? ==> m.id in reg'
    ensures Recorded(reg, reg', a, m)
    ensures exact && NoStale(reg, a) ==> NoStale(reg', Step(a, Root, m))
  {
    Recording(f', a, reg, reg', m, k);
    if exact && NoStale(reg, a) { CommitClean(f, a, reg, reg', m, h, k); }
  }

  /** The registered node that morphdom takes out of the tree stays registered, and nothing below it. */
  lemma AwayRecorded(f': Dom, a: Keyed, reg: Registry, reg': Registry, m: Mutation, l: Label)
    requires (m.Replace? || m.ReplaceInline?) && HasKey(a, m.id) && l == KeyedAt(a, m.id).el && Purges(l, m)
    requires Mirror(f', Step(a, Root, m), reg') && m.id in reg'
    requires forall q :: q in reg' <==> q == m.id || (q in reg && !InSub(m.id, q))
    ensures Recorded(reg, reg', a, m)
  {
    PurgesThere(a, m);
    forall q | !InCell(q) ensures q in reg' <==> Lists(a, m, q, q in reg) {
      if HasKey(Step(a, Root, m), q) { MirrorNames(f', Step(a, Root, m), reg', q); }
    }
  }

  lemma AddedRecorded(f': Dom, a: Keyed, reg: Registry, reg': Registry, m: Mutation)
    requires m.IsAdd() && m.parent == Root && Mirror(f', Step(a, Root, m), reg')
    requires forall q :: q in reg' <==> q in reg || HasKey(Added(m), q)
    ensures Recorded(reg, reg', a, m)
  {
    forall q | !InCell(q) ensures q in reg' <==> Lists(a, m, q, q in reg) {
      GraftKeys(a, Added(m), q);
      if HasKey(Step(a, Root, m), q) { MirrorNames(f', Step(a, Root, m), reg', q); }
    }
  }

  /** The ids of the new children are free once the old ones are purged. */
  lemma PlanIsFree(plan: Keyed, id: Path, reg0: Registry, reg1: Registry)
    requires id.Sub? && AllFrom(plan, id, 0)
    requires id in reg0 && reg1 == Purged(reg0, id, true)[id := reg0[id]]
    ensures forall q :: HasKey(plan, q) ==> InSub(id, q) && q != id && q != Root && q !in reg1
  {
    forall q | HasKey(plan, q) ensures InSub(id, q) && q != id && q != Root && q !in reg1 {
      FromIsBelow(plan, id, 0);
      if !InSub(id, q) { NoKeyOutside(plan, id, q); }
      if q == id { NoKeyItself(plan, id, 0); }
      BelowIsDeeper(id, q);
    }
  }

  lemma TableMirrors(kids: Dom, plan: Keyed, reg0: Registry, reg1: Registry, id: Path)
    requires Mirror(kids, Unkeyed(plan), reg0) && CellForest(plan, id) && id.Sub? && id in reg0
    requires reg1 == Purged(reg0, id, true)[id := reg0[id]]
    ensures Mirror(kids, plan, reg1)
  {
    UnkeyedDistinct(plan);
    MirrorAgree(kids, Unkeyed(plan), reg0, reg1);
    PlanIsFree(plan, id, reg0, reg1);
    CellsMayBeUnnamed(kids, plan, reg1);
  }

  lemma NothingRenamed(reg: Registry, reg': Registry, a: Keyed, lo: nat)
    requires Extends(reg, reg', a, lo) && forall q :: !HasKey(a, q)
    ensures reg' == reg
  {}

  /** The same for a node that stays while its children are new. */
  lemma KeptIsNovel(f: Dom, key: nat, look: Label, kids: Dom, next: nat, next': nat)
    requires Unique(kids) && next <= next' && key < next && (forall i :: i in Ids(kids) ==> next <= i < next')
    requires forall n :: n in Ids(f) ==> n < next
    ensures Novel(f, key, PutNode(Node(key, look, kids, Empty)))
  {
    assert Ids(Node(key, look, kids, Empty)) == {key} + Ids(kids);
  }

  /** Purging a subtree and naming its root again leaves the names outside as they were. */
  lemma PurgedOutside(reg0: Registry, reg1: Registry, a: Keyed, id: Path, key: nat, bound: nat)
    requires Extends(reg0, reg1, a, bound) && (forall q :: !HasKey(a, q)) && id in reg0 && reg0[id] == key
    ensures var r := Purged(reg1, id, true)[id := key];
            SameOutside(reg0, r, id, bound) && forall q :: q in r ==> q in reg0 && r[q] == reg0[q]
  {}

  /** The subtree of the target is purged, and the target itself keeps its name. */
  lemma RootKept(reg0: Registry, reg: Registry, a: Keyed, m: Mutation, bound: nat, next: nat)
    requires m.id in reg0 && m.id.Sub? && reg == Purged(reg0, m.id, true)[m.id := reg0[m.id]] && Named(reg0, bound) && bound <= next
    requires HasKey(a, m.id) && Purges(KeyedAt(a, m.id).el, m)
    ensures Named(reg, next) && SameOutside(reg0, reg, m.id, bound) && Retained(reg0, reg, a, m)
    ensures forall q :: q in reg ==> q == m.id || (q in reg0 && !InSub(m.id, q))
  {
    RetainedOutside(reg0, reg, a, m);
  }

  /** A new node takes over the name of another, and its children. */
  lemma RenamedRoot(h: Dom, k: Keyed, reg: Registry, id: Path, n: nat)
    requires h.Node? && k.Node? && Mirror(h.kids, k.kids, reg) && id in reg && id.Sub? && reg[id] == h.key && h.key !in Ids(h.kids)
    requires Named(reg, n) && forall i :: i in Ids(h.kids) ==> i < n
    ensures var r := reg[id := n];
            Named(r, n + 1) && SameOutside(reg, r, id, n) && Mirror(h.kids, k.kids, r)
  {
    MirrorKey(h.kids, k.kids, reg, id);
    MirrorAgree(h.kids, k.kids, reg, reg[id := n]);
  }

  lemma CommitKept(f: Dom, a: Keyed, reg: Registry, next: nat, reg': Registry, next': nat,
                   m: Mutation, exact: bool, h: Dom, k: Keyed, look: Label, kids: Dom)
    requires Mirror(f, a, reg) && Unique(f) && Named(reg, next) && forall n :: n in Ids(f) ==> n < next
    requires Fits(a, Root, m, exact) && !(m.IsAdd() && m.parent == Root) && At(f, a, reg, m, h, k)
    requires h.key in Ids(f) && next <= next' && Unique(kids) && forall i :: i in Ids(kids) ==> next <= i < next'
    requires SameOutside(reg, reg', m.id, next)
    requires Mirror(Node(h.key, look, kids, Empty), Hit(k.el, k.kids, Empty, m), reg')
    ensures var f' := Alter(f, h.key, PutNode(Node(h.key, look, kids, Empty)));
            && Unique(f')
            && (forall n :: n in Ids(f') ==> n < next')
            && Mirror(f', Step(a, Root, m), reg')
  {
    KeptIsNovel(f, h.key, look, kids, next, next');
    Commit(f, a, reg, next, reg', next', m, exact, h, k, PutNode(Node(h.key, look, kids, Empty)));
  }

  lemma BelowOnly(f: Keyed, id: Path)
    requires AllBelow(f, id) && id.Sub?
    ensures forall q :: HasKey(f, q) ==> InSub(id, q) && q != Root
  {
    forall q | HasKey(f, q) ensures InSub(id, q) && q != Root {
      if !InSub(id, q) { NoKeyOutside(f, id, q); }
      BelowIsDeeper(id, q);
    }
  }

  lemma NewOnesOnly(f: Keyed, g: Keyed, id: Path)
    requires NoneBelow(f, id) && AllBelow(g, id)
    ensures forall q :: HasKey(g, q) ==> InSub(id, q) && !HasKey(f, q)
  {
    forall q | HasKey(g, q) ensures InSub(id, q) && !HasKey(f, q) {
      if !InSub(id, q) { NoKeyOutside(g, id, q); }
      NoKeyBelow(f, id, q);
    }
  }

  /** New nodes beside a mirrored tree. */
  lemma MirrorBeside(f: Dom, a: Keyed, g: Dom, b: Keyed, reg: Registry, reg': Registry, bound: nat, id: Path)
    requires Mirror(f, a, reg) && Mirror(g, b, reg') && forall n :: n in Ids(f) ==> n < bound
    requires NoneBelow(a, id) && AllBelow(b, id) && Extends(reg, reg', b, bound)
    ensures Mirror(Graft(f, g), Graft(a, b), reg')
  {
    NewOnesOnly(a, b, id);
    MirrorGrow(f, a, reg, reg', bound);
    MirrorGraft(f, a, g, b, reg');
  }

  /** The test on id strings is the test on subtrees. */
  lemma KeyTest(prefix: Path, key: Path, includeSelf: bool)
    requires prefix.Sub? && key.Sub?
    ensures (includeSelf && IdString(key) == IdString(prefix)) || StartsWith(IdString(key), IdString(prefix) + ".")
            <==> InSub(prefix, key) && (includeSelf || key != prefix)
  {
    PrefixTestIsSubtree(prefix, key);
    if IdString(key) == IdString(prefix) { IdStringInjective(key, prefix); }
  }

  class Executor {
    var sandbox: Dom
    var registry: Registry
    var nextNode: nat

    ghost predicate Valid()
      reads this
    {
      && Unique(sandbox) && (forall n :: n in Ids(sandbox) ==> n < nextNode)
      && Injective(registry) && (forall q :: q in registry ==> q.Sub? && registry[q] < nextNode)
    }

    ghost predicate Shows(a: Keyed)
      reads this
    {
      Mirror(sandbox, a, registry)
    }

    constructor ()
      ensures Valid() && Shows(Empty) && NoStale(registry, Empty)
    {
      sandbox, registry, nextNode := Empty, map[], 0;
    }

    /** createDomFromNode and createInlineDom: new nodes for the tree a, each registered under its id. */
    method Mount(a: Keyed) returns (f: Dom)
      requires Named(registry, nextNode) && Distinct(a) && !HasKey(a, Root)
      modifies this`registry, this`nextNode
      ensures old(nextNode) <= nextNode && Named(registry, nextNode)
      ensures Extends(old(registry), registry, a, old(nextNode))
      ensures Mounted(f, a, registry, old(nextNode), nextNode)
      decreases a
    {
      match a {
        case Empty =>
          f := Empty;
        case Node(key, look, kids, rest) =>
          ghost var reg0, n0 := registry, nextNode;
          var fk := Mount(kids);
          ghost var reg1, n1 := registry, nextNode;
          var fr := Mount(rest);
          ghost var reg2 := registry;
          var n := nextNode;
          nextNode := nextNode + 1;
          if key.Some? { registry := registry[key.value := n]; }
          f := Node(n, look, fk, fr);
          NodeMounted(reg0, reg1, reg2, registry, a, fk, fr, n0, n1, n);
      }
    }

    /** cleanupSubtreeRefs: delete every id that starts with prefix and a dot, and perhaps prefix itself. */
    method CleanupSubtree(prefix: Path, includeSelf: bool)
      requires prefix.Sub? && forall q :: q in registry ==> q.Sub?
      modifies this`registry
      ensures registry == Purged(old(registry), prefix, includeSelf)
    {
      var keys := registry.Keys;
      while keys != {}
        invariant keys <= old(registry).Keys
        invariant registry == Purging(old(registry), keys, prefix, includeSelf)
        decreases |keys|
      {
        var key :| key in keys;
        KeyTest(prefix, key, includeSelf);
        PurgedFurther(old(registry), keys, key, prefix, includeSelf);
        if (includeSelf && IdString(key) == IdString(prefix)) || StartsWith(IdString(key), IdString(prefix) + ".") {
          registry := map q | q in registry && q != key :: registry[q];
        }
        keys := keys - {key};
      }
    }

    /** The tree after a mutation, and a registry that still agrees with it. */
    twostate predicate Stepped(a: Keyed, m: Mutation, exact: bool)
      reads this
    {
      && Valid() && Shows(Step(a, Root, m)) && Recorded(old(registry), registry, a, m)
      && (exact && NoStale(old(registry), a) ==> NoStale(registry, Step(a, Root, m)))
    }

    ghost predicate Ready(a: Keyed, m: Mutation, exact: bool, h: Dom, k: Keyed)
      reads this
    {
      && Valid() && Shows(a) && Fits(a, Root, m, exact) && !(m.IsAdd() && m.parent == Root)
      && At(sandbox, a, registry, m, h, k)
    }

    /** Text and attributes of one node change in place. */
    method ChangeLook(m: Mutation, h: Dom, look: Label, ghost a: Keyed, ghost k: Keyed, ghost exact: bool)
      requires Ready(a, m, exact, h, k) && !m.IsAdd() && !Purges(h.el, m)
      requires Hit(h.el, k.kids, Empty, m) == Node(Some(m.id), look, k.kids, Empty)
      modifies this
      ensures Stepped(a, m, exact)
    {
      var c := Relabel(h.key, look);
      Commit(sandbox, a, registry, nextNode, registry, nextNode, m, exact, h, k, c);
      Booked(sandbox, Alter(sandbox, h.key, c), a, registry, registry, m, exact, h, k);
      sandbox := Alter(sandbox, h.key, c);
    }

    /** The node stays and takes the new children; the registry is up to date. */
    method KeepNode(m: Mutation, h: Dom, look: Label, kids: Dom, ghost a: Keyed, ghost k: Keyed, ghost exact: bool,
                    ghost reg0: Registry, ghost n0: nat)
      requires Mirror(sandbox, a, reg0) && Unique(sandbox) && Named(reg0, n0) && Named(registry, nextNode) && n0 <= nextNode
      requires (forall n :: n in Ids(sandbox) ==> n < n0) && Unique(kids) && forall i :: i in Ids(kids) ==> n0 <= i < nextNode
      requires Fits(a, Root, m, exact) && !(m.IsAdd() && m.parent == Root) && At(sandbox, a, reg0, m, h, k)
      requires SameOutside(reg0, registry, m.id, n0) && Mirror(Node(h.key, look, kids, Empty), Hit(k.el, k.kids, Empty, m), registry)
      requires Retained(reg0, registry, a, m) && Accounted(reg0, registry, k, m) && m.id in registry
      modifies `sandbox
      ensures Valid() && Shows(Step(a, Root, m)) && Recorded(reg0, registry, a, m)
      ensures exact && NoStale(reg0, a) ==> NoStale(registry, Step(a, Root, m))
    {
      CommitKept(sandbox, a, reg0, n0, registry, nextNode, m, exact, h, k, look, kids);
      ghost var f := sandbox;
      sandbox := Alter(sandbox, h.key, PutNode(Node(h.key, look, kids, Empty)));
      Booked(f, sandbox, a, reg0, registry, m, exact, h, k);
    }

    /** The text below one node is set anew; the node stays, and nothing is purged. */
    method RebuildText(m: Mutation, h: Dom, look: Label, text: string, ghost a: Keyed, ghost k: Keyed, ghost exact: bool)
      requires Ready(a, m, exact, h, k) && !m.IsAdd() && m.id.Sub? && !Purges(h.el, m)
      requires Hit(h.el, k.kids, Empty, m) == Node(Some(m.id), look, TextKid(text), Empty)
      modifies this
      ensures Stepped(a, m, exact)
    {
      ghost var reg0, n0 := registry, nextNode;
      assert forall q :: !HasKey(TextKid(text), q);
      var kids := Mount(TextKid(text));
      KeepNode(m, h, look, kids, a, k, exact, reg0, n0);
    }

    /** The node stays, its descendants are forgotten and its children built anew. */
    method RebuildKids(m: Mutation, h: Dom, look: Label, plan: Keyed, ghost a: Keyed, ghost k: Keyed, ghost exact: bool)
      requires Ready(a, m, exact, h, k) && !m.IsAdd() && m.id.Sub? && Purges(h.el, m)
      requires Hit(h.el, k.kids, Empty, m) == Node(Some(m.id), look, plan, Empty)
      requires AllFrom(plan, m.id, 0) && Distinct(plan)
      modifies this
      ensures Stepped(a, m, exact)
    {
      ghost var reg0, n0 := registry, nextNode;
      CleanupSubtree(m.id, true);
      registry := registry[m.id := h.key];
      PlanIsFree(plan, m.id, reg0, registry);
      var kids := Mount(plan);
      RetainedOutside(reg0, registry, a, m);
      KeepNode(m, h, look, kids, a, k, exact, reg0, n0);
    }

    /** The same for a table: its cells were created into a throw-away registry. */
    method RebuildTable(m: Mutation, h: Dom, look: Label, plan: Keyed, ghost a: Keyed, ghost k: Keyed, ghost exact: bool)
      requires Ready(a, m, exact, h, k) && !m.IsAdd() && m.id.Sub? && Purges(h.el, m)
      requires Hit(h.el, k.kids, Empty, m) == Node(Some(m.id), look, plan, Empty)
      requires CellForest(plan, m.id)
      modifies this
      ensures Stepped(a, m, exact)
    {
      ghost var reg0, n0 := registry, nextNode;
      UnkeyedDistinct(plan);
      var kids := Mount(Unkeyed(plan));
      NothingRenamed(reg0, registry, Unkeyed(plan), n0);
      CleanupSubtree(m.id, true);
      registry := registry[m.id := h.key];
      TableMirrors(kids, plan, reg0, registry, m.id);
      RootKept(reg0, registry, a, m, n0, nextNode);
      KeepNode(m, h, look, kids, a, k, exact, reg0, n0);
    }

    /** The node is replaced by the freshly created tree made; the registry forgets it and its descendants. */
    method PutCreated(m: Mutation, h: Dom, made: Keyed, ghost a: Keyed, ghost k: Keyed, ghost exact: bool)
      requires Ready(a, m, exact, h, k) && !m.IsAdd() && m.id.Sub? && Purges(h.el, m)
      requires Hit(h.el, k.kids, Empty, m) == made && Distinct(made) && AllBelow(made, m.id) && HasKey(made, m.id)
      modifies this
      ensures Stepped(a, m, exact)
    {
      ghost var reg0, n0 := registry, nextNode;
      CleanupSubtree(m.id, true);
      BelowOnly(made, m.id);
      var piece := Mount(made);
      RetainedOutside(reg0, registry, a, m);
      var c := PutNode(piece);
      Commit(sandbox, a, reg0, n0, registry, nextNode, m, exact, h, k, c);
      Booked(sandbox, Alter(sandbox, h.key, c), a, reg0, registry, m, exact, h, k);
      sandbox := Alter(sandbox, h.key, c);
    }

    /** morphdom with another tag: a new node takes the place, but the registry keeps naming the old one. */
    method MorphAway(m: Mutation, h: Dom, made: Keyed, ghost a: Keyed, ghost k: Keyed, ghost exact: bool)
      requires Ready(a, m, exact, h, k) && (m.Replace? || m.ReplaceInline?) && m.id.Sub? && !exact && Purges(h.el, m)
      requires made.Node? && Hit(h.el, k.kids, Empty, m) == Unkeyed(made) && made.rest.Empty?
      modifies this
      ensures Stepped(a, m, exact)
    {
      ghost var reg0, n0 := registry, nextNode;
      UnkeyedDistinct(made);
      var piece := Mount(Unkeyed(made));
      ghost var reg1 := registry;
      CleanupSubtree(m.id, true);
      registry := registry[m.id := h.key];
      PurgedOutside(reg0, reg1, Unkeyed(made), m.id, h.key, n0);
      MirrorAgree(piece, Unkeyed(made), reg1, registry);
      PutPiece(m, h, piece, a, k, exact, reg0, n0);
      AwayRecorded(sandbox, a, reg0, registry, m, h.el);
    }

    /** A built piece takes the place of the node; the registry is up to date. */
    method PutPiece(m: Mutation, h: Dom, piece: Dom, ghost a: Keyed, ghost k: Keyed, ghost exact: bool, ghost reg0: Registry,
                    ghost n0: nat)
      requires Mirror(sandbox, a, reg0) && Unique(sandbox) && Named(reg0, n0) && Named(registry, nextNode) && n0 <= nextNode
      requires Fits(a, Root, m, exact) && !(m.IsAdd() && m.parent == Root) && At(sandbox, a, reg0, m, h, k)
      requires (forall n :: n in Ids(sandbox) ==> n < n0) && Novel(sandbox, h.key, PutNode(piece))
      requires forall n :: n in Ids(piece) ==> n < nextNode
      requires SameOutside(reg0, registry, m.id, n0) && Mirror(piece, Hit(k.el, k.kids, Empty, m), registry)
      modifies `sandbox
      ensures Valid() && Shows(Step(a, Root, m))
    {
      Commit(sandbox, a, reg0, n0, registry, nextNode, m, exact, h, k, PutNode(piece));
      sandbox := Alter(sandbox, h.key, PutNode(piece));
    }

    /** The level of a heading changes its tag: a new element takes over the children. */
    method ChangeTag(m: Mutation, h: Dom, look: Label, ghost a: Keyed, ghost k: Keyed, ghost exact: bool)
      requires Ready(a, m, exact, h, k) && !m.IsAdd() && m.id.Sub? && !Purges(h.el, m)
      requires Hit(h.el, k.kids, Empty, m) == Node(Some(m.id), look, k.kids, Empty)
      modifies this
      ensures Stepped(a, m, exact)
    {
      ghost var reg0, n0 := registry, nextNode;
      var n := nextNode;
      nextNode := nextNode + 1;
      registry := registry[m.id := n];
      RenamedRoot(h, k, reg0, m.id, n);
      var c := Relabel(n, look);
      Commit(sandbox, a, reg0, n0, registry, nextNode, m, exact, h, k, c);
      Booked(sandbox, Alter(sandbox, h.key, c), a, reg0, registry, m, exact, h, k);
      sandbox := Alter(sandbox, h.key, c);
    }

    method RemoveNode(m: Mutation, h: Dom, ghost a: Keyed, ghost k: Keyed, ghost exact: bool)
      requires Ready(a, m, exact, h, k) && m.Remove? && m.id.Sub?
      modifies this
      ensures Stepped(a, m, exact)
    {
      ghost var reg0 := registry;
      var c := PutNode(Empty);
      CleanupSubtree(m.id, true);
      RetainedOutside(reg0, registry, a, m);
      Commit(sandbox, a, reg0, nextNode, registry, nextNode, m, exact, h, k, c);
      Booked(sandbox, Alter(sandbox, h.key, c), a, reg0, registry, m, exact, h, k);
      sandbox := Alter(sandbox, h.key, c);
    }

    method AppendChild(m: Mutation, h: Dom, ghost a: Keyed, ghost k: Keyed, ghost exact: bool)
      requires Ready(a, m, exact, h, k) && m.IsAdd() && m.id.Sub?
      modifies this
      ensures Stepped(a, m, exact)
    {
      ghost var reg0, n0 := registry, nextNode;
      AddedDistinct(m);
      BelowOnly(Added(m), m.id);
      var kid := Mount(Added(m));
      var c := AddKid(kid);
      NewOnesOnly(k.kids, Added(m), m.id);
      NewOnesOnly(a, Added(m), m.id);
      MirrorGrow(h.kids, k.kids, reg0, registry, n0);
      MirrorGraft(h.kids, k.kids, kid, Added(m), registry);
      Commit(sandbox, a, reg0, n0, registry, nextNode, m, exact, h, k, c);
      forall q | HasKey(Added(m), q) ensures HasKey(Hit(k.el, k.kids, Empty, m), q) { GraftKeys(k.kids, Added(m), q); }
      Booked(sandbox, Alter(sandbox, h.key, c), a, reg0, registry, m, exact, h, k);
      sandbox := Alter(sandbox, h.key, c);
    }

    /** The replace strategies for blocks. */
    method ReplaceBlock(m: Mutation, h: Dom, ghost a: Keyed, ghost k: Keyed, ghost exact: bool)
      requires m.Replace? && m.id.Sub? && Ready(a, m, exact, h, k) && (exact ==> CleanHit(k.el, k.kids, m))
      modifies this
      ensures Stepped(a, m, exact)
    {
      var b := m.block;
      BlockKidsBelow(b, m.id);
      if b.CodeBlock? && b.mermaid && h.el.Elem? && h.el.class_ == MermaidClass {
        RebuildKids(m, h, h.el, TextKid(b.code), a, k, exact);
      } else if b.Table? && h.el.Elem? {
        if BlockLabel(b).tag == h.el.tag {
          TableKids(b, m.id);
          RebuildTable(m, h, BlockLabel(b), BlockKids(b, m.id), a, k, exact);
        } else {
          MorphAway(m, h, RenderBlock(b, m.id, Empty), a, k, exact);
        }
      } else {
        SingleDistinct(m.id, BlockLabel(b), BlockKids(b, m.id));
        PutCreated(m, h, RenderBlock(b, m.id, Empty), a, k, exact);
      }
    }

    /** The replace strategies for inlines. */
    method ReplaceInlineNode(m: Mutation, h: Dom, ghost a: Keyed, ghost k: Keyed, ghost exact: bool)
      requires m.ReplaceInline? && m.id.Sub? && Ready(a, m, exact, h, k) && (exact ==> CleanHit(k.el, k.kids, m))
      modifies this
      ensures Stepped(a, m, exact)
    {
      var x := m.inline;
      InlineKidsBelow(x, m.id);
      if x.Text? && h.el.TextNode? {
        ChangeLook(m, h, TextNode(x.value), a, k, exact);
      } else if x.Code? && h.el.Elem? && h.el.tag == CodeTag {
        RebuildText(m, h, h.el, x.value, a, k, exact);
      } else if x.Math? && h.el.Elem? && h.el.class_.MathClass? {
        RebuildText(m, h, h.el.(attrs := LatexAttr(x.content)), x.content, a, k, exact);
      } else if x.Custom? && x.inner.None? && h.el.Elem? {
        RebuildText(m, h, h.el, OrEmpty(x.text), a, k, exact);
      } else if x.Image? && h.el.Elem? && h.el.tag == ImgTag {
        ChangeLook(m, h, h.el.(attrs := ImageAttrs(x.src, x.alt, OrEmpty(x.title))), a, k, exact);
      } else if IsContainer(x) && h.el.Elem? {
        if InlineLabel(x).tag == h.el.tag {
          RebuildKids(m, h, InlineLabel(x), InlineKids(x, m.id), a, k, exact);
        } else {
          MorphAway(m, h, RenderInline(x, m.id, Empty), a, k, exact);
        }
      } else {
        SingleDistinct(m.id, InlineLabel(x), InlineKids(x, m.id));
        PutCreated(m, h, RenderInline(x, m.id, Empty), a, k, exact);
      }
    }

    /** A block appended to the sandbox itself. */
    method AppendRoot(m: Mutation, ghost a: Keyed, ghost exact: bool)
      requires Valid() && Shows(a) && m.IsAdd() && m.parent == Root && m.id.Sub? && Fits(a, Root, m, exact)
      modifies this
      ensures Stepped(a, m, exact)
    {
      ghost var reg0, n0, f0 := registry, nextNode, sandbox;
      AddedDistinct(m);
      BelowOnly(Added(m), m.id);
      var kid := Mount(Added(m));
      MirrorBeside(f0, a, kid, Added(m), reg0, registry, n0, m.id);
      GraftIds(sandbox, kid);
      sandbox := Graft(sandbox, kid);
      AddedRecorded(sandbox, a, reg0, registry, m);
      GraftClean(a, Added(m), reg0, registry);
    }

    /** The switch of executeMutation, at a registered node. */
    method ExecuteAt(m: Mutation, h: Dom, ghost a: Keyed, ghost k: Keyed, ghost exact: bool)
      requires m.id.Sub? && Ready(a, m, exact, h, k) && (exact ==> CleanHit(k.el, k.kids, m))
      modifies this
      ensures Stepped(a, m, exact)
    {
      match m
      case AppendText(_, chunk) => ChangeLook(m, h, TextNode(h.el.data + chunk), a, k, exact);
      case SetText(_, text) =>
        if h.el.TextNode? {
          ChangeLook(m, h, TextNode(text), a, k, exact);
        } else {
          RebuildText(m, h, h.el, text, a, k, exact);
        }
      case SetLevel(_, level) =>
        if IsHeading(h.el) {
          ChangeTag(m, h, h.el.(tag := HTag(Clamp(level))), a, k, exact);
        } else {
          ChangeLook(m, h, h.el.(attrs := LevelAttr(level)), a, k, exact);
        }
      case Remove(_) => RemoveNode(m, h, a, k, exact);
      case Replace(_, _) => ReplaceBlock(m, h, a, k, exact);
      case ReplaceInline(_, _) => ReplaceInlineNode(m, h, a, k, exact);
      case _ => AppendChild(m, h, a, k, exact);
    }

    /** The mutation fails: its target is not registered, or is a node of the wrong kind. */
    ghost predicate Fails(a: Keyed, m: Mutation)
      reads this
    {
      && !(m.IsAdd() && m.parent == Root)
      && (Target(m) !in registry || (HasKey(a, Target(m)) && WrongKind(KeyedAt(a, Target(m)).el, m)))
    }

    /** executeMutation: a mutation that fits carries a mirrored tree to the next one; a mutation that fails changes
        nothing. */
    method ExecuteMutation(m: Mutation, ghost a: Keyed, ghost exact: bool) returns (ok: bool)
      requires Valid() && Shows(a) && m.id.Sub?
      requires Fits(a, Root, m, exact) || Fails(a, m)
      modifies this
      ensures ok <==> !old(Fails(a, m))
      ensures ok ==> Stepped(a, m, exact)
      ensures !ok ==> sandbox == old(sandbox) && registry == old(registry) && nextNode == old(nextNode)
    {
      if m.IsAdd() && m.parent == Root {
        AppendRoot(m, a, exact);
        return true;
      }
      if Target(m) !in registry { return false; }
      TargetIs(sandbox, a, registry, nextNode, m, exact);
      var h := Find(sandbox, registry[Target(m)]).value;
      if WrongKind(h.el, m) { return false; }
      if exact { CleanAt(a, m); }
      ExecuteAt(m, h, a, KeyedAt(a, Target(m)), exact);
      return true;
    }

    /** applyFrame: mutations in order, up to the first that fails. If the first n fit and the next one fails, exactly
        those n are applied; the next one fails if its target is not registered then, or is a node of the wrong kind. */
    method ApplyFrame(ms: seq<Mutation>, ghost a: Keyed, ghost n: nat, ghost exact: bool) returns (ok: bool, applied: nat)
      requires Valid() && Shows(a) && forall i :: 0 <= i < |ms| ==> ms[i].id.Sub?
      requires n <= |ms| && Runs(a, Root, ms[..n], exact)
      requires n < |ms| ==>
                 || FailsAfter(a, ms[..n], ms[n], registry)
                 || (exact && NoStale(registry, a) && FailsIn(Run(a, Root, ms[..n]), ms[n]))
      modifies this
      ensures (ok <==> n == |ms|) && applied == n && Valid() && Shows(Run(a, Root, ms[..n]))
      ensures exact && NoStale(old(registry), a) ==> NoStale(registry, Run(a, Root, ms[..n]))
      ensures Booking(a, ms[..n], old(registry), registry)
    {
      applied := 0;
      ghost var b, us := a, ms[..n];
      while applied < |ms|
        invariant applied <= n && Valid() && Shows(b) && Runs(b, Root, us[applied..], exact)
        invariant Run(a, Root, us) == Run(b, Root, us[applied..])
        invariant exact && NoStale(old(registry), a) ==> NoStale(registry, b)
        invariant Underway(a, us, old(registry), b, us[applied..], registry)
      {
        ghost var fits := applied < n;
        if fits {
          assert us[applied] == ms[applied] && us[applied..][1..] == us[applied + 1..];
          Succeeds(b, ms[applied], exact);
        } else {
          FailsNow(a, us, ms[applied], old(registry), b, exact);
        }
        ghost var reg := registry;
        ok := ExecuteMutation(ms[applied], b, exact);
        if !ok { return; }
        UnderwayFurther(a, us, old(registry), b, us[applied..], reg, registry);
        b := Step(b, Root, ms[applied]);
        applied := applied + 1;
      }
      ok := true;
    }

    lemma Succeeds(b: Keyed, m: Mutation, exact: bool)
      requires Valid() && Shows(b) && Fits(b, Root, m, exact)
      ensures !Fails(b, m)
    {
      if !(m.IsAdd() && m.parent == Root) {
        Locate(sandbox, b, registry, nextNode, m, exact);
      }
    }

    lemma FailsNow(a: Keyed, ms: seq<Mutation>, m: Mutation, reg: Registry, b: Keyed, exact: bool)
      requires Underway(a, ms, reg, b, [], registry) && Run(a, Root, ms) == b
      requires FailsAfter(a, ms, m, reg) || (exact && NoStale(registry, b) && FailsIn(b, m))
      ensures Fails(b, m)
    {
      if !InCell(Target(m)) { assert Listed(b, [], Target(m), Target(m) in registry) == (Target(m) in registry); }
    }

    lemma ShowsContent(doc: List<Block>)
      requires Shows(RenderDocument(doc))
      ensures DomContent.Pieces(sandbox) == DomContent.DocumentPieces(doc)
    {
      MirrorPieces(sandbox, RenderDocument(doc), registry);
      DomContent.DocumentShows(doc);
    }

    /** rebuildSnapshot: forget everything and render the document anew. What is shown is what the document holds. */
    method RebuildSnapshot(doc: List<Block>)
      requires Valid()
      modifies this
      ensures Valid() && Shows(RenderDocument(doc)) && NoStale(registry, RenderDocument(doc))
      ensures DomContent.Pieces(sandbox) == DomContent.DocumentPieces(doc)
    {
      registry := map[];
      BlocksFrom(doc, Root, 0);
      NoKeyItself(RenderDocument(doc), Root, 0);
      sandbox := Mount(RenderDocument(doc));
      ShowsContent(doc);
    }

    /** One streamed frame, from the backend's diff to the live tree. The sandbox is always the tree that the
        mutations make of the rendered old document. When no in-place update on the way loses something, that is
        the rendered new document node for node; and the registry is left without a stale entry exactly if no such
        update drops registered nodes. */
    method StreamFrame(before: List<Block>, after: List<Block>) returns (ok: bool)
      requires Valid() && Shows(RenderDocument(before))
      modifies this
      ensures ok && Valid() && Shows(Run(RenderDocument(before), Root, DiffDocuments(before, after)))
      ensures Booking(RenderDocument(before), DiffDocuments(before, after), old(registry), registry)
      ensures FaithfulBlocks(before, after, false) ==>
                Shows(RenderDocument(after)) && DomContent.Pieces(sandbox) == DomContent.DocumentPieces(after)
      ensures FaithfulBlocks(before, after, true) && NoStale(old(registry), RenderDocument(before))
              ==> Shows(RenderDocument(after)) && NoStale(registry, RenderDocument(after))
      ensures FaithfulBlocks(before, after, false) && NoStale(old(registry), RenderDocument(before))
              ==> (NoStale(registry, RenderDocument(after)) <==> FaithfulBlocks(before, after, true))
    {
      var ms := DiffDocuments(before, after);
      ghost var exact := FaithfulBlocks(before, after, true);
      BlocksCorrect(before, after, Root, 0);
      var applied: nat;
      assert ms[..|ms|] == ms;
      ghost var f := sandbox;
      ghost var reg := registry;
      ok, applied := ApplyFrame(ms, RenderDocument(before), |ms|, exact);
      if FaithfulBlocks(before, after, false) { ShowsContent(after); }
      if FaithfulBlocks(before, after, false) && !exact {
        ghost var q := InexactLeavesEntry(before, after);
        SparedIsListed(RenderDocument(before), ms, q);
        MirrorNames(f, RenderDocument(before), reg, q);
      }
    }
  }

  lemma {:induction false} CleanAt(a: Keyed, m: Mutation)
    requires Clean(a, m) && HasKey(a, Target(m))
    ensures CleanHit(KeyedAt(a, Target(m)).el, KeyedAt(a, Target(m)).kids, m)
  {
    if a.key != Some(Target(m)) {
      if HasKey(a.kids, Target(m)) { CleanAt(a.kids, m); } else { CleanAt(a.rest, m); }
    }
  }

  lemma {:induction false} DisjointKeys(f: Keyed, g: Keyed)
    requires Disjoint(f, g)
    ensures forall q :: HasKey(f, q) ==> !HasKey(g, q)
  {
    if f.Node? { DisjointKeys(f.kids, g); DisjointKeys(f.rest, g); }
  }
}
