/** Raw HTML that grows at its end: children that can no longer change are frozen in place, and only the last
    one is brought up to date. */
module RawHtmlFrontier {
  import opened Wrappers

  /** What a child node looks like. */
  datatype Shape = TextShape(data: string) | ElemShape(tag: string, inner: string)

  /** A child node: its identity and its looks. */
  datatype Child = Child(id: nat, shape: Shape)

  function Shapes(cs: seq<Child>): (s: seq<Shape>)
    ensures |s| == |cs| && forall i :: 0 <= i < |cs| ==> s[i] == cs[i].shape
  {
    seq(|cs|, i requires 0 <= i < |cs| => cs[i].shape)
  }

  function Ids(cs: seq<Child>): (s: seq<nat>)
    ensures |s| == |cs| && forall i :: 0 <= i < |cs| ==> s[i] == cs[i].id
  {
    seq(|cs|, i requires 0 <= i < |cs| => cs[i].id)
  }

  /** All but the last child. */
  function Closed(cs: seq<Child>): seq<Shape>
    requires cs != []
  {
    Shapes(cs)[..|cs| - 1]
  }

  /** Two texts, or two elements of one tag. */
  predicate SameKind(a: Shape, b: Shape) {
    (a.TextShape? && b.TextShape?) || (a.ElemShape? && b.ElemShape? && a.tag == b.tag)
  }

  /** The live child brought up to date: in place if it stays the same kind of node, else replaced. */
  function Converged(live: Child, fresher: Child): Child {
    match (live.shape, fresher.shape)
    case (TextShape(_), TextShape(_)) => live.(shape := fresher.shape)
    case (ElemShape(t, _), ElemShape(t', _)) => if t == t' then live.(shape := fresher.shape) else fresher
    case _ => fresher
  }

  class RawHtmlContainer {
    var children: seq<Child>
    // the entry of rawHtmlFrozenCounts
    var frozen: Option<nat>

    predicate Valid()
      reads this
    {
      frozen.Some? ==> |children| == frozen.value + 1 || (children == [] && frozen.value == 0)
    }

    constructor (cs: seq<Child>)
      ensures Valid() && children == cs && frozen.None?
    {
      children, frozen := cs, None;
    }

    /** applyRawHtmlFreezeFrame: the frozen children keep their identity, the newly closed ones are moved in
        before the live one, and the live one is brought up to date. The result is the fresh list exactly if
        the fresh list starts with what is frozen. */
    method FreezeFrame(fresher: seq<Child>) returns (ok: bool)
      requires Valid()
      modifies this
      ensures Valid()
      ensures ok <==> fresher == [] || (old(frozen).Some? && old(children) != [] && |fresher| > old(frozen).value)
      ensures !ok ==> children == old(children) && frozen == old(frozen)
      ensures ok && fresher == [] ==> children == [] && frozen == Some(0)
      ensures ok && fresher != [] ==>
                var n := old(frozen).value;
                && frozen == Some(|fresher| - 1) && frozen.value >= n && |children| == |fresher|
                && children[..n] == old(children)[..n]
                && Ids(children)[n..|fresher| - 1] == Ids(fresher)[n..|fresher| - 1]
                && (Shapes(children) == Shapes(fresher) <==> Shapes(old(children))[..n] == Shapes(fresher)[..n])
                && var live, last := old(children)[n], fresher[|fresher| - 1];
                   children[|fresher| - 1] == if SameKind(live.shape, last.shape) then Child(live.id, last.shape) else last
    {
      var eligible := |fresher| - 1;
      if eligible < 0 {
        children, frozen := [], Some(0);
        return true;
      }
      if frozen.None? { return false; }
      var n := frozen.value;
      if eligible < n || |children| != n + 1 { return false; }
      var live := children[n];
      for i := n to eligible
        invariant children == old(children)[..n] + fresher[n..i] + [live] && frozen == old(frozen)
      {
        assert fresher[n..i + 1] == fresher[n..i] + [fresher[i]];
        children := children[..i] + [fresher[i]] + children[i..];
      }
      children := children[..eligible] + [Converged(live, fresher[eligible])];
      frozen := Some(eligible);
      ok := true;
      SameIfPrefixSame(old(children), children, fresher, n);
    }

    lemma SameIfPrefixSame(before: seq<Child>, after: seq<Child>, fresher: seq<Child>, n: nat)
      requires n < |fresher| == |after| && n < |before| && after[..n] == before[..n]
      requires forall i :: n <= i < |after| ==> after[i].shape == fresher[i].shape
      ensures Shapes(after) == Shapes(fresher) <==> Shapes(before)[..n] == Shapes(fresher)[..n]
    {
      assert forall i :: 0 <= i < n ==> after[i] == after[..n][i] == before[..n][i] == before[i];
      if Shapes(after) == Shapes(fresher) {
        forall i | 0 <= i < n ensures Shapes(before)[i] == Shapes(fresher)[i] { assert Shapes(after)[i] == Shapes(fresher)[i]; }
      }
      if Shapes(before)[..n] == Shapes(fresher)[..n] {
        forall i | 0 <= i < |after| ensures Shapes(after)[i] == Shapes(fresher)[i] {
          if i < n { assert Shapes(before)[..n][i] == Shapes(fresher)[..n][i]; }
        }
      }
    }

    /** A replace of the container's content: by the frontier, or by the general morph, which makes the
        children look like the fresh ones (morphed gives the identities it chose), and a new baseline. */
    method Replace(fresher: seq<Child>, morphed: seq<Child>)
      requires Valid() && Shapes(morphed) == Shapes(fresher)
      modifies this
      ensures Valid() && frozen.Some?
      ensures !(old(frozen).Some? && old(children) != [] && 0 < old(frozen).value < |fresher|
                && Shapes(old(children))[..old(frozen).value] != Shapes(fresher)[..old(frozen).value])
              <==> Shapes(children) == Shapes(fresher)
    {
      var ok := FreezeFrame(fresher);
      if !ok {
        children := morphed;
        frozen := Some(if |children| == 0 then 0 else |children| - 1);
      } else if fresher != [] {
        assert old(frozen).value == 0 ==> Shapes(old(children))[..0] == Shapes(fresher)[..0];
      }
    }

    /** A stream of frames, each of which leaves the closed children of the one before as they are, ends in the
        last frame, however many frames took the short way. */
    method Follow(frames: seq<seq<Child>>, morphs: seq<seq<Child>>)
      requires Valid() && frozen.None? && |frames| == |morphs| > 0
      requires forall i :: 0 <= i < |frames| ==> Shapes(morphs[i]) == Shapes(frames[i])
      requires forall i :: 0 < i < |frames| && frames[i - 1] != [] ==> Closed(frames[i - 1]) <= Shapes(frames[i])
      modifies this
      ensures Valid() && Shapes(children) == Shapes(frames[|frames| - 1])
    {
      for i := 0 to |frames|
        invariant Valid() && (i == 0 ==> frozen.None?)
        invariant i > 0 ==> frozen.Some? && Shapes(children) == Shapes(frames[i - 1])
      {
        if i > 0 && frames[i - 1] != [] { assert Closed(frames[i - 1]) == Shapes(children)[..frozen.value]; }
        Replace(frames[i], morphs[i]);
      }
    }
  }

  // ---- Segments cut by the backend

  class PatchedRawHtml {
    // the children of the outer element, which comes with a seed
    var outer: Option<seq<Child>>
    // the frozen segments received since the last seed
    ghost var arrived: seq<Child>

    /** The frozen segments in the order of arrival, and at most one live child behind them. */
    ghost predicate Valid()
      reads this
    {
      outer.Some? ==> |arrived| <= |outer.value| <= |arrived| + 1 && outer.value[..|arrived|] == arrived
    }

    /** A container for an id not seen before. */
    constructor ()
      ensures Valid() && outer.None?
    {
      outer, arrived := None, [];
    }

    /** A seed rebuilds everything; its HTML may hold no element at all. */
    method Seed(cs: Option<seq<Child>>, frozenCount: nat)
      requires cs.Some? ==> frozenCount <= |cs.value| <= frozenCount + 1
      modifies this
      ensures Valid() && outer == cs && (cs.Some? ==> arrived == cs.value[..frozenCount])
    {
      outer, arrived := cs, if cs.Some? then cs.value[..frozenCount] else [];
    }

    /** patch_raw_html without a seed. A patch is carried out exactly if a seed came before and its count of frozen
        segments fits the children: the children that the count calls frozen stay, the new segments follow, then at
        most the live child. If the count is right these are all segments that arrived; a count that is one too low or
        too high, and fits because there is no live child or there is one, takes a frozen child for the live one or
        the reverse. */
    method Patch(segments: seq<Child>, frozenTotal: int, live: Option<Child>) returns (ok: bool)
      requires Valid()
      modifies this
      ensures var previous, before := frozenTotal - |segments|, old(outer);
              && (ok <==> before.Some? && 0 <= previous && (|before.value| == previous || |before.value| == previous + 1))
              && (ok ==> outer.Some? && arrived == old(arrived) + segments && -1 <= previous - |old(arrived)| <= 1
                         && |outer.value| == frozenTotal + (if live.Some? then 1 else 0)
                         && outer.value[..frozenTotal] == before.value[..previous] + segments
                         && (live.Some? ==>
                               outer.value[frozenTotal]
                               == if |before.value| > previous && SameKind(before.value[previous].shape, live.value.shape)
                                  then Child(before.value[previous].id, live.value.shape) else live.value))
              && (before.Some? && previous == |old(arrived)| ==> ok && Valid())
              && (ok && previous < |old(arrived)| ==> |before.value| == |old(arrived)|)
              && (ok && previous > |old(arrived)| ==> |before.value| == |old(arrived)| + 1)
      ensures !ok ==> outer == old(outer) && arrived == old(arrived)
    {
      if outer.None? { return false; }
      var previous, children := frozenTotal - |segments|, outer.value;
      if previous < 0 || (|children| != previous && |children| != previous + 1) { return false; }
      children := children[..previous] + segments + children[previous..];
      if |children| > frozenTotal {
        if live.Some? {
          children := children[..frozenTotal] + [Converged(children[frozenTotal], live.value)];
        } else {
          children := children[..frozenTotal];
        }
      } else if live.Some? {
        children := children + [live.value];
      }
      outer, arrived := Some(children), arrived + segments;
      ok := |children| == frozenTotal + if live.Some? then 1 else 0;
    }
  }
}
