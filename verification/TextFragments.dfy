/** Streamed text that fades in: chunks wait in animated spans behind their text node until the animations
    finish, in any order, yet the text stays complete and in order. */
module TextFragments {
  import opened Wrappers

  datatype Fragment = Fragment(chunk: string, element: nat, token: nat, done: bool)

  datatype Target = Target(textNode: nat, fragments: seq<Fragment>)

  function Chunks(fs: seq<Fragment>): string { if fs == [] then "" else fs[0].chunk + Chunks(fs[1..]) }

  lemma {:induction false} ChunksOfConcat(fs: seq<Fragment>, gs: seq<Fragment>)
    ensures Chunks(fs + gs) == Chunks(fs) + Chunks(gs)
  {
    if fs == [] {
      assert fs + gs == gs;
    } else {
      assert (fs + gs)[1..] == fs[1..] + gs;
      ChunksOfConcat(fs[1..], gs);
    }
  }

  lemma ChunksOfLast(fs: seq<Fragment>, f: Fragment)
    ensures Chunks(fs + [f]) == Chunks(fs) + f.chunk
  {
    ChunksOfConcat(fs, [f]);
    assert Chunks([f]) == f.chunk + Chunks([]);
  }

  // ---- Document order

  predicate NoDuplicates(leaves: seq<nat>) {
    forall i, j :: 0 <= i < j < |leaves| ==> leaves[i] != leaves[j]
  }

  function Position(leaves: seq<nat>, x: nat): (i: nat)
    requires x in leaves
    ensures i < |leaves| && leaves[i] == x
  {
    if leaves[0] == x then 0 else 1 + Position(leaves[1..], x)
  }

  function Elements(fs: seq<Fragment>): (s: seq<nat>)
    ensures |s| == |fs| && forall i :: 0 <= i < |fs| ==> s[i] == fs[i].element
  {
    seq(|fs|, i requires 0 <= i < |fs| => fs[i].element)
  }

  function InsertAfter(leaves: seq<nat>, anchor: nat, x: nat): (r: seq<nat>)
    requires anchor in leaves
    ensures forall n :: n in r ==> n in leaves || n == x
  {
    var i := Position(leaves, anchor);
    leaves[..i + 1] + [x] + leaves[i + 1..]
  }

  function Without(leaves: seq<nat>, x: nat): (r: seq<nat>)
    ensures forall n :: n in r ==> n in leaves
  {
    if x in leaves then var i := Position(leaves, x); leaves[..i] + leaves[i + 1..] else leaves
  }

  /** The nodes ns stand side by side, in order, whenever the first is in the document. */
  predicate Adjacent(leaves: seq<nat>, ns: seq<nat>) {
    ns != [] && ns[0] in leaves ==>
      var i := Position(leaves, ns[0]);
      i + |ns| <= |leaves| && leaves[i..i + |ns|] == ns
  }

  lemma AdjacentAt(leaves: seq<nat>, ns: seq<nat>, i: nat)
    requires NoDuplicates(leaves) && i + |ns| <= |leaves| && leaves[i..i + |ns|] == ns
    ensures Adjacent(leaves, ns)
  {
    if ns != [] { assert leaves[i] == ns[0]; }
  }

  lemma InsertNoDuplicates(leaves: seq<nat>, anchor: nat, x: nat)
    requires NoDuplicates(leaves) && anchor in leaves && x !in leaves
    ensures NoDuplicates(InsertAfter(leaves, anchor, x))
  {
    var r := InsertAfter(leaves, anchor, x);
    forall i, j | 0 <= i < j < |r| ensures r[i] != r[j] {
    }
  }

  lemma InsertKeepsOthers(leaves: seq<nat>, anchor: nat, x: nat, ns: seq<nat>)
    requires NoDuplicates(leaves) && anchor in leaves && x !in leaves && x !in ns && anchor !in ns && Adjacent(leaves, ns)
    ensures NoDuplicates(InsertAfter(leaves, anchor, x)) && Adjacent(InsertAfter(leaves, anchor, x), ns)
  {
    var r, p := InsertAfter(leaves, anchor, x), Position(leaves, anchor);
    InsertNoDuplicates(leaves, anchor, x);
    if ns != [] && ns[0] in r {
      assert ns[0] in leaves;
      var i := Position(leaves, ns[0]);
      var i' := if i <= p then i else i + 1;
      forall k | 0 <= k < |ns| ensures r[i' + k] == ns[k] {
        assert leaves[i..i + |ns|][k] == leaves[i + k];
      }
      assert r[i'..i' + |ns|] == ns;
      AdjacentAt(r, ns, i');
    }
  }

  lemma InsertExtends(leaves: seq<nat>, x: nat, ns: seq<nat>)
    requires NoDuplicates(leaves) && x !in leaves && ns != [] && ns[0] in leaves && Adjacent(leaves, ns)
    ensures ns[|ns| - 1] in leaves
    ensures NoDuplicates(InsertAfter(leaves, ns[|ns| - 1], x)) && Adjacent(InsertAfter(leaves, ns[|ns| - 1], x), ns + [x])
  {
    var i, n := Position(leaves, ns[0]), |ns|;
    assert leaves[i..i + n][n - 1] == leaves[i + n - 1];
    var r := InsertAfter(leaves, ns[n - 1], x);
    InsertNoDuplicates(leaves, ns[n - 1], x);
    assert Position(leaves, ns[n - 1]) == i + n - 1;
    forall k | 0 <= k <= n ensures r[i + k] == (ns + [x])[k] {
      if k < n { assert leaves[i..i + n][k] == leaves[i + k]; }
    }
    assert r[i..i + n + 1] == ns + [x];
    AdjacentAt(r, ns + [x], i);
  }

  lemma RemoveKeepsOthers(leaves: seq<nat>, x: nat, ns: seq<nat>)
    requires NoDuplicates(leaves) && x !in ns && Adjacent(leaves, ns)
    ensures NoDuplicates(Without(leaves, x)) && Adjacent(Without(leaves, x), ns)
  {
    var r := Without(leaves, x);
    if x in leaves && ns != [] && ns[0] in r {
      var p := Position(leaves, x);
      assert ns[0] in leaves;
      var i := Position(leaves, ns[0]);
      var i' := if i < p then i else i - 1;
      forall k | 0 <= k < |ns| ensures r[i' + k] == ns[k] {
        assert leaves[i..i + |ns|][k] == leaves[i + k];
      }
      assert r[i'..i' + |ns|] == ns;
      AdjacentAt(r, ns, i');
    }
  }

  lemma RemoveShortens(leaves: seq<nat>, ns: seq<nat>)
    requires NoDuplicates(leaves) && |ns| > 1 && Adjacent(leaves, ns)
    ensures NoDuplicates(Without(leaves, ns[1])) && Adjacent(Without(leaves, ns[1]), [ns[0]] + ns[2..])
  {
    var r, m := Without(leaves, ns[1]), [ns[0]] + ns[2..];
    if ns[0] in leaves {
      var i := Position(leaves, ns[0]);
      assert leaves[i..i + |ns|][1] == leaves[i + 1];
      assert Position(leaves, ns[1]) == i + 1;
      forall k | 0 <= k < |m| ensures r[i + k] == m[k] {
        if k > 0 { assert leaves[i..i + |ns|][k + 1] == leaves[i + k + 1]; }
      }
      assert r[i..i + |m|] == m;
      AdjacentAt(r, m, i);
    }
  }

  // ---- The live state

  datatype Owner = Owner(message: string, target: string)

  /** The two-level fragment index; the text nodes that mutations name; the document's text nodes and fragment
      spans in order, and what each reads; the text nodes inside a block still being revealed. Kept beside it:
      what each text node was sent in all, and the target each node was made for. */
  datatype State = State(index: map<string, map<string, Target>>, registry: map<Owner, nat>,
                         leaves: seq<nat>, data: map<nat, string>, revealing: map<string, set<nat>>, next: nat,
                         sent: map<nat, string>, owner: map<nat, Owner>)

  predicate Has(s: State, o: Owner) { o.message in s.index && o.target in s.index[o.message] }

  function At(s: State, o: Owner): Target
    requires Has(s, o)
  {
    s.index[o.message][o.target]
  }

  predicate Revealing(s: State, m: string, n: nat) { m in s.revealing && n in s.revealing[m] }

  function Nodes(x: Target): seq<nat> { [x.textNode] + Elements(x.fragments) }

  /** A span that reads its chunk. */
  predicate Spans(s: State, f: Fragment, o: Owner) {
    && f.element in s.data && s.data[f.element] == f.chunk && f.element !in s.sent && f.element < s.next
    && f.element in s.owner && s.owner[f.element] == o
  }

  predicate AllSpan(s: State, fs: seq<Fragment>, o: Owner) { forall f :: f in fs ==> Spans(s, f, o) }

  /** The target's text node, followed in the document by its fragments, spells all it was sent. */
  predicate Spelled(s: State, o: Owner, x: Target) {
    && x.textNode in s.data && x.textNode in s.sent && s.sent[x.textNode] == s.data[x.textNode] + Chunks(x.fragments)
    && x.textNode in s.owner && s.owner[x.textNode] == o && !Revealing(s, o.message, x.textNode)
    && AllSpan(s, x.fragments, o)
    && Adjacent(s.leaves, Nodes(x))
    && NoDuplicates(Nodes(x))
  }

  /** Some text sent to node n is still in fragments. */
  predicate Waits(s: State, n: nat) {
    n in s.owner && Has(s, s.owner[n]) && At(s, s.owner[n]).textNode == n
  }

  ghost predicate Known(s: State) {
    && NoDuplicates(s.leaves)
    && (forall n :: n in s.leaves ==> n < s.next)
    && (forall n :: n in s.sent ==> n in s.data && n in s.owner && n < s.next)
    && (forall o :: o in s.registry ==> s.registry[o] in s.sent && s.owner[s.registry[o]] == o)
  }

  ghost predicate AllSpelled(s: State) {
    forall o :: Has(s, o) ==> Spelled(s, o, At(s, o))
  }

  ghost predicate NothingLost(s: State) {
    forall n :: n in s.sent && !Waits(s, n) ==> n in s.data && s.data[n] == s.sent[n]
  }

  ghost predicate Valid(s: State) {
    && Known(s)
    && AllSpelled(s)
    && NothingLost(s)
  }

  predicate NoEmptyEntry(s: State) { forall m :: m in s.index ==> s.index[m] != map[] }

  /** No empty entry is kept, and a finished fragment waits only behind a running one. */
  ghost predicate Settled(s: State) {
    && NoEmptyEntry(s)
    && (forall o :: Has(s, o) ==> At(s, o).fragments != [] && !At(s, o).fragments[0].done)
  }

  function Put(s: State, o: Owner, x: Target): State {
    var ts := if o.message in s.index then s.index[o.message] else map[];
    s.(index := s.index[o.message := ts[o.target := x]])
  }

  function Drop(s: State, o: Owner): State
    requires Has(s, o)
  {
    var ts := s.index[o.message] - {o.target};
    s.(index := if ts == map[] then s.index - {o.message} else s.index[o.message := ts])
  }

  ghost predicate OthersAlike(s: State, r: State, o: Owner) {
    forall p :: p != o ==> (Has(r, p) <==> Has(s, p)) && (Has(s, p) ==> At(r, p) == At(s, p))
  }

  lemma PutIsLocal(s: State, o: Owner, x: Target)
    ensures var r := Put(s, o, x); Has(r, o) && At(r, o) == x && OthersAlike(s, r, o)
    ensures NoEmptyEntry(s) ==> NoEmptyEntry(Put(s, o, x))
  {
    assert o.target in Put(s, o, x).index[o.message];
  }

  lemma DropIsLocal(s: State, o: Owner)
    requires Has(s, o)
    ensures var r := Drop(s, o); !Has(r, o) && OthersAlike(s, r, o)
    ensures NoEmptyEntry(s) ==> NoEmptyEntry(Drop(s, o))
  {
    var ts := s.index[o.message] - {o.target};
    assert forall t :: t in s.index[o.message] && t != o.target ==> t in ts;
  }

  /** The first fragment's span is removed; its chunk is written to the text node, or given up. */
  function FirstOut(s: State, o: Owner, commit: bool): State
    requires Has(s, o) && At(s, o).fragments != [] && At(s, o).textNode in s.data
  {
    var x := At(s, o);
    var f, rest, n := x.fragments[0], x.fragments[1..], x.textNode;
    var text := if commit then s.data[n] + f.chunk else s.data[n];
    Put(s, o, x.(fragments := rest)).(leaves := Without(s.leaves, f.element), data := s.data[n := text],
                                      sent := s.sent[n := text + Chunks(rest)])
  }

  lemma OwnNodes(s: State, o: Owner, x: Target)
    requires Spelled(s, o, x)
    ensures forall n :: n in Nodes(x) ==> n in s.owner && s.owner[n] == o
  {
    forall n | n in Nodes(x) ensures n in s.owner && s.owner[n] == o {
      if n != x.textNode {
        var i :| 0 <= i < |x.fragments| && Elements(x.fragments)[i] == n;
        assert Spans(s, x.fragments[i], o);
      }
    }
  }

  lemma FirstOutOwn(s: State, o: Owner, commit: bool)
    requires Known(s) && Has(s, o) && Spelled(s, o, At(s, o)) && At(s, o).fragments != []
    ensures var r := FirstOut(s, o, commit);
            Has(r, o) && At(r, o) == At(s, o).(fragments := At(s, o).fragments[1..]) && Spelled(r, o, At(r, o))
  {
    var x := At(s, o);
    var r, y := FirstOut(s, o, commit), x.(fragments := x.fragments[1..]);
    PutIsLocal(s, o, y);
    RemoveShortens(s.leaves, Nodes(x));
    assert Nodes(y) == [x.textNode] + Nodes(x)[2..];
    assert Nodes(x)[1] == x.fragments[0].element;
    forall f | f in y.fragments ensures Spans(r, f, o) { assert f in x.fragments && Spans(s, f, o); }
  }

  lemma FirstOutOther(s: State, o: Owner, commit: bool, p: Owner)
    requires Known(s) && Has(s, o) && Spelled(s, o, At(s, o)) && At(s, o).fragments != []
    requires p != o && Has(s, p) && Spelled(s, p, At(s, p))
    ensures Spelled(FirstOut(s, o, commit), p, At(s, p))
  {
    var x, y, r := At(s, o), At(s, p), FirstOut(s, o, commit);
    assert x.fragments[0] in x.fragments && Spans(s, x.fragments[0], o);
    OwnNodes(s, p, y);
    RemoveKeepsOthers(s.leaves, x.fragments[0].element, Nodes(y));
    forall f | f in y.fragments ensures Spans(r, f, p) { assert Spans(s, f, p); }
  }

  lemma FirstOutSpelled(s: State, o: Owner, commit: bool)
    requires Known(s) && AllSpelled(s) && Has(s, o) && At(s, o).fragments != []
    ensures AllSpelled(FirstOut(s, o, commit))
  {
    var x, r := At(s, o), FirstOut(s, o, commit);
    PutIsLocal(s, o, x.(fragments := x.fragments[1..]));
    FirstOutOwn(s, o, commit);
    forall p | p != o && Has(r, p) ensures Spelled(r, p, At(r, p)) {
      assert Has(s, p) && At(r, p) == At(s, p);
      FirstOutOther(s, o, commit, p);
    }
  }

  lemma FirstOutLosesNothing(s: State, o: Owner, commit: bool)
    requires Known(s) && NothingLost(s) && Has(s, o) && At(s, o).fragments != [] && Spelled(s, o, At(s, o))
    ensures NothingLost(FirstOut(s, o, commit))
    ensures commit ==> FirstOut(s, o, commit).sent == s.sent
  {
    var x, r := At(s, o), FirstOut(s, o, commit);
    PutIsLocal(s, o, x.(fragments := x.fragments[1..]));
    var f, t := x.fragments[0], x.textNode;
    assert s.data[t] + (f.chunk + Chunks(x.fragments[1..])) == (s.data[t] + f.chunk) + Chunks(x.fragments[1..]);
    forall n | n in r.sent && !Waits(r, n) ensures n in r.data && r.data[n] == r.sent[n] {
      assert n != x.textNode;
      assert Waits(s, n) ==> Waits(r, n);
    }
  }

  lemma FirstOutKeeps(s: State, o: Owner, commit: bool)
    requires Valid(s) && Has(s, o) && At(s, o).fragments != []
    ensures var r := FirstOut(s, o, commit);
            && Valid(r) && Has(r, o) && At(r, o) == At(s, o).(fragments := At(s, o).fragments[1..]) && OthersAlike(s, r, o)
            && (NoEmptyEntry(s) ==> NoEmptyEntry(r)) && (commit ==> r.sent == s.sent)
  {
    assert Spelled(s, o, At(s, o));
    FirstOutSpelled(s, o, commit);
    FirstOutLosesNothing(s, o, commit);
    PutIsLocal(s, o, At(s, o).(fragments := At(s, o).fragments[1..]));
  }

  lemma DropKeeps(s: State, o: Owner)
    requires Valid(s) && Has(s, o) && At(s, o).fragments == []
    ensures Valid(Drop(s, o))
  {
    var r, x := Drop(s, o), At(s, o);
    assert Spelled(s, o, x);
    DropIsLocal(s, o);
    forall p | Has(r, p) ensures Spelled(r, p, At(r, p)) {
      assert Spelled(s, p, At(s, p));
      SpelledFrame(s, r, p, At(s, p));
    }
    forall n | n in r.sent && !Waits(r, n) ensures n in r.data && r.data[n] == r.sent[n] {
      if n != x.textNode { assert Waits(s, n) ==> Waits(r, n); }
    }
  }

  /** A target whose nodes are left alone stays spelled. */
  lemma SpelledFrame(s: State, r: State, p: Owner, y: Target)
    requires Spelled(s, p, y) && s.next <= r.next && Adjacent(r.leaves, Nodes(y))
    requires forall n :: n in Nodes(y) && n in s.data ==> n in r.data && r.data[n] == s.data[n]
    requires forall n :: n in Nodes(y) && n in s.owner ==> n in r.owner && r.owner[n] == s.owner[n]
    requires forall n :: n in Nodes(y) ==> (n in r.sent <==> n in s.sent) && (n in s.sent ==> r.sent[n] == s.sent[n])
    requires !Revealing(r, p.message, y.textNode)
    ensures Spelled(r, p, y)
  {
    assert Nodes(y)[0] == y.textNode;
    forall f | f in y.fragments ensures Spans(r, f, p) {
      assert Spans(s, f, p);
      var i :| 0 <= i < |y.fragments| && y.fragments[i] == f;
      assert Nodes(y)[i + 1] == f.element;
    }
  }

  // ---- New text

  /** Straight into the text node. */
  function Written(s: State, n: nat, text: string): State {
    s.(data := s.data[n := text], sent := s.sent[n := text])
  }

  lemma WrittenKeeps(s: State, n: nat, text: string)
    requires Valid(s) && n in s.sent && !Waits(s, n)
    ensures Valid(Written(s, n, text))
  {
    var r := Written(s, n, text);
    forall p | Has(r, p) ensures Spelled(r, p, At(r, p)) {
      assert Spelled(s, p, At(s, p));
      OwnNodes(s, p, At(s, p));
      ElementsNotSent(s, p, At(s, p));
      assert Waits(s, At(s, p).textNode);
      SpelledFrame(s, r, p, At(s, p));
    }
    forall m | m in r.sent && !Waits(r, m) ensures m in r.data && r.data[m] == r.sent[m] { assert !Waits(s, m); }
  }

  lemma ElementsNotSent(s: State, o: Owner, x: Target)
    requires Spelled(s, o, x)
    ensures forall n :: n in Elements(x.fragments) ==> n !in s.sent && n < s.next
  {
    forall n | n in Elements(x.fragments) ensures n !in s.sent && n < s.next {
      var i :| 0 <= i < |x.fragments| && Elements(x.fragments)[i] == n;
      assert Spans(s, x.fragments[i], o);
    }
  }

  function LastGrown(fs: seq<Fragment>, chunk: string): seq<Fragment>
    requires fs != []
  {
    var k := |fs| - 1;
    fs[..k] + [fs[k].(chunk := fs[k].chunk + chunk)]
  }

  lemma LastGrownReads(fs: seq<Fragment>, chunk: string)
    requires fs != []
    ensures Chunks(LastGrown(fs, chunk)) == Chunks(fs) + chunk
  {
    var k := |fs| - 1;
    assert fs[..k] + [fs[k]] == fs;
    ChunksOfLast(fs[..k], fs[k]);
    ChunksOfLast(fs[..k], fs[k].(chunk := fs[k].chunk + chunk));
    assert Chunks(fs[..k]) + (fs[k].chunk + chunk) == (Chunks(fs[..k]) + fs[k].chunk) + chunk;
  }

  lemma LastGrownElements(fs: seq<Fragment>, chunk: string)
    requires fs != [] && NoDuplicates(Elements(fs))
    ensures Elements(LastGrown(fs, chunk)) == Elements(fs)
    ensures forall f :: f in LastGrown(fs, chunk)[..|fs| - 1] ==> f in fs && f.element != fs[|fs| - 1].element
  {
    var k := |fs| - 1;
    forall f | f in LastGrown(fs, chunk)[..k] ensures f in fs && f.element != fs[k].element {
      var i :| 0 <= i < k && LastGrown(fs, chunk)[i] == f;
      assert Elements(fs)[i] != Elements(fs)[k];
    }
  }

  lemma LastGrownNodes(x: Target, chunk: string)
    requires x.fragments != [] && NoDuplicates(Nodes(x))
    ensures Nodes(x.(fragments := LastGrown(x.fragments, chunk))) == Nodes(x)
  {
    assert Nodes(x)[1..] == Elements(x.fragments);
    LastGrownElements(x.fragments, chunk);
  }

  /** Onto the last fragment. */
  function Coalesced(s: State, o: Owner, chunk: string): State
    requires Has(s, o) && At(s, o).fragments != [] && At(s, o).textNode in s.sent
  {
    var x := At(s, o);
    var f := x.fragments[|x.fragments| - 1];
    Put(s, o, x.(fragments := LastGrown(x.fragments, chunk))).(
      data := s.data[f.element := f.chunk + chunk], sent := s.sent[x.textNode := s.sent[x.textNode] + chunk])
  }

  lemma CoalescedOwn(s: State, o: Owner, chunk: string)
    requires Known(s) && Has(s, o) && Spelled(s, o, At(s, o)) && At(s, o).fragments != []
    ensures var r := Coalesced(s, o, chunk); Has(r, o) && Spelled(r, o, At(r, o))
  {
    var x, r := At(s, o), Coalesced(s, o, chunk);
    var fs, k := x.fragments, |x.fragments| - 1;
    PutIsLocal(s, o, x.(fragments := LastGrown(fs, chunk)));
    LastGrownReads(fs, chunk);
    LastGrownNodes(x, chunk);
    assert r.sent[x.textNode] == s.data[x.textNode] + (Chunks(fs) + chunk);
    assert fs[k] in fs && Spans(s, fs[k], o);
    assert Nodes(x)[1..] == Elements(fs);
    assert r.sent.Keys == s.sent.Keys;
    LastSpans(s, r, fs, o, chunk);
  }

  lemma LastSpans(s: State, r: State, fs: seq<Fragment>, o: Owner, chunk: string)
    requires fs != [] && NoDuplicates(Elements(fs)) && AllSpan(s, fs, o)
    requires var f := fs[|fs| - 1];
             r.data == s.data[f.element := f.chunk + chunk] && r.sent.Keys == s.sent.Keys && r.owner == s.owner && r.next == s.next
    ensures AllSpan(r, LastGrown(fs, chunk), o)
  {
    var k := |fs| - 1;
    LastGrownElements(fs, chunk);
    assert Spans(s, fs[k], o);
    forall g | g in LastGrown(fs, chunk) ensures Spans(r, g, o) {
      if g in LastGrown(fs, chunk)[..k] { assert Spans(s, g, o); }
    }
  }

  lemma CoalescedKeeps(s: State, o: Owner, chunk: string)
    requires Valid(s) && Has(s, o) && At(s, o).fragments != []
    ensures Valid(Coalesced(s, o, chunk))
  {
    var x, r := At(s, o), Coalesced(s, o, chunk);
    assert Spelled(s, o, x);
    CoalescedOwn(s, o, chunk);
    PutIsLocal(s, o, At(r, o));
    var f := x.fragments[|x.fragments| - 1];
    assert Spans(s, f, o);
    forall p | p != o && Has(r, p) ensures Spelled(r, p, At(r, p)) {
      assert Spelled(s, p, At(s, p));
      OwnNodes(s, p, At(s, p));
      SpelledFrame(s, r, p, At(s, p));
    }
    forall n | n in r.sent && !Waits(r, n) ensures n in r.data && r.data[n] == r.sent[n] { assert !Waits(s, n); }
  }

  /** A fragment of its own, after the last. */
  function Pushed(s: State, o: Owner, n: nat, chunk: string, token: nat): State
    requires n in s.sent && (Has(s, o) ==> Nodes(At(s, o))[|At(s, o).fragments|] in s.leaves) && (!Has(s, o) ==> n in s.leaves)
  {
    var x := if Has(s, o) then At(s, o) else Target(n, []);
    Put(s, o, x.(fragments := x.fragments + [Fragment(chunk, s.next, token, false)])).(
      leaves := InsertAfter(s.leaves, Nodes(x)[|x.fragments|], s.next),
      data := s.data[s.next := chunk], owner := s.owner[s.next := o], next := s.next + 1,
      sent := s.sent[n := s.sent[n] + chunk])
  }

  lemma PushedSpans(s: State, o: Owner, x: Target, chunk: string, token: nat)
    requires Known(s) && Spelled(s, o, x) && Nodes(x)[|x.fragments|] in s.leaves
    requires x == if Has(s, o) then At(s, o) else Target(x.textNode, [])
    ensures AllSpan(Pushed(s, o, x.textNode, chunk, token), x.fragments + [Fragment(chunk, s.next, token, false)], o)
  {
    var f, r := Fragment(chunk, s.next, token, false), Pushed(s, o, x.textNode, chunk, token);
    assert s.next !in r.sent;
    forall g | g in x.fragments ensures Spans(r, g, o) { assert Spans(s, g, o); }
  }

  lemma PushedPlace(s: State, o: Owner, x: Target)
    requires Known(s) && Spelled(s, o, x) && x.textNode in s.leaves
    ensures var last := Nodes(x)[|x.fragments|];
            && last in s.leaves && NoDuplicates(InsertAfter(s.leaves, last, s.next))
            && Adjacent(InsertAfter(s.leaves, last, s.next), Nodes(x) + [s.next]) && NoDuplicates(Nodes(x) + [s.next])
  {
    InsertExtends(s.leaves, s.next, Nodes(x));
    ElementsNotSent(s, o, x);
    forall i | 0 <= i < |Nodes(x)| ensures Nodes(x)[i] < s.next { if i > 0 { assert Nodes(x)[i] in Elements(x.fragments); } }
  }

  function Longer(s: State, x: Target, chunk: string, token: nat): Target {
    x.(fragments := x.fragments + [Fragment(chunk, s.next, token, false)])
  }

  lemma LongerReads(s: State, o: Owner, x: Target, chunk: string, token: nat)
    requires Spelled(s, o, x)
    ensures Nodes(Longer(s, x, chunk, token)) == Nodes(x) + [s.next]
    ensures s.sent[x.textNode] + chunk == s.data[x.textNode] + Chunks(Longer(s, x, chunk, token).fragments)
  {
    var f := Fragment(chunk, s.next, token, false);
    assert Elements(x.fragments + [f]) == Elements(x.fragments) + [s.next];
    ChunksOfLast(x.fragments, f);
    assert s.data[x.textNode] + (Chunks(x.fragments) + chunk) == (s.data[x.textNode] + Chunks(x.fragments)) + chunk;
  }

  lemma PushedOwn(s: State, o: Owner, x: Target, chunk: string, token: nat)
    requires Known(s) && Spelled(s, o, x) && x.textNode in s.leaves && x == if Has(s, o) then At(s, o) else Target(x.textNode, [])
    ensures Nodes(x)[|x.fragments|] in s.leaves
    ensures var r := Pushed(s, o, x.textNode, chunk, token);
            Spelled(r, o, Longer(s, x, chunk, token)) && NoDuplicates(r.leaves)
  {
    PushedPlace(s, o, x);
    PushedSpans(s, o, x, chunk, token);
    LongerReads(s, o, x, chunk, token);
  }

  lemma PushedOther(s: State, o: Owner, x: Target, chunk: string, token: nat, p: Owner)
    requires Known(s) && Spelled(s, o, x) && x.textNode in s.leaves && x == if Has(s, o) then At(s, o) else Target(x.textNode, [])
    requires p != o && Has(s, p) && Spelled(s, p, At(s, p)) && Nodes(x)[|x.fragments|] in s.leaves
    ensures Spelled(Pushed(s, o, x.textNode, chunk, token), p, At(s, p))
  {
    var r, y := Pushed(s, o, x.textNode, chunk, token), At(s, p);
    OwnNodes(s, o, x);
    OwnNodes(s, p, y);
    assert Nodes(x)[|x.fragments|] in Nodes(x);
    ElementsNotSent(s, p, y);
    InsertKeepsOthers(s.leaves, Nodes(x)[|x.fragments|], s.next, Nodes(y));
    SpelledFrame(s, r, p, y);
  }

  lemma PushedSpelled(s: State, o: Owner, x: Target, chunk: string, token: nat)
    requires Valid(s) && Spelled(s, o, x) && x.textNode in s.leaves && x == if Has(s, o) then At(s, o) else Target(x.textNode, [])
    requires Nodes(x)[|x.fragments|] in s.leaves
    ensures AllSpelled(Pushed(s, o, x.textNode, chunk, token))
  {
    var r := Pushed(s, o, x.textNode, chunk, token);
    PushedOwn(s, o, x, chunk, token);
    forall p | p != o && Has(r, p) ensures Spelled(r, p, At(r, p)) {
      assert Has(s, p) && At(r, p) == At(s, p) && Spelled(s, p, At(s, p));
      PushedOther(s, o, x, chunk, token, p);
    }
  }

  lemma PushedLosesNothing(s: State, o: Owner, x: Target, chunk: string, token: nat)
    requires Valid(s) && Spelled(s, o, x) && x.textNode in s.leaves && x == if Has(s, o) then At(s, o) else Target(x.textNode, [])
    requires Nodes(x)[|x.fragments|] in s.leaves
    ensures NothingLost(Pushed(s, o, x.textNode, chunk, token))
  {
    var r := Pushed(s, o, x.textNode, chunk, token);
    forall n | n in r.sent && !Waits(r, n) ensures n in r.data && r.data[n] == r.sent[n] {
      if n != x.textNode { assert Waits(s, n) ==> Waits(r, n); }
    }
  }

  lemma PushedKeeps(s: State, o: Owner, x: Target, chunk: string, token: nat)
    requires Valid(s) && Spelled(s, o, x) && x.textNode in s.leaves && x == if Has(s, o) then At(s, o) else Target(x.textNode, [])
    requires Nodes(x)[|x.fragments|] in s.leaves
    ensures Valid(Pushed(s, o, x.textNode, chunk, token))
  {
    PushedSpelled(s, o, x, chunk, token);
    PushedLosesNothing(s, o, x, chunk, token);
    PushedPlace(s, o, x);
  }

  // ---- Finished animations

  function Marked(fs: seq<Fragment>, el: nat): seq<Fragment> {
    if fs == [] then []
    else if fs[0].element == el then [fs[0].(done := true)] + fs[1..]
    else [fs[0]] + Marked(fs[1..], el)
  }

  /** What is left of fs once the finished fragments in front are written to the text node. */
  function Unfinished(fs: seq<Fragment>): (r: seq<Fragment>)
    ensures r != [] ==> !r[0].done
  {
    if fs != [] && fs[0].done then Unfinished(fs[1..]) else fs
  }

  lemma {:induction false} MarkedReads(fs: seq<Fragment>, el: nat)
    ensures Chunks(Marked(fs, el)) == Chunks(fs) && Elements(Marked(fs, el)) == Elements(fs)
    ensures forall g :: g in Marked(fs, el) ==> exists f :: f in fs && g == f.(done := g.done)
  {
    if fs != [] {
      MarkedReads(fs[1..], el);
      if fs[0].element != el {
        assert Elements(fs) == [fs[0].element] + Elements(fs[1..]);
        assert Marked(fs, el)[1..] == Marked(fs[1..], el);
        assert Elements(Marked(fs, el)) == [fs[0].element] + Elements(Marked(fs[1..], el));
        forall g | g in Marked(fs, el) ensures exists f :: f in fs && g == f.(done := g.done) {
          if g != fs[0] {
            assert g in Marked(fs[1..], el);
            var f :| f in fs[1..] && g == f.(done := g.done);
            assert f in fs;
          } else { assert fs[0] in fs; }
        }
      } else {
        assert Marked(fs, el)[1..] == fs[1..];
      }
    }
  }

  lemma MarkedKeeps(s: State, o: Owner, el: nat)
    requires Valid(s) && Has(s, o)
    ensures Valid(Put(s, o, At(s, o).(fragments := Marked(At(s, o).fragments, el))))
  {
    var x := At(s, o);
    var y := x.(fragments := Marked(x.fragments, el));
    var r := Put(s, o, y);
    PutIsLocal(s, o, y);
    MarkedReads(x.fragments, el);
    forall p | Has(r, p) ensures Spelled(r, p, At(r, p)) {
      assert Spelled(s, p, At(s, p));
      if p == o {
        forall g | g in y.fragments ensures Spans(r, g, o) {
          var f :| f in x.fragments && g == f.(done := g.done);
          assert Spans(s, f, o);
        }
      } else { SpelledFrame(s, r, p, At(s, p)); }
    }
    forall n | n in r.sent && !Waits(r, n) ensures n in r.data && r.data[n] == r.sent[n] { assert !Waits(s, n); }
  }

  // ---- Frames

  /** The mutations of a frame, as far as they concern text. */
  datatype Op =
    | Append(target: string, chunk: string)
    | SetText(target: string, text: string)
    | Insert(target: string, text: string, after: Option<string>, fades: bool)

  predicate AppendOnly(ops: seq<Op>) { forall i :: 0 <= i < |ops| ==> ops[i].Append? }

  /** A text node made by ops has taken over the name. */
  predicate Renamed(ops: seq<Op>, t: string) { exists i :: 0 <= i < |ops| && ops[i].Insert? && ops[i].target == t }

  /** What the named text node reads after op. */
  function Effect(text: string, op: Op): string {
    match op
    case Append(_, chunk) => text + chunk
    case SetText(_, value) => value
    case Insert(_, _, _, _) => text
  }

  /** What the text node that t names reads after ops. */
  function TextAfter(text: string, ops: seq<Op>, t: string): string {
    if ops == [] then text
    else
      var k := |ops| - 1;
      var before := TextAfter(text, ops[..k], t);
      if ops[k].target != t || Renamed(ops[..k], t) then before else Effect(before, ops[k])
  }

  /** What the text node that t stands for reads after ops, if there is one: the last one made for the name counts. */
  function ReadAfter(text: Option<string>, ops: seq<Op>, t: string): Option<string> {
    if ops == [] then text
    else
      var k := |ops| - 1;
      var before := ReadAfter(text, ops[..k], t);
      if ops[k].target != t then before
      else if ops[k].Insert? then Some(ops[k].text)
      else if before.Some? then Some(Effect(before.value, ops[k]))
      else None
  }

  /** A mutation can be executed if its name stands for a text node, or it makes one. */
  predicate Fits(names: set<Owner>, m: string, op: Op) { op.Insert? || Owner(m, op.target) in names }

  function NewName(m: string, op: Op): set<Owner> { if op.Insert? then {Owner(m, op.target)} else {} }

  /** How many mutations of a frame are executed: those before the first that cannot be. */
  function Extent(names: set<Owner>, m: string, ops: seq<Op>): (k: nat)
    ensures k <= |ops|
    decreases |ops|
  {
    if ops == [] || !Fits(names, m, ops[0]) then 0 else 1 + Extent(names + NewName(m, ops[0]), m, ops[1..])
  }

  /** The names that stand for a text node afterwards. */
  function NamesThen(names: set<Owner>, m: string, ops: seq<Op>): set<Owner>
    decreases |ops|
  {
    if ops == [] || !Fits(names, m, ops[0]) then names else NamesThen(names + NewName(m, ops[0]), m, ops[1..])
  }

  /** A new text node, after the text node a or at the end. */
  function Inserted(s: State, o: Owner, text: string, a: Option<nat>): State {
    var leaves := if a.Some? && a.value in s.leaves then InsertAfter(s.leaves, a.value, s.next) else s.leaves + [s.next];
    s.(registry := s.registry[o := s.next], leaves := leaves, data := s.data[s.next := text], next := s.next + 1,
       sent := s.sent[s.next := text], owner := s.owner[s.next := o])
  }

  lemma EndKeepsOthers(leaves: seq<nat>, x: nat, ns: seq<nat>)
    requires NoDuplicates(leaves) && x !in leaves && x !in ns && Adjacent(leaves, ns)
    ensures NoDuplicates(leaves + [x]) && Adjacent(leaves + [x], ns)
  {
    if ns != [] && ns[0] in leaves {
      var i := Position(leaves, ns[0]);
      assert (leaves + [x])[i..i + |ns|] == leaves[i..i + |ns|];
      AdjacentAt(leaves + [x], ns, i);
    }
  }

  lemma InsertedKeeps(s: State, o: Owner, text: string, a: Option<nat>)
    requires Valid(s) && (a.Some? ==> a.value in s.sent && !Waits(s, a.value))
    ensures Valid(Inserted(s, o, text, a))
  {
    var r := Inserted(s, o, text, a);
    var inside := a.Some? && a.value in s.leaves;
    if inside { InsertKeepsOthers(s.leaves, a.value, s.next, []); } else { EndKeepsOthers(s.leaves, s.next, []); }
    forall p | Has(r, p) ensures Spelled(r, p, At(r, p)) {
      var y := At(s, p);
      assert Spelled(s, p, y);
      ElementsNotSent(s, p, y);
      OwnNodes(s, p, y);
      assert Waits(s, y.textNode);
      if inside { InsertKeepsOthers(s.leaves, a.value, s.next, Nodes(y)); } else { EndKeepsOthers(s.leaves, s.next, Nodes(y)); }
      SpelledFrame(s, r, p, y);
    }
    forall n | n in r.sent && !Waits(r, n) ensures n in r.data && r.data[n] == r.sent[n] {
      if n != s.next { assert !Waits(s, n); }
    }
  }

  lemma RevealKeeps(s: State, revealing: map<string, set<nat>>)
    requires Valid(s)
    requires forall o :: Has(s, o) ==> !(o.message in revealing && At(s, o).textNode in revealing[o.message])
    ensures Valid(s.(revealing := revealing))
  {
    var r := s.(revealing := revealing);
    forall p | Has(r, p) ensures Spelled(r, p, At(r, p)) {
      assert Spelled(s, p, At(s, p));
      SpelledFrame(s, r, p, At(s, p));
    }
    forall n | n in r.sent && !Waits(r, n) ensures n in r.data && r.data[n] == r.sent[n] { assert !Waits(s, n); }
  }

  // ---- Settling and draining as a whole

  /** Every fragment out in turn, and the target released. */
  ghost function AllOut(s: State, o: Owner, commit: bool): State
    requires Valid(s) && Has(s, o)
    decreases |At(s, o).fragments|
  {
    if At(s, o).fragments == [] then Drop(s, o)
    else
      assert Spelled(s, o, At(s, o));
      FirstOutKeeps(s, o, commit);
      AllOut(FirstOut(s, o, commit), o, commit)
  }

  /** What does not concern target o is as it was; what concerns it is kept, or given up. */
  ghost predicate Apart(s: State, r: State, o: Owner, commit: bool) {
    && OthersAlike(s, r, o) && r.registry == s.registry && r.revealing == s.revealing && r.next == s.next && r.owner == s.owner
    && (NoEmptyEntry(s) ==> NoEmptyEntry(r))
    && r.sent.Keys == s.sent.Keys && (commit ==> r.sent == s.sent)
    && (!commit ==> forall n :: n in s.sent && n in s.data ==> n in r.data && r.data[n] == s.data[n])
  }

  lemma {:induction false} AllOutSettles(s: State, o: Owner, commit: bool)
    requires Valid(s) && Has(s, o)
    ensures var r := AllOut(s, o, commit); Valid(r) && !Has(r, o) && Apart(s, r, o, commit)
    decreases |At(s, o).fragments|
  {
    assert Spelled(s, o, At(s, o));
    if At(s, o).fragments == [] {
      DropKeeps(s, o);
      DropIsLocal(s, o);
    } else {
      FirstOutKeeps(s, o, commit);
      FirstOutApart(s, o, commit);
      AllOutSettles(FirstOut(s, o, commit), o, commit);
    }
  }

  lemma FirstOutApart(s: State, o: Owner, commit: bool)
    requires Valid(s) && Has(s, o) && At(s, o).fragments != []
    ensures Apart(s, FirstOut(s, o, commit), o, commit)
  {
    assert Spelled(s, o, At(s, o));
    FirstOutKeeps(s, o, commit);
  }

  /** The finished fragments in front out in turn, and the target released if none is left. */
  ghost function FrontOut(s: State, o: Owner): State
    requires Valid(s) && Has(s, o)
    decreases |At(s, o).fragments|
  {
    if At(s, o).fragments == [] then Drop(s, o)
    else if !At(s, o).fragments[0].done then s
    else
      assert Spelled(s, o, At(s, o));
      FirstOutKeeps(s, o, true);
      FrontOut(FirstOut(s, o, true), o)
  }

  lemma {:induction false} FrontOutDrains(s: State, o: Owner)
    requires Valid(s) && Has(s, o)
    ensures var r, left := FrontOut(s, o), Unfinished(At(s, o).fragments);
            && Valid(r) && Apart(s, r, o, true)
            && if left == [] then !Has(r, o) else Has(r, o) && At(r, o) == At(s, o).(fragments := left)
    decreases |At(s, o).fragments|
  {
    assert Spelled(s, o, At(s, o));
    if At(s, o).fragments == [] {
      DropKeeps(s, o);
      DropIsLocal(s, o);
    } else if At(s, o).fragments[0].done {
      FirstOutKeeps(s, o, true);
      FirstOutApart(s, o, true);
      FrontOutDrains(FirstOut(s, o, true), o);
    }
  }

  /** The animation of span el ends. */
  ghost function Finished(s: State, o: Owner, el: nat): State
    requires Valid(s)
  {
    if !Has(s, o) then s
    else
      MarkedKeeps(s, o, el);
      FrontOut(Put(s, o, At(s, o).(fragments := Marked(At(s, o).fragments, el))), o)
  }

  /** A fragment is written once all before it have finished, and not earlier; nothing else moves. */
  lemma FinishedKeeps(s: State, o: Owner, el: nat)
    requires Valid(s) && Settled(s)
    ensures var r := Finished(s, o, el);
            && Valid(r) && Settled(r) && Apart(s, r, o, true)
            && (Has(s, o) ==>
                  var left := Unfinished(Marked(At(s, o).fragments, el));
                  if left == [] then !Has(r, o) else Has(r, o) && At(r, o) == At(s, o).(fragments := left))
  {
    if Has(s, o) {
      var y := At(s, o).(fragments := Marked(At(s, o).fragments, el));
      MarkedKeeps(s, o, el);
      PutIsLocal(s, o, y);
      FrontOutDrains(Put(s, o, y), o);
      var r := Finished(s, o, el);
      forall p | Has(r, p) ensures At(r, p).fragments != [] && !At(r, p).fragments[0].done {
        if p != o { assert Has(s, p); }
      }
    }
  }

  // ---- Animations end in any order

  /** The fragment is done, or one of the animations ended is its own. */
  predicate Over(f: Fragment, ended: seq<nat>) { f.done || f.element in ended }

  /** The fragments, each done if it is over. */
  function Ended(fs: seq<Fragment>, ended: seq<nat>): (r: seq<Fragment>)
    ensures |r| == |fs|
  {
    seq(|fs|, i requires 0 <= i < |fs| => fs[i].(done := Over(fs[i], ended)))
  }

  predicate AllDone(fs: seq<Fragment>) { forall i :: 0 <= i < |fs| ==> fs[i].done }

  /** Of fs, those from the first that is not over are left; each knows whether it is over itself. */
  predicate Remain(fs: seq<Fragment>, ended: seq<nat>, left: seq<Fragment>) {
    |left| <= |fs| &&
    var all, k := Ended(fs, ended), |fs| - |left|;
    left == all[k..] && AllDone(all[..k]) && (left != [] ==> !left[0].done)
  }

  lemma {:induction false} MarkedAt(fs: seq<Fragment>, el: nat)
    requires NoDuplicates(Elements(fs))
    ensures Marked(fs, el) == Ended(fs, [el])
  {
    if fs != [] {
      var e := Elements(fs);
      assert Elements(fs[1..]) == e[1..];
      if fs[0].element == el {
        forall i | 1 <= i < |fs| ensures fs[i].element != el { assert e[0] != e[i]; }
      } else {
        MarkedAt(fs[1..], el);
        assert Ended(fs, [el])[1..] == Ended(fs[1..], [el]);
      }
    }
  }

  lemma {:induction false} UnfinishedIs(fs: seq<Fragment>)
    ensures var k := |fs| - |Unfinished(fs)|; 0 <= k && Unfinished(fs) == fs[k..] && AllDone(fs[..k])
  {
    if fs != [] && fs[0].done {
      UnfinishedIs(fs[1..]);
      var k := |fs| - |Unfinished(fs)|;
      assert fs[..k] == [fs[0]] + fs[1..][..k - 1];
    }
  }

  lemma EndedTwice(fs: seq<Fragment>, ended: seq<nat>, el: nat)
    ensures Ended(Ended(fs, ended), [el]) == Ended(fs, ended + [el])
  {}

  lemma EndedSlice(fs: seq<Fragment>, ended: seq<nat>, k: nat)
    requires k <= |fs|
    ensures Ended(fs[k..], ended) == Ended(fs, ended)[k..] && Ended(fs[..k], ended) == Ended(fs, ended)[..k]
    ensures AllDone(fs[..k]) ==> AllDone(Ended(fs, ended)[..k])
  {}

  lemma DoneConcat(xs: seq<Fragment>, ys: seq<Fragment>)
    requires AllDone(xs) && AllDone(ys)
    ensures AllDone(xs + ys)
  {}

  lemma OneMoreOver(fs: seq<Fragment>, ended: seq<nat>, left: seq<Fragment>, el: nat)
    requires Remain(fs, ended, left) && NoDuplicates(Elements(left))
    ensures Remain(fs, ended + [el], Unfinished(Marked(left, el)))
  {
    var all, all', k := Ended(fs, ended), Ended(fs, ended + [el]), |fs| - |left|;
    MarkedAt(left, el);
    EndedTwice(fs, ended, el);
    EndedSlice(all, [el], k);
    UnfinishedIs(all'[k..]);
    hide Marked, Unfinished, NoDuplicates, Elements, Ended, AllDone;
    var d := |left| - |Unfinished(all'[k..])|;
    assert all'[k..][d..] == all'[k + d..];
    assert all'[..k + d] == all'[..k] + all'[k..][..d];
    DoneConcat(all'[..k], all'[k..][..d]);
  }

  /** The animations of these spans end, one after the other. */
  ghost function EndAll(s: State, o: Owner, els: seq<nat>): (r: State)
    requires Valid(s) && Settled(s)
    ensures Valid(r) && Settled(r)
  {
    if els == [] then s
    else
      var n := |els| - 1;
      var r := EndAll(s, o, els[..n]);
      FinishedKeeps(r, o, els[n]);
      Finished(r, o, els[n])
  }

  lemma ElementsDiffer(s: State, o: Owner)
    requires Valid(s) && Has(s, o)
    ensures NoDuplicates(Elements(At(s, o).fragments))
  {
    assert Spelled(s, o, At(s, o));
    assert Elements(At(s, o).fragments) == Nodes(At(s, o))[1..];
  }

  lemma NoneEnded(fs: seq<Fragment>)
    ensures Ended(fs, []) == fs
  {}

  lemma {:induction false} EndedRemain(s: State, o: Owner, els: seq<nat>)
    requires Valid(s) && Settled(s) && Has(s, o)
    ensures var r := EndAll(s, o, els);
            && r.sent == s.sent && r.owner == s.owner
            && Remain(At(s, o).fragments, els, if Has(r, o) then At(r, o).fragments else [])
            && (Has(r, o) ==> At(r, o).textNode == At(s, o).textNode)
  {
    hide Valid, Marked, Unfinished, NoDuplicates, Elements, Ended;
    var fs := At(s, o).fragments;
    if els == [] {
      NoneEnded(fs);
    } else {
      var n := |els| - 1;
      var q := EndAll(s, o, els[..n]);
      EndedRemain(s, o, els[..n]);
      FinishedKeeps(q, o, els[n]);
      assert els == els[..n] + [els[n]];
      if Has(q, o) {
        ElementsDiffer(q, o);
        OneMoreOver(fs, els[..n], At(q, o).fragments, els[n]);
      } else {
        EndedTwice(fs, els[..n], els[n]);
        EndedSlice(Ended(fs, els[..n]), [els[n]], |fs|);
      }
    }
  }

  lemma RemainsWhile(fs: seq<Fragment>, ended: seq<nat>, left: seq<Fragment>)
    requires Remain(fs, ended, left)
    ensures left == [] <==> forall f :: f in fs ==> Over(f, ended)
  {
    if left == [] {
      forall f | f in fs ensures Over(f, ended) {
        var i :| 0 <= i < |fs| && fs[i] == f;
        assert Ended(fs, ended)[..|fs|][i].done;
      }
    } else {
      assert left[0] == Ended(fs, ended)[|fs| - |left|];
    }
  }

  /** Once animations ended, in whatever order, the text node reads all that it was sent exactly when every fragment's
      has; until then what it reads and the fragments left, from the first whose animation still runs, spell it. */
  lemma EndsAsSent(s: State, o: Owner, els: seq<nat>)
    requires Valid(s) && Settled(s) && Has(s, o)
    ensures var r, x := EndAll(s, o, els), At(s, o);
            && (!Has(r, o) <==> forall f :: f in x.fragments ==> Over(f, els))
            && x.textNode in r.data && x.textNode in s.sent
            && if !Has(r, o) then r.data[x.textNode] == s.sent[x.textNode]
               else r.data[x.textNode] + Chunks(At(r, o).fragments) == s.sent[x.textNode]
  {
    var r, fs := EndAll(s, o, els), At(s, o).fragments;
    EndedRemain(s, o, els);
    assert Spelled(s, o, At(s, o));
    RemainsWhile(fs, els, if Has(r, o) then At(r, o).fragments else []);
    if Has(r, o) {
      assert Spelled(r, o, At(r, o));
    } else {
      assert !Waits(r, At(s, o).textNode);
    }
  }

  // ---- appendStreamTextFragment

  ghost function Quieted(s: State, o: Owner): State
    requires Valid(s)
  {
    if Has(s, o) then AllOut(s, o, true) else s
  }

  lemma QuietedKeeps(s: State, o: Owner)
    requires Valid(s)
    ensures var r := Quieted(s, o); Valid(r) && !Has(r, o) && Apart(s, r, o, true)
    ensures Settled(s) ==> Settled(Quieted(s, o))
  {
    if Has(s, o) {
      AllOutSettles(s, o, true);
      if Settled(s) { SettledFurther(s, Quieted(s, o), o); }
    }
  }

  lemma SettledByIndex(s: State, r: State)
    requires Settled(s) && r.index == s.index
    ensures Settled(r)
  {
    forall p | Has(r, p) ensures At(r, p).fragments != [] && !At(r, p).fragments[0].done { assert Has(s, p); }
  }

  lemma SettledPut(s: State, o: Owner, x: Target)
    requires Settled(s) && x.fragments != [] && !x.fragments[0].done
    ensures Settled(Put(s, o, x)) && OthersAlike(s, Put(s, o, x), o)
  {
    PutIsLocal(s, o, x);
    var r := Put(s, o, x);
    forall p | Has(r, p) ensures At(r, p).fragments != [] && !At(r, p).fragments[0].done { if p != o { assert Has(s, p); } }
  }

  /** All that is pending for the target, then the chunk, straight into text node n. */
  ghost function AtOnce(s: State, o: Owner, n: nat, chunk: string): State
    requires Valid(s) && n in s.sent
  {
    QuietedKeeps(s, o);
    var r := Quieted(s, o);
    Written(r, n, r.data[n] + chunk)
  }

  lemma AtOnceKeeps(s: State, o: Owner, n: nat, chunk: string)
    requires Valid(s) && Settled(s) && n in s.sent && s.owner[n] == o
    ensures Grown(s, AtOnce(s, o, n, chunk), o, n, chunk) && !Has(AtOnce(s, o, n, chunk), o)
  {
    QuietedKeeps(s, o);
    var r := Quieted(s, o);
    assert !Waits(r, n);
    WrittenKeeps(r, n, r.data[n] + chunk);
    SettledByIndex(r, AtOnce(s, o, n, chunk));
  }

  /** Text node n was sent chunk, and nothing else changed but how its target shows it. */
  ghost predicate Grown(s: State, r: State, o: Owner, n: nat, chunk: string) {
    && Valid(r) && Settled(r) && OthersAlike(s, r, o)
    && r.registry == s.registry && r.revealing == s.revealing && s.next <= r.next
    && n in s.sent && r.sent == s.sent[n := s.sent[n] + chunk]
    && (forall k :: k in s.owner && k < s.next ==> k in r.owner && r.owner[k] == s.owner[k])
  }

  ghost function Appended(s: State, o: Owner, n: nat, chunk: string, token: nat, motion: bool): State
    requires Valid(s) && n in s.sent && s.owner[n] == o
  {
    if chunk == "" then s
    else if Revealing(s, o.message, n) then Written(s, n, s.data[n] + chunk)
    else
      QuietedKeeps(s, o);
      Arrived(if Has(s, o) && At(s, o).textNode != n then AllOut(s, o, true) else s, o, n, chunk, token, motion)
  }

  /** No other text node's fragments stand under the target's name. */
  ghost function Arrived(s: State, o: Owner, n: nat, chunk: string, token: nat, motion: bool): State
    requires Valid(s) && n in s.sent && (Has(s, o) ==> At(s, o).textNode == n)
  {
    var x := if Has(s, o) then At(s, o) else Target(n, []);
    var k := |x.fragments|;
    if n !in s.leaves || Nodes(x)[k] !in s.leaves then AtOnce(s, o, n, chunk)
    else if k > 0 && x.fragments[k - 1].token == token && !x.fragments[k - 1].done then Coalesced(s, o, chunk)
    else if !motion then AtOnce(s, o, n, chunk)
    else Pushed(s, o, n, chunk, token)
  }

  lemma CoalescedGrown(s: State, o: Owner, chunk: string)
    requires Valid(s) && Settled(s) && Has(s, o)
    ensures Grown(s, Coalesced(s, o, chunk), o, At(s, o).textNode, chunk)
  {
    CoalescedKeeps(s, o, chunk);
    var x := At(s, o);
    assert Spelled(s, o, x);
    var y := x.(fragments := LastGrown(x.fragments, chunk));
    SettledPut(s, o, y);
    SettledByIndex(Put(s, o, y), Coalesced(s, o, chunk));
  }

  lemma PushedGrown(s: State, o: Owner, x: Target, chunk: string, token: nat)
    requires Valid(s) && Settled(s) && Spelled(s, o, x) && x.textNode in s.leaves
    requires x == if Has(s, o) then At(s, o) else Target(x.textNode, [])
    requires Nodes(x)[|x.fragments|] in s.leaves
    ensures Grown(s, Pushed(s, o, x.textNode, chunk, token), o, x.textNode, chunk)
  {
    PushedKeeps(s, o, x, chunk, token);
    var y := x.(fragments := x.fragments + [Fragment(chunk, s.next, token, false)]);
    SettledPut(s, o, y);
    SettledByIndex(Put(s, o, y), Pushed(s, o, x.textNode, chunk, token));
  }

  lemma RevealingGrown(s: State, o: Owner, n: nat, chunk: string)
    requires Valid(s) && Settled(s) && n in s.sent && s.owner[n] == o && Revealing(s, o.message, n)
    ensures Grown(s, Written(s, n, s.data[n] + chunk), o, n, chunk)
  {
    assert Has(s, o) ==> Spelled(s, o, At(s, o));
    WrittenKeeps(s, n, s.data[n] + chunk);
    SettledByIndex(s, Written(s, n, s.data[n] + chunk));
  }

  lemma LoneTarget(s: State, o: Owner, n: nat)
    requires Valid(s) && n in s.sent && s.owner[n] == o && !Has(s, o) && !Revealing(s, o.message, n)
    ensures Spelled(s, o, Target(n, []))
  {
    assert !Waits(s, n);
    assert Nodes(Target(n, [])) == [n];
    if n in s.leaves { AdjacentAt(s.leaves, [n], Position(s.leaves, n)); }
  }

  lemma ArrivedGrown(s: State, o: Owner, n: nat, chunk: string, token: nat, motion: bool)
    requires Valid(s) && Settled(s) && n in s.sent && s.owner[n] == o && !Revealing(s, o.message, n)
    requires Has(s, o) ==> At(s, o).textNode == n
    ensures Grown(s, Arrived(s, o, n, chunk, token, motion), o, n, chunk)
  {
    var x := if Has(s, o) then At(s, o) else Target(n, []);
    var k := |x.fragments|;
    if !Has(s, o) { LoneTarget(s, o, n); }
    if n !in s.leaves || Nodes(x)[k] !in s.leaves {
      AtOnceKeeps(s, o, n, chunk);
    } else if k > 0 && x.fragments[k - 1].token == token && !x.fragments[k - 1].done {
      CoalescedGrown(s, o, chunk);
    } else if !motion {
      AtOnceKeeps(s, o, n, chunk);
    } else {
      PushedGrown(s, o, x, chunk, token);
    }
  }

  /** Whatever way the chunk takes, the text node and its fragments spell exactly one chunk more. */
  lemma AppendedGrown(s: State, o: Owner, n: nat, chunk: string, token: nat, motion: bool)
    requires Valid(s) && Settled(s) && n in s.sent && s.owner[n] == o
    ensures Grown(s, Appended(s, o, n, chunk, token, motion), o, n, chunk)
  {
    if chunk == "" {
      assert s.sent[n] + chunk == s.sent[n];
    } else if Revealing(s, o.message, n) {
      RevealingGrown(s, o, n, chunk);
    } else {
      QuietedKeeps(s, o);
      var r := if Has(s, o) && At(s, o).textNode != n then AllOut(s, o, true) else s;
      ArrivedGrown(r, o, n, chunk, token, motion);
    }
  }

  class StreamText {
    var index: map<string, map<string, Target>>
    var registry: map<Owner, nat>
    var leaves: seq<nat>
    var data: map<nat, string>
    var revealing: map<string, set<nat>>
    var next: nat
    var nextToken: nat
    ghost var sent: map<nat, string>
    ghost var owner: map<nat, Owner>

    ghost function Now(): State
      reads this
    {
      State(index, registry, leaves, data, revealing, next, sent, owner)
    }

    predicate Holds(o: Owner)
      reads `index
    {
      o.message in index && o.target in index[o.message]
    }

    constructor ()
      ensures Valid(Now()) && Settled(Now()) && sent == map[]
    {
      index, registry, leaves, data, revealing := map[], map[], [], map[], map[];
      next, nextToken, sent, owner := 0, 0, map[], map[];
    }

    method Store(o: Owner, x: Target)
      modifies `index
      ensures Now() == Put(old(Now()), o, x)
    {
      var ts := if o.message in index then index[o.message] else map[];
      index := index[o.message := ts[o.target := x]];
    }

    /** releaseTargetIfEmpty */
    method Release(o: Owner)
      requires Holds(o)
      modifies `index
      ensures Now() == Drop(old(Now()), o)
    {
      var ts := index[o.message] - {o.target};
      if ts == map[] {
        index := index - {o.message};
      } else {
        index := index[o.message := ts];
      }
    }

    method TakeFirst(o: Owner, commit: bool)
      requires Valid(Now()) && Has(Now(), o) && At(Now(), o).fragments != []
      modifies `index, `leaves, `data, `sent
      ensures Now() == FirstOut(old(Now()), o, commit)
    {
      var x := index[o.message][o.target];
      assert Spelled(Now(), o, x);
      var f := x.fragments[0];
      var text := if commit then data[x.textNode] + f.chunk else data[x.textNode];
      Store(o, x.(fragments := x.fragments[1..]));
      leaves := Without(leaves, f.element);
      data := data[x.textNode := text];
      sent := sent[x.textNode := text + Chunks(x.fragments[1..])];
    }

    /** settleTarget: all that is pending is written to the text node, or all of it is given up. */
    method Settle(o: Owner, commit: bool)
      requires Valid(Now()) && Has(Now(), o)
      modifies `index, `leaves, `data, `sent
      ensures Now() == AllOut(old(Now()), o, commit)
    {
      while index[o.message][o.target].fragments != []
        invariant Valid(Now()) && Has(Now(), o) && AllOut(Now(), o, commit) == AllOut(old(Now()), o, commit)
        decreases |index[o.message][o.target].fragments|
      {
        FirstOutKeeps(Now(), o, commit);
        TakeFirst(o, commit);
      }
      Release(o);
    }

    /** drainCompletedFragments */
    method Drain(o: Owner)
      requires Valid(Now()) && Has(Now(), o)
      modifies `index, `leaves, `data, `sent
      ensures Now() == FrontOut(old(Now()), o)
    {
      while index[o.message][o.target].fragments != [] && index[o.message][o.target].fragments[0].done
        invariant Valid(Now()) && Has(Now(), o) && FrontOut(Now(), o) == FrontOut(old(Now()), o)
        decreases |index[o.message][o.target].fragments|
      {
        FirstOutKeeps(Now(), o, true);
        TakeFirst(o, true);
      }
      if index[o.message][o.target].fragments == [] { Release(o); }
    }

    /** An animation ends, in whatever order: its fragment is written once all before it are. */
    method Finish(o: Owner, element: nat)
      requires Valid(Now())
      modifies `index, `leaves, `data, `sent
      ensures Now() == Finished(old(Now()), o, element)
    {
      if !Holds(o) { return; }
      var x := index[o.message][o.target];
      MarkedKeeps(Now(), o, element);
      PutIsLocal(Now(), o, x.(fragments := Marked(x.fragments, element)));
      Store(o, x.(fragments := Marked(x.fragments, element)));
      Drain(o);
    }

    /** appendStreamTextFragment */
    method Append(o: Owner, n: nat, chunk: string, token: nat, motion: bool, animates: bool)
      requires Valid(Now()) && n in sent && owner[n] == o
      modifies `index, `leaves, `data, `next, `sent, `owner
      ensures Now() == Appended(old(Now()), o, n, chunk, token, motion && animates)
    {
      if chunk == "" { return; }
      if o.message in revealing && n in revealing[o.message] {
        data := data[n := data[n] + chunk];
        sent := sent[n := data[n]];
        return;
      }
      QuietedKeeps(Now(), o);
      if Holds(o) && index[o.message][o.target].textNode != n { Settle(o, true); }
      Arrive(o, n, chunk, token, motion, animates);
    }

    /** The rest of it, once no other text node's fragments stand under the target's name. */
    method Arrive(o: Owner, n: nat, chunk: string, token: nat, motion: bool, animates: bool)
      requires Valid(Now()) && n in sent && (Has(Now(), o) ==> At(Now(), o).textNode == n)
      modifies `index, `leaves, `data, `next, `sent, `owner
      ensures Now() == Arrived(old(Now()), o, n, chunk, token, motion && animates)
    {
      var x := if Holds(o) then index[o.message][o.target] else Target(n, []);
      var k := |x.fragments|;
      if n !in leaves || Nodes(x)[k] !in leaves {
        WriteAtOnce(o, n, chunk);
      } else if k > 0 && x.fragments[k - 1].token == token && !x.fragments[k - 1].done {
        Coalesce(o, chunk);
      } else if !motion || !animates {
        WriteAtOnce(o, n, chunk);
      } else {
        Push(o, n, chunk, token);
      }
    }

    method Coalesce(o: Owner, chunk: string)
      requires Holds(o) && index[o.message][o.target].fragments != [] && index[o.message][o.target].textNode in sent
      modifies `index, `data, `sent
      ensures Now() == Coalesced(old(Now()), o, chunk)
    {
      var x := index[o.message][o.target];
      var f := x.fragments[|x.fragments| - 1];
      Store(o, x.(fragments := LastGrown(x.fragments, chunk)));
      data := data[f.element := f.chunk + chunk];
      sent := sent[x.textNode := sent[x.textNode] + chunk];
    }

    method Push(o: Owner, n: nat, chunk: string, token: nat)
      requires n in sent && Nodes(if Holds(o) then index[o.message][o.target] else Target(n, []))[
                 if Holds(o) then |index[o.message][o.target].fragments| else 0] in leaves
      modifies `index, `leaves, `data, `next, `sent, `owner
      ensures Now() == Pushed(old(Now()), o, n, chunk, token)
    {
      var x := if Holds(o) then index[o.message][o.target] else Target(n, []);
      Store(o, x.(fragments := x.fragments + [Fragment(chunk, next, token, false)]));
      leaves := InsertAfter(leaves, Nodes(x)[|x.fragments|], next);
      data, owner, sent := data[next := chunk], owner[next := o], sent[n := sent[n] + chunk];
      next := next + 1;
    }

    method WriteAtOnce(o: Owner, n: nat, chunk: string)
      requires Valid(Now()) && n in sent
      modifies `index, `leaves, `data, `sent
      ensures Now() == AtOnce(old(Now()), o, n, chunk)
    {
      QuietedKeeps(Now(), o);
      if Holds(o) { Settle(o, true); }
      data := data[n := data[n] + chunk];
      sent := sent[n := data[n]];
    }

    /** flushStreamTextFragments and discardStreamTextFragments */
    method Empty(m: string, commit: bool)
      requires Valid(Now()) && Settled(Now())
      modifies `index, `leaves, `data, `sent
      ensures Valid(Now()) && Settled(Now()) && m !in index && Emptied(old(Now()), Now(), m, commit)
      ensures forall n :: n in sent && n in owner && owner[n].message == m ==> n in data && data[n] == sent[n]
    {
      if m in index {
        var ts := index[m].Keys;
        while ts != {}
          invariant Valid(Now()) && Settled(Now()) && Emptied(old(Now()), Now(), m, commit) && Holding(Now(), m, ts)
        {
          var t :| t in ts;
          assert Has(Now(), Owner(m, t));
          EmptiedFurther(old(Now()), Now(), m, t, ts, commit);
          Settle(Owner(m, t), commit);
          ts := ts - {t};
        }
      }
      NothingWaits(Now(), m);
    }

    /** Text node n, for which nothing is pending, reads text from now on. */
    method Write(n: nat, text: string)
      requires Valid(Now()) && Settled(Now()) && n in sent && !Waits(Now(), n)
      modifies `data, `sent
      ensures Valid(Now()) && Settled(Now()) && Now() == Written(old(Now()), n, text)
    {
      WrittenKeeps(Now(), n, text);
      SettledByIndex(Now(), Written(Now(), n, text));
      data, sent := data[n := text], sent[n := text];
    }

    /** A new text node for target o. */
    method MakeText(o: Owner, text: string, after: Option<string>)
      requires Valid(Now()) && Settled(Now()) && o.message !in index
      modifies `registry, `leaves, `data, `next, `sent, `owner
      ensures Valid(Now()) && Settled(Now()) && Now() == Inserted(old(Now()), o, text, old(NodeOf(o.message, after)))
    {
      ghost var s := Now();
      var a := NodeOf(o.message, after);
      if a.Some? { assert !Waits(Now(), a.value); }
      InsertedKeeps(Now(), o, text, a);
      leaves := if a.Some? && a.value in leaves then InsertAfter(leaves, a.value, next) else leaves + [next];
      registry, data, sent, owner := registry[o := next], data[next := text], sent[next := text], owner[next := o];
      next := next + 1;
      SettledByIndex(s, Now());
    }

    function NodeOf(m: string, target: Option<string>): Option<nat>
      reads `registry
    {
      if target.Some? && Owner(m, target.value) in registry then Some(registry[Owner(m, target.value)]) else None
    }

    /** animateStreamBlock: the new text node fades in with its block. */
    method Reveal(m: string, n: nat)
      requires Valid(Now()) && Settled(Now()) && m !in index
      modifies `revealing
      ensures Valid(Now()) && Settled(Now()) && Now() == old(Now()).(revealing := revealing)
    {
      var shown := if m in revealing then revealing[m] else {};
      ghost var r := Now().(revealing := revealing[m := shown + {n}]);
      assert forall o :: Has(Now(), o) ==> Spelled(Now(), o, At(Now(), o));
      RevealKeeps(Now(), r.revealing);
      SettledByIndex(Now(), r);
      revealing := revealing[m := shown + {n}];
    }

    /** A mutation of a frame that is not all appends: nothing is pending for the message when it runs. */
    method ExecuteStructural(m: string, op: Op, smooth: bool) returns (ok: bool)
      requires Valid(Now()) && Settled(Now()) && m !in index
      modifies `registry, `leaves, `data, `revealing, `next, `sent, `owner
      ensures Valid(Now()) && Settled(Now()) && ok == (op.Insert? || Owner(m, op.target) in old(registry))
      ensures if ok then Executed(old(Now()), Now(), m, op) else Now() == old(Now())
    {
      var o := Owner(m, op.target);
      ok := op.Insert? || o in registry;
      if op.Insert? {
        InsertedExecutes(Now(), o, op, NodeOf(m, op.after));
        MakeText(o, op.text, op.after);
        if op.fades && smooth { Reveal(m, registry[o]); }
      } else if ok {
        Write(registry[o], if op.Append? then data[registry[o]] + op.chunk else op.text);
      }
    }

    /** A mutation of a frame that is all appends, shown smoothly. */
    method ExecuteAppend(m: string, op: Op, token: nat, motion: bool, animates: bool) returns (ok: bool)
      requires Valid(Now()) && Settled(Now()) && op.Append?
      modifies `index, `leaves, `data, `next, `sent, `owner
      ensures Valid(Now()) && Settled(Now()) && ok == (Owner(m, op.target) in old(registry))
      ensures if ok then Executed(old(Now()), Now(), m, op) else Now() == old(Now())
    {
      var o := Owner(m, op.target);
      ok := o in registry;
      if ok {
        AppendedGrown(Now(), o, registry[o], op.chunk, token, motion && animates);
        Append(o, registry[o], op.chunk, token, motion, animates);
      }
    }

    /** applyFrame: a smooth frame of appends lets its text fade in; before any other frame everything
        pending is written, so a mutation never meets text that is still in fragments. Either way the mutations
        before the first that names no text node are executed, and every text node has been sent exactly what
        they say. */
    method ApplyFrame(m: string, ops: seq<Op>, smooth: bool, motion: bool, animates: bool) returns (ok: bool, applied: nat)
      requires Valid(Now()) && Settled(Now())
      modifies this
      ensures Valid(Now()) && Settled(Now()) && applied == Extent(old(registry).Keys, m, ops) && ok == (applied == |ops|)
      ensures registry.Keys == NamesThen(old(registry).Keys, m, ops)
      ensures !(smooth && ops != [] && AppendOnly(ops)) ==>
                m !in index && forall n :: n in sent && n in owner && owner[n].message == m ==> n in data && data[n] == sent[n]
      ensures Sent(old(Now()), Now(), m, ops[..applied]) && Told(old(Now()), Now(), m, ops[..applied])
    {
      var appendOnly := smooth && ops != [] && AppendOnly(ops);
      Begin(m, appendOnly);
      var token := nextToken;
      nextToken := nextToken + 1;
      applied, ok := 0, true;
      while ok && applied < |ops|
        invariant Valid(Now()) && Settled(Now()) && applied <= |ops| && (!appendOnly ==> m !in index)
        invariant !ok ==> applied < |ops| && !Fits(registry.Keys, m, ops[applied])
        invariant Executing(old(Now()), Now(), m, ops, applied)
        decreases if ok then |ops| + 1 - applied else 0
      {
        ok := ExecuteNext(old(Now()), m, ops, applied, smooth, appendOnly, token, motion, animates);
        if ok { applied := applied + 1; }
      }
      Stops(old(registry).Keys, registry.Keys, m, ops, applied);
      if !appendOnly { NothingWaits(Now(), m); }
    }

    /** Any run of frames, animations that end and flushes, of whatever messages: each text node was sent exactly what
        the executed mutations of its message say, in order, and each name stands for the text node last made for it.
        After a last flush of the message each of its text nodes reads what it was sent. */
    method Play(moments: seq<Moment>, ghost m: string)
      requires Valid(Now()) && Settled(Now())
      modifies this
      ensures Valid(Now()) && Settled(Now()) && Played(old(Now()), Now(), m, moments)
      ensures moments != [] && moments[|moments| - 1] == Flush(m) ==> Reads(Now(), m)
    {
      BooksSent(Now(), Now(), m);
      for i := 0 to |moments|
        invariant Valid(Now()) && Settled(Now()) && Played(old(Now()), Now(), m, moments[..i])
        invariant i > 0 && moments[i - 1] == Flush(m) ==> Reads(Now(), m)
      {
        ghost var r := Now();
        Happen(moments[i], m);
        PlayedFurther(old(Now()), r, Now(), m, moments, i);
      }
      assert moments[..|moments|] == moments;
    }

    method Happen(moment: Moment, ghost m: string)
      requires Valid(Now()) && Settled(Now())
      modifies this
      ensures Valid(Now()) && Settled(Now()) && registry.Keys == NamesAfter(old(registry).Keys, moment)
      ensures SentTo(old(Now()), Now(), m, PartOf(old(registry).Keys, moment, m))
      ensures Reached(old(Now()), Now(), m, PartOf(old(registry).Keys, moment, m))
      ensures moment == Flush(m) ==> Reads(Now(), m)
    {
      ghost var s := Now();
      match moment {
        case Frame(message, ops, smooth, motion, animates) =>
          var ok, k := ApplyFrame(message, ops, smooth, motion, animates);
          FrameSent(s, Now(), m, message, ops[..k]);
        case Ends(o, element) =>
          FinishedKeeps(s, o, element);
          Finish(o, element);
          BooksSent(s, Now(), m);
        case Flush(message) =>
          Empty(message, true);
          BooksSent(s, Now(), m);
      }
    }

    method ExecuteNext(ghost s: State, m: string, ops: seq<Op>, i: nat, smooth: bool, appendOnly: bool, token: nat,
                       motion: bool, animates: bool) returns (ok: bool)
      requires Valid(s) && Valid(Now()) && Settled(Now()) && i < |ops| && if appendOnly then ops[i].Append? else m !in index
      requires Executing(s, Now(), m, ops, i)
      modifies `index, `registry, `leaves, `data, `revealing, `next, `sent, `owner
      ensures Valid(Now()) && Settled(Now()) && (!appendOnly ==> m !in index)
      ensures Executing(s, Now(), m, ops, if ok then i + 1 else i) && (!ok ==> !Fits(registry.Keys, m, ops[i]))
    {
      ghost var r := Now();
      ok := Execute(m, ops[i], smooth, appendOnly, token, motion, animates);
      if ok {
        SentFurther(s, r, Now(), m, ops, i);
        ToldFurther(s, r, Now(), m, ops, i);
        ExecutedNames(r, Now(), m, ops[i]);
        GoesOn(s.registry.Keys, r.registry.Keys, m, ops, i);
      }
    }

    method Begin(m: string, appendOnly: bool)
      requires Valid(Now()) && Settled(Now())
      modifies `index, `leaves, `data, `sent, `revealing
      ensures Valid(Now()) && Settled(Now()) && (!appendOnly ==> m !in index)
      ensures Sent(old(Now()), Now(), m, []) && Told(old(Now()), Now(), m, [])
    {
      if !appendOnly {
        Empty(m, true);
        ClearReveals(m);
      }
    }

    /** executeMutation, for text */
    method Execute(m: string, op: Op, smooth: bool, appendOnly: bool, token: nat, motion: bool, animates: bool) returns (ok: bool)
      requires Valid(Now()) && Settled(Now()) && if appendOnly then op.Append? else m !in index
      modifies `index, `registry, `leaves, `data, `revealing, `next, `sent, `owner
      ensures Valid(Now()) && Settled(Now()) && (!appendOnly ==> m !in index) && ok == Fits(old(registry).Keys, m, op)
      ensures if ok then Executed(old(Now()), Now(), m, op) else Now() == old(Now())
    {
      if appendOnly {
        ok := ExecuteAppend(m, op, token, motion, animates);
      } else {
        ok := ExecuteStructural(m, op, smooth);
      }
    }

    /** clearStreamElementReveals */
    method ClearReveals(m: string)
      requires Valid(Now()) && Settled(Now())
      modifies `revealing
      ensures Valid(Now()) && Settled(Now()) && Now() == old(Now()).(revealing := old(revealing) - {m})
    {
      assert forall o :: Has(Now(), o) ==> Spelled(Now(), o, At(Now(), o));
      RevealKeeps(Now(), revealing - {m});
      SettledByIndex(Now(), Now().(revealing := revealing - {m}));
      revealing := revealing - {m};
    }
  }

  /** What one mutation does to what the text nodes were sent, and to the names. */
  ghost predicate Executed(s: State, r: State, m: string, op: Op) {
    var o := Owner(m, op.target);
    && (forall n :: n in s.sent ==>
          && n in s.owner && n in r.owner && r.owner[n] == s.owner[n]
          && n in r.sent && r.sent[n] == if o in s.registry && s.registry[o] == n then Effect(s.sent[n], op) else s.sent[n])
    && (forall p :: p in s.registry && !(op.Insert? && p == o) ==> p in r.registry && r.registry[p] == s.registry[p])
    && (forall p :: p in r.registry ==> p in s.registry || (op.Insert? && p == o))
    && (op.Insert? ==> o in r.registry && r.registry[o] !in s.sent && r.registry[o] in r.sent && r.sent[r.registry[o]] == op.text)
  }

  lemma InsertedExecutes(s: State, o: Owner, op: Op, a: Option<nat>)
    requires Valid(s) && op.Insert? && op.target == o.target
    ensures Executed(s, Inserted(s, o, op.text, a), o.message, op)
  {}

  /** The text node is the one that its name stands for now. */
  predicate Current(s: State, n: nat) { n in s.owner && s.owner[n] in s.registry && s.registry[s.owner[n]] == n }

  /** Each text node of the message that a name stands for was sent what the mutations say for the name, until one of
      them gives the name away; the others were sent nothing. */
  ghost predicate Sent(s: State, r: State, m: string, ops: seq<Op>) {
    forall n :: n in s.sent ==> SentNode(s, r, m, ops, n)
  }

  ghost predicate SentNode(s: State, r: State, m: string, ops: seq<Op>, n: nat)
    requires n in s.sent
  {
    && n in s.owner && n in r.sent && n in r.owner && r.owner[n] == s.owner[n]
    && var o := s.owner[n];
       && r.sent[n] == (if o.message == m && Current(s, n) then TextAfter(s.sent[n], ops, o.target) else s.sent[n])
       && (Current(r, n) <==> Current(s, n) && !(o.message == m && Renamed(ops, o.target)))
  }

  lemma SentFurther(s: State, r: State, q: State, m: string, ops: seq<Op>, i: nat)
    requires Valid(s) && Valid(r) && i < |ops| && Sent(s, r, m, ops[..i]) && Executed(r, q, m, ops[i])
    ensures Sent(s, q, m, ops[..i + 1])
  {
    forall n | n in s.sent ensures SentNode(s, q, m, ops[..i + 1], n) {
      assert SentNode(s, r, m, ops[..i], n);
      OneMoreOp(s.sent[n], ops, i, s.owner[n].target);
      CurrentFurther(r, q, m, ops[i], n);
    }
  }

  /** A mutation works on a text node, or takes its name, exactly if the name stands for it. */
  lemma CurrentFurther(r: State, q: State, m: string, op: Op, n: nat)
    requires Valid(r) && Executed(r, q, m, op) && n in r.sent
    ensures n in r.owner && n in q.owner && q.owner[n] == r.owner[n] && n in q.sent
    ensures q.sent[n] == if Current(r, n) && r.owner[n] == Owner(m, op.target) then Effect(r.sent[n], op) else r.sent[n]
    ensures Current(q, n) <==> Current(r, n) && !(op.Insert? && r.owner[n] == Owner(m, op.target))
  {
    assert Owner(m, op.target) in r.registry ==> r.owner[r.registry[Owner(m, op.target)]] == Owner(m, op.target);
  }

  // ---- Runs

  /** A frame of a message, an animation that ends, or a flush of a message. */
  datatype Moment =
    | Frame(message: string, ops: seq<Op>, smooth: bool, motion: bool, animates: bool)
    | Ends(o: Owner, element: nat)
    | Flush(message: string)

  /** Each text node of the message reads what it was sent. */
  ghost predicate Reads(s: State, m: string) {
    forall n :: n in s.sent && n in s.owner && s.owner[n].message == m ==> n in s.data && s.data[n] == s.sent[n]
  }

  /** The mutations of message m that are executed, if at first the names stand for text nodes. */
  function Performed(names: set<Owner>, moments: seq<Moment>, m: string): seq<Op> {
    if moments == [] then []
    else
      var k := |moments| - 1;
      Performed(names, moments[..k], m) + PartOf(NamesOver(names, moments[..k]), moments[k], m)
  }

  function PartOf(names: set<Owner>, moment: Moment, m: string): seq<Op> {
    if moment.Frame? && moment.message == m then moment.ops[..Extent(names, m, moment.ops)] else []
  }

  function NamesOver(names: set<Owner>, moments: seq<Moment>): set<Owner> {
    if moments == [] then names
    else
      var k := |moments| - 1;
      NamesAfter(NamesOver(names, moments[..k]), moments[k])
  }

  function NamesAfter(names: set<Owner>, moment: Moment): set<Owner> {
    if moment.Frame? then NamesThen(names, moment.message, moment.ops) else names
  }

  /** What the text node was sent that the name stands for. */
  function TextOf(s: State, p: Owner): Option<string> {
    if p in s.registry && s.registry[p] in s.sent then Some(s.sent[s.registry[p]]) else None
  }

  /** The names of the message stand for what ops make of them. */
  ghost predicate Reached(s: State, r: State, m: string, ops: seq<Op>) {
    forall p: Owner :: p.message == m ==> TextOf(r, p) == ReadAfter(TextOf(s, p), ops, p.target)
  }

  /** And those of other messages for what they stood for. */
  ghost predicate Told(s: State, r: State, m: string, ops: seq<Op>) {
    Reached(s, r, m, ops) && forall p: Owner :: p.message != m ==> TextOf(r, p) == TextOf(s, p)
  }

  /** Every text node of message m was sent, and every name of it stands for, what the executed mutations say. */
  ghost predicate Played(s: State, r: State, m: string, moments: seq<Moment>) {
    var ops := Performed(s.registry.Keys, moments, m);
    r.registry.Keys == NamesOver(s.registry.Keys, moments) && SentTo(s, r, m, ops) && Reached(s, r, m, ops)
  }

  lemma PlayedFurther(s: State, r: State, q: State, m: string, moments: seq<Moment>, i: nat)
    requires i < |moments| && Played(s, r, m, moments[..i]) && q.registry.Keys == NamesAfter(r.registry.Keys, moments[i])
    requires var ops := PartOf(r.registry.Keys, moments[i], m); SentTo(r, q, m, ops) && Reached(r, q, m, ops)
    ensures Played(s, q, m, moments[..i + 1])
  {
    assert moments[..i + 1][..i] == moments[..i];
    var a, b := Performed(s.registry.Keys, moments[..i], m), PartOf(r.registry.Keys, moments[i], m);
    SentThen(s, r, q, m, a, b);
    ReachedThen(s, r, q, m, a, b);
  }

  /** The first k mutations are executed, and the rest of the frame is to be executed with the names that stand now. */
  ghost predicate Executing(s: State, r: State, m: string, ops: seq<Op>, k: nat) {
    && k <= |ops| && Sent(s, r, m, ops[..k]) && Told(s, r, m, ops[..k])
    && Underway(s.registry.Keys, r.registry.Keys, m, ops, k)
  }

  predicate Underway(names: set<Owner>, now: set<Owner>, m: string, ops: seq<Op>, k: nat)
    requires k <= |ops|
  {
    Extent(names, m, ops) == k + Extent(now, m, ops[k..]) && NamesThen(names, m, ops) == NamesThen(now, m, ops[k..])
  }

  lemma GoesOn(names: set<Owner>, now: set<Owner>, m: string, ops: seq<Op>, k: nat)
    requires k < |ops| && Underway(names, now, m, ops, k) && Fits(now, m, ops[k])
    ensures Underway(names, now + NewName(m, ops[k]), m, ops, k + 1)
  {
    assert ops[k..][1..] == ops[k + 1..];
  }

  lemma Stops(names: set<Owner>, now: set<Owner>, m: string, ops: seq<Op>, k: nat)
    requires k <= |ops| && Underway(names, now, m, ops, k) && (k < |ops| ==> !Fits(now, m, ops[k]))
    ensures Extent(names, m, ops) == k && NamesThen(names, m, ops) == now
  {}

  lemma ExecutedNames(r: State, q: State, m: string, op: Op)
    requires Executed(r, q, m, op) && Fits(r.registry.Keys, m, op)
    ensures q.registry.Keys == r.registry.Keys + NewName(m, op)
  {}

  lemma ToldFurther(s: State, r: State, q: State, m: string, ops: seq<Op>, i: nat)
    requires Valid(r) && i < |ops| && Told(s, r, m, ops[..i]) && Executed(r, q, m, ops[i]) && Fits(r.registry.Keys, m, ops[i])
    ensures Told(s, q, m, ops[..i + 1])
  {
    assert ops[..i + 1][..i] == ops[..i];
    forall p: Owner
      ensures TextOf(q, p) == if p.message == m then ReadAfter(TextOf(s, p), ops[..i + 1], p.target) else TextOf(s, p)
    {
      TextExecuted(r, q, m, ops[i], p);
    }
  }

  lemma TextExecuted(r: State, q: State, m: string, op: Op, p: Owner)
    requires Valid(r) && Executed(r, q, m, op) && Fits(r.registry.Keys, m, op)
    ensures var before := TextOf(r, p);
            TextOf(q, p) == if p != Owner(m, op.target) then before
                            else if op.Insert? then Some(op.text)
                            else if before.Some? then Some(Effect(before.value, op)) else None
  {
    var o := Owner(m, op.target);
    assert o in r.registry ==> r.owner[r.registry[o]] == o;
    assert p in r.registry ==> r.owner[r.registry[p]] == p && r.registry[p] in r.sent;
  }

  lemma {:induction false} ReadAfterConcat(text: Option<string>, a: seq<Op>, b: seq<Op>, t: string)
    ensures ReadAfter(text, a + b, t) == ReadAfter(ReadAfter(text, a, t), b, t)
  {
    if b == [] {
      assert a + b == a;
    } else {
      var k := |b| - 1;
      assert (a + b)[..|a| + k] == a + b[..k] && (a + b)[|a| + k] == b[k];
      ReadAfterConcat(text, a, b[..k], t);
    }
  }

  lemma ReachedThen(s: State, r: State, q: State, m: string, a: seq<Op>, b: seq<Op>)
    requires Reached(s, r, m, a) && Reached(r, q, m, b)
    ensures Reached(s, q, m, a + b)
  {
    forall p: Owner | p.message == m ensures TextOf(q, p) == ReadAfter(TextOf(s, p), a + b, p.target) {
      ReadAfterConcat(TextOf(s, p), a, b, p.target);
    }
  }

  /** The same for one message. */
  ghost predicate SentTo(s: State, r: State, m: string, ops: seq<Op>) {
    forall n :: n in s.sent && n in s.owner && s.owner[n].message == m ==> SentNode(s, r, m, ops, n)
  }

  lemma {:induction false} TextAfterConcat(text: string, a: seq<Op>, b: seq<Op>, t: string)
    ensures TextAfter(text, a + b, t) == if Renamed(a, t) then TextAfter(text, a, t) else TextAfter(TextAfter(text, a, t), b, t)
    ensures Renamed(a + b, t) <==> Renamed(a, t) || Renamed(b, t)
    decreases |b|
  {
    if b == [] {
      assert a + b == a;
    } else {
      var k := |b| - 1;
      TextAfterConcat(text, a, b[..k], t);
      assert (a + b)[..|a| + k] == a + b[..k] && (a + b)[|a| + k] == b[k];
      assert (a + b)[..|a| + k + 1] == a + b && b[..k + 1] == b;
      OneMoreOp(text, a + b, |a| + k, t);
      OneMoreOp(TextAfter(text, a, t), b, k, t);
    }
  }

  lemma SentThen(s: State, r: State, q: State, m: string, a: seq<Op>, b: seq<Op>)
    requires SentTo(s, r, m, a) && SentTo(r, q, m, b)
    ensures SentTo(s, q, m, a + b)
  {
    forall n | n in s.sent && n in s.owner && s.owner[n].message == m ensures SentNode(s, q, m, a + b, n) {
      assert SentNode(s, r, m, a, n) && SentNode(r, q, m, b, n);
      TextAfterConcat(s.sent[n], a, b, s.owner[n].target);
    }
  }

  /** A step that leaves names and what was sent as they are. */
  lemma BooksSent(s: State, r: State, m: string)
    requires Valid(s) && r.registry == s.registry && r.owner == s.owner && r.sent == s.sent
    ensures SentTo(s, r, m, []) && Reached(s, r, m, [])
  {}

  /** A frame of any message, seen from message m. */
  lemma FrameSent(s: State, r: State, m: string, frame: string, ops: seq<Op>)
    requires Sent(s, r, frame, ops) && Told(s, r, frame, ops)
    ensures SentTo(s, r, m, if frame == m then ops else []) && Reached(s, r, m, if frame == m then ops else [])
  {
    forall n | n in s.sent && n in s.owner && s.owner[n].message == m ensures SentNode(s, r, m, if frame == m then ops else [], n) {
      assert SentNode(s, r, frame, ops, n);
    }
  }

  lemma OneMoreOp(text: string, ops: seq<Op>, i: nat, t: string)
    requires i < |ops|
    ensures TextAfter(text, ops[..i + 1], t)
            == if ops[i].target != t || Renamed(ops[..i], t) then TextAfter(text, ops[..i], t) else Effect(TextAfter(text, ops[..i], t), ops[i])
    ensures Renamed(ops[..i + 1], t) <==> Renamed(ops[..i], t) || (ops[i].Insert? && ops[i].target == t)
  {
    assert ops[..i + 1][..i] == ops[..i] && ops[..i + 1][i] == ops[i];
    if Renamed(ops[..i], t) {
      var k :| 0 <= k < i && ops[..i][k].Insert? && ops[..i][k].target == t;
      assert ops[..i + 1][k] == ops[..i][k];
    }
    if Renamed(ops[..i + 1], t) {
      var k :| 0 <= k < i + 1 && ops[..i + 1][k].Insert? && ops[..i + 1][k].target == t;
      if k < i { assert ops[..i][k] == ops[..i + 1][k]; }
    }
  }

  lemma NothingWaits(s: State, m: string)
    requires Valid(s) && m !in s.index
    ensures forall n :: n in s.sent && n in s.owner && s.owner[n].message == m ==> n in s.data && s.data[n] == s.sent[n]
  {
    forall n | n in s.sent && n in s.owner && s.owner[n].message == m ensures n in s.data && s.data[n] == s.sent[n] {
      assert !Waits(s, n);
    }
  }

  predicate Holding(s: State, m: string, ts: set<string>) {
    ts == if m in s.index then s.index[m].Keys else {}
  }

  ghost predicate ElsewhereAlike(s: State, r: State, m: string) {
    forall o: Owner :: o.message != m ==> (Has(r, o) <==> Has(s, o)) && (Has(s, o) ==> At(r, o) == At(s, o))
  }

  /** The targets of other messages are as they were; what was sent is kept, or the pending rest given up. */
  ghost predicate Emptied(s: State, r: State, m: string, commit: bool) {
    ElsewhereAlike(s, r, m) && BooksKept(s, r, commit)
  }

  ghost predicate BooksKept(s: State, r: State, commit: bool) {
    && r.registry == s.registry && r.revealing == s.revealing && r.next == s.next && r.owner == s.owner
    && r.sent.Keys == s.sent.Keys && (commit ==> r.sent == s.sent)
    && (!commit ==> forall n :: n in s.sent && n in s.data ==> n in r.data && r.data[n] == s.data[n])
  }

  lemma SettledFurther(r: State, q: State, o: Owner)
    requires Settled(r) && OthersAlike(r, q, o) && !Has(q, o) && NoEmptyEntry(q)
    ensures Settled(q)
  {
    forall p | Has(q, p) ensures At(q, p).fragments != [] && !At(q, p).fragments[0].done { assert Has(r, p); }
  }

  lemma HoldingFurther(r: State, q: State, m: string, t: string, ts: set<string>)
    requires Holding(r, m, ts) && t in ts && OthersAlike(r, q, Owner(m, t)) && !Has(q, Owner(m, t))
    ensures Holding(q, m, ts - {t})
  {
    var left := if m in q.index then q.index[m].Keys else {};
    forall u ensures u in left <==> u in ts - {t} {
      assert u in left <==> Has(q, Owner(m, u));
      assert u in ts <==> Has(r, Owner(m, u));
    }
  }

  lemma EmptiedFurther(s: State, r: State, m: string, t: string, ts: set<string>, commit: bool)
    requires Valid(r) && t in ts && Has(r, Owner(m, t)) && Emptied(s, r, m, commit) && Settled(r) && Holding(r, m, ts)
    ensures var q := AllOut(r, Owner(m, t), commit);
            Valid(q) && Emptied(s, q, m, commit) && Settled(q) && Holding(q, m, ts - {t})
  {
    var o, q := Owner(m, t), AllOut(r, Owner(m, t), commit);
    AllOutSettles(r, o, commit);
    SettledFurther(r, q, o);
    HoldingFurther(r, q, m, t, ts);
  }
}
