/** Keyset pages of a conversation's message table, and the window merged from them. */
module HistoryPages {
  import opened IdOrder

  datatype Message = Message(id: string, timestamp: int, text: string)

  const MAX_HISTORY_MESSAGES: nat := 500

  // ---- The order of messages

  /** The backend's order for Utf8, compareMessages for Utf16. */
  predicate Before(e: Encoding, a: Message, b: Message) {
    if a.timestamp != b.timestamp then a.timestamp < b.timestamp else IdBefore(e, a.id, b.id)
  }

  lemma Order(e: Encoding, a: Message, b: Message, c: Message)
    ensures !Before(e, a, a) && !(Before(e, a, b) && Before(e, b, a))
    ensures a.id != b.id ==> Before(e, a, b) || Before(e, b, a)
    ensures Before(e, a, b) && Before(e, b, c) ==> Before(e, a, c)
  {
    IdsOrdered(e, a.id, b.id, c.id);
    IdsOrdered(e, a.id, a.id, a.id);
  }

  predicate Sorted(e: Encoding, s: seq<Message>) {
    forall i, j {:trigger Before(e, s[i], s[j])} :: 0 <= i < j < |s| ==> Before(e, s[i], s[j])
  }

  predicate DistinctIds(s: seq<Message>) {
    forall i, j {:trigger s[i].id, s[j].id} :: 0 <= i < j < |s| ==> s[i].id != s[j].id
  }

  /** A table: its rows in the backend's order, each id once. */
  predicate Table(t: seq<Message>) { Sorted(Utf8, t) && DistinctIds(t) }

  /** No two rows of the same time have ids that JavaScript and SQLite order differently. */
  predicate Agreeing(t: seq<Message>) {
    forall i, j {:trigger Clash(t[i], t[j])} :: 0 <= i < j < |t| ==> !Clash(t[i], t[j])
  }

  /** The rows have the same time, and ids that JavaScript and SQLite order differently. */
  predicate Clash(a: Message, b: Message) { a.timestamp == b.timestamp && Crossing(a.id, b.id) }

  lemma PairAgrees(t: seq<Message>, i: nat, j: nat)
    requires Table(t) && i < j < |t|
    ensures Before(Utf16, t[i], t[j]) <==> !Clash(t[i], t[j])
  {
    assert Before(Utf8, t[i], t[j]) && t[i].id != t[j].id;
    OrdersAgree(t[i].id, t[j].id);
  }

  /** That is exactly when a table is in JavaScript's order too. */
  lemma AgreeingIsSorted(t: seq<Message>)
    requires Table(t)
    ensures Agreeing(t) <==> Sorted(Utf16, t)
  {
    forall i, j | 0 <= i < j < |t|
      ensures Before(Utf16, t[i], t[j]) <==> !Clash(t[i], t[j])
    {
      PairAgrees(t, i, j);
    }
  }

  /** The orders agree on every pair of which the later row is the k-th or comes after it. */
  predicate AgreeingFrom(t: seq<Message>, k: nat) {
    forall i, j {:trigger Clash(t[i], t[j])} :: 0 <= i < j < |t| && k <= j ==> !Clash(t[i], t[j])
  }

  /** The orders agree on every pair of which the earlier row is among the first n. */
  predicate AgreeingBefore(t: seq<Message>, n: nat) {
    forall i, j {:trigger Clash(t[i], t[j])} :: 0 <= i < j < |t| && i < n ==> !Clash(t[i], t[j])
  }

  lemma HasElement(t: seq<Message>)
    ensures t != [] ==> exists m :: m in t
  {
    if t != [] { assert t[0] in t; }
  }

  /** Sorted sequences with the same elements are the same. */
  lemma {:induction false} SortedUnique(e: Encoding, s: seq<Message>, t: seq<Message>)
    requires Sorted(e, s) && Sorted(e, t) && forall m :: m in s <==> m in t
    ensures s == t
  {
    if s == [] {
      HasElement(t);
    } else {
      assert s[0] in t;
      assert t[0] in s;
      var i :| 0 <= i < |t| && t[i] == s[0];
      var j :| 0 <= j < |s| && s[j] == t[0];
      Order(e, s[0], t[0], s[0]);
      assert s[0] == t[0];
      forall m ensures m in s[1..] <==> m in t[1..] {
        Order(e, s[0], s[0], s[0]);
        assert m in s <==> m in t;
        assert m in s <==> m == s[0] || m in s[1..];
        assert m in t <==> m == t[0] || m in t[1..];
      }
      SortedUnique(e, s[1..], t[1..]);
    }
  }

  // ---- mergeHistoryWindow

  /** byId.set: in place of the message with the same id, or at the end. */
  function Set(s: seq<Message>, m: Message): seq<Message> {
    if s == [] then [m] else if s[0].id == m.id then [m] + s[1..] else [s[0]] + Set(s[1..], m)
  }

  function SetAll(s: seq<Message>, ms: seq<Message>): seq<Message>
    decreases |ms|
  {
    if ms == [] then s else SetAll(Set(s, ms[0]), ms[1..])
  }

  function Inserted(e: Encoding, s: seq<Message>, m: Message): seq<Message> {
    if s != [] && Before(e, s[0], m) then [s[0]] + Inserted(e, s[1..], m) else [m] + s
  }

  function SortedCopy(e: Encoding, s: seq<Message>): seq<Message> {
    if s == [] then [] else Inserted(e, SortedCopy(e, s[1..]), s[0])
  }

  function Trimmed(s: seq<Message>, older: bool): seq<Message> {
    if |s| <= MAX_HISTORY_MESSAGES then s
    else if older then s[..MAX_HISTORY_MESSAGES] else s[|s| - MAX_HISTORY_MESSAGES..]
  }

  function Merge(existing: seq<Message>, incoming: seq<Message>, older: bool): seq<Message> {
    Trimmed(SortedCopy(Utf16, SetAll(SetAll([], existing), incoming)), older)
  }

  lemma {:induction false} SetNew(s: seq<Message>, m: Message)
    requires forall x :: x in s ==> x.id != m.id
    ensures Set(s, m) == s + [m]
  {
    if s != [] {
      assert s[0] in s && forall x :: x in s[1..] ==> x in s;
      SetNew(s[1..], m);
    }
  }

  lemma {:induction false} SetAllNew(s: seq<Message>, ms: seq<Message>)
    requires DistinctIds(s + ms)
    ensures SetAll(s, ms) == s + ms
    decreases |ms|
  {
    if ms != [] {
      forall x | x in s ensures x.id != ms[0].id {
        var i :| 0 <= i < |s| && s[i] == x;
        assert (s + ms)[i] == x && (s + ms)[|s|] == ms[0];
      }
      SetNew(s, ms[0]);
      assert (s + [ms[0]]) + ms[1..] == s + ms;
      SetAllNew(s + [ms[0]], ms[1..]);
    } else {
      assert s + ms == s;
    }
  }

  lemma {:induction false} InsertedSorted(e: Encoding, s: seq<Message>, m: Message)
    requires Sorted(e, s) && forall x :: x in s ==> x.id != m.id
    ensures Sorted(e, Inserted(e, s, m)) && forall x :: x in Inserted(e, s, m) <==> x in s || x == m
  {
    if s != [] && Before(e, s[0], m) {
      assert forall x :: x in s[1..] ==> x in s;
      InsertedSorted(e, s[1..], m);
      var r := Inserted(e, s[1..], m);
      forall i | 0 <= i < |r| ensures Before(e, s[0], r[i]) {
        assert r[i] in r;
        if r[i] != m { var k :| 0 <= k < |s[1..]| && s[1..][k] == r[i]; assert s[k + 1] == r[i]; }
      }
      assert forall x :: x in s <==> x == s[0] || x in s[1..];
    } else if s != [] {
      assert s[0] in s;
      Order(e, s[0], m, s[0]);
      forall i | 0 <= i < |s| ensures Before(e, m, s[i]) { if i > 0 { Order(e, m, s[0], s[i]); } }
    }
  }

  lemma {:induction false} SortedCopySorts(e: Encoding, s: seq<Message>)
    requires DistinctIds(s)
    ensures Sorted(e, SortedCopy(e, s)) && forall x :: x in SortedCopy(e, s) <==> x in s
  {
    if s != [] {
      SortedCopySorts(e, s[1..]);
      forall x | x in s[1..] ensures x.id != s[0].id {
        var i :| 0 <= i < |s[1..]| && s[1..][i] == x;
        assert s[i + 1] == x;
      }
      InsertedSorted(e, SortedCopy(e, s[1..]), s[0]);
      assert forall x :: x in s <==> x == s[0] || x in s[1..];
    }
  }

  /** Merging rows that are not in the window yet gives all of them in JavaScript's order, trimmed at one end. */
  lemma MergeIsSorted(existing: seq<Message>, incoming: seq<Message>, older: bool)
    requires DistinctIds(existing + incoming)
    ensures var all := SortedCopy(Utf16, existing + incoming);
            && Sorted(Utf16, all) && (forall m :: m in all <==> m in existing || m in incoming)
            && Merge(existing, incoming, older) == Trimmed(all, older)
  {
    assert [] + existing == existing;
    assert DistinctIds(existing) by {
      forall i, j | 0 <= i < j < |existing| ensures existing[i].id != existing[j].id {
        assert (existing + incoming)[i] == existing[i] && (existing + incoming)[j] == existing[j];
      }
    }
    SetAllNew([], existing);
    SetAllNew(existing, incoming);
    SortedCopySorts(Utf16, existing + incoming);
  }

  /** The row is in s, and no later row of s has its id. */
  predicate LastOfItsId(s: seq<Message>, m: Message) {
    exists k :: 0 <= k < |s| && s[k] == m && forall j :: k < j < |s| ==> s[j].id != m.id
  }

  lemma DistinctTail(s: seq<Message>)
    requires DistinctIds(s) && s != []
    ensures DistinctIds(s[1..]) && forall x :: x in s[1..] ==> x.id != s[0].id
    ensures forall x :: x in s <==> x == s[0] || x in s[1..]
  {
    forall x | x in s[1..] ensures x.id != s[0].id { var j :| 0 <= j < |s[1..]| && s[1..][j] == x; assert s[j + 1] == x; }
  }

  lemma DistinctCons(m: Message, s: seq<Message>)
    requires DistinctIds(s) && forall x :: x in s ==> x.id != m.id
    ensures DistinctIds([m] + s) && forall x :: x in [m] + s <==> x == m || x in s
  {
    var t := [m] + s;
    forall i, j | 0 <= i < j < |t| ensures t[i].id != t[j].id { assert t[j] == s[j - 1] && t[j] in s; }
  }

  lemma {:induction false} SetHolds(s: seq<Message>, m: Message)
    requires DistinctIds(s)
    ensures DistinctIds(Set(s, m)) && forall x :: x in Set(s, m) <==> x == m || (x in s && x.id != m.id)
  {
    if s != [] {
      DistinctTail(s);
      hide DistinctIds;
      if s[0].id == m.id {
        DistinctCons(m, s[1..]);
      } else {
        SetHolds(s[1..], m);
        DistinctCons(s[0], Set(s[1..], m));
      }
    } else {
      assert Set(s, m) == [m];
    }
  }

  lemma {:induction false} SetAllHolds(s: seq<Message>, done: seq<Message>, ms: seq<Message>)
    requires DistinctIds(s) && forall x :: x in s <==> LastOfItsId(done, x)
    ensures DistinctIds(SetAll(s, ms)) && forall x :: x in SetAll(s, ms) <==> LastOfItsId(done + ms, x)
    decreases |ms|
  {
    if ms == [] {
      assert done + ms == done;
    } else {
      SetHolds(s, ms[0]);
      LastSnoc(done, ms[0]);
      SetAllHolds(Set(s, ms[0]), done + [ms[0]], ms[1..]);
      assert done + [ms[0]] + ms[1..] == done + ms;
    }
  }

  lemma LastSnoc(s: seq<Message>, m: Message)
    ensures forall x :: LastOfItsId(s + [m], x) <==> x == m || (LastOfItsId(s, x) && x.id != m.id)
  {
    var t := s + [m];
    forall x ensures LastOfItsId(t, x) <==> x == m || (LastOfItsId(s, x) && x.id != m.id) {
      if x == m { assert t[|s|] == m; }
      if LastOfItsId(t, x) && x != m {
        var k :| 0 <= k < |t| && t[k] == x && forall j :: k < j < |t| ==> t[j].id != x.id;
        assert t[|s|] == m && k < |s| && s[k] == x;
        forall j | k < j < |s| ensures s[j].id != x.id { assert t[j] == s[j]; }
      }
      if LastOfItsId(s, x) && x.id != m.id {
        var k :| 0 <= k < |s| && s[k] == x && forall j :: k < j < |s| ==> s[j].id != x.id;
        assert t[k] == x;
      }
    }
  }

  /** Merging any rows: of those with one id the last that came counts, and no other; they come out in JavaScript's
      order, and of more than 500 the first 500 stay when the page is older, else the last 500. */
  lemma MergeTakesLast(existing: seq<Message>, incoming: seq<Message>, older: bool)
    ensures var all, r := SortedCopy(Utf16, SetAll(SetAll([], existing), incoming)), Merge(existing, incoming, older);
            && Sorted(Utf16, all) && (forall m :: m in all <==> LastOfItsId(existing + incoming, m))
            && r == if |all| <= 500 then all else if older then all[..500] else all[|all| - 500..]
  {
    assert [] + existing == existing;
    SetAllHolds([], [], existing);
    SetAllHolds(SetAll([], existing), existing, incoming);
    SortedCopySorts(Utf16, SetAll(SetAll([], existing), incoming));
  }

  // ---- Which part of a table JavaScript leaves where it is

  lemma SameRows(s: seq<Message>, k: nat)
    requires k <= |s|
    ensures forall m :: m in s <==> m in s[..k] || m in s[k..]
  {
    assert s == s[..k] + s[k..];
  }

  /** A part of s that is sorted on its own, before or behind the rest. */
  lemma SplitSorted(s: seq<Message>, k: nat, front: seq<Message>, back: seq<Message>)
    requires DistinctIds(s) && k <= |s| && Sorted(Utf16, front) && Sorted(Utf16, back)
    requires (forall m :: m in front <==> m in s[..k]) && (forall m :: m in back <==> m in s[k..])
    requires forall m, n :: m in front && n in back ==> Before(Utf16, m, n)
    ensures SortedCopy(Utf16, s) == front + back
  {
    var r := front + back;
    forall i, j | 0 <= i < j < |r| ensures Before(Utf16, r[i], r[j]) {
      if i < |front| <= j { assert front[i] in front && back[j - |front|] in back; }
    }
    SameRows(s, k);
    SortedCopySorts(Utf16, s);
    SortedUnique(Utf16, SortedCopy(Utf16, s), r);
  }

  lemma PartSorts(s: seq<Message>, from: nat, to: nat)
    requires DistinctIds(s) && from <= to <= |s|
    ensures var r := SortedCopy(Utf16, s[from..to]);
            Sorted(Utf16, r) && |r| == to - from && forall m :: m in r <==> m in s[from..to]
  {
    SortedCopySorts(Utf16, s[from..to]);
    SortedCopyLength(Utf16, s[from..to]);
  }

  /** The rows from the k-th on stay where they are, exactly if the two orders agree on every pair that ends there. */
  lemma SuffixSorted(s: seq<Message>, k: nat)
    requires Table(s) && k <= |s|
    ensures |SortedCopy(Utf16, s)| == |s| && (SortedCopy(Utf16, s)[k..] == s[k..] <==> AgreeingFrom(s, k))
  {
    SortedCopyLength(Utf16, s);
    if AgreeingFrom(s, k) { SuffixStays(s, k); }
    if SortedCopy(Utf16, s)[k..] == s[k..] {
      SortedCopySorts(Utf16, s);
      forall i, j | 0 <= i < j < |s| && k <= j ensures Before(Utf16, s[i], s[j]) { StaysBehind(s, SortedCopy(Utf16, s), k, i, j); }
      forall i, j | 0 <= i < j < |s| && k <= j ensures !Clash(s[i], s[j]) {
        PairAgrees(s, i, j);
      }
    }
  }

  lemma SuffixStays(s: seq<Message>, k: nat)
    requires Table(s) && k <= |s| && AgreeingFrom(s, k)
    ensures |SortedCopy(Utf16, s)| == |s| && SortedCopy(Utf16, s)[k..] == s[k..]
  {
    var front := SortedCopy(Utf16, s[..k]);
    PartSorts(s, 0, k);
    SuffixBehind(s, k);
    SplitSorted(s, k, front, s[k..]);
  }

  lemma SuffixBehind(s: seq<Message>, k: nat)
    requires Table(s) && k <= |s| && AgreeingFrom(s, k)
    ensures Sorted(Utf16, s[k..])
    ensures forall m, n :: m in s[..k] && n in s[k..] ==> Before(Utf16, m, n)
  {
    forall i, j | 0 <= i < j < |s| && k <= j ensures Before(Utf16, s[i], s[j]) { PairAgrees(s, i, j); }
    forall m, n | m in s[..k] && n in s[k..] ensures Before(Utf16, m, n) {
      var i, j :| 0 <= i < k && s[..k][i] == m && 0 <= j < |s| - k && s[k..][j] == n;
      assert s[i] == m && s[k + j] == n;
    }
  }

  lemma StaysBehind(s: seq<Message>, all: seq<Message>, k: nat, i: nat, j: nat)
    requires DistinctIds(s) && k <= |s| == |all| && i < j < |s| && k <= j && all[k..] == s[k..]
    requires Sorted(Utf16, all) && forall m :: m in all <==> m in s
    ensures Before(Utf16, s[i], s[j])
  {
    forall q | k <= q < |s| ensures all[q] == s[q] { assert all[k..][q - k] == s[k..][q - k]; }
    assert s[i] in all;
    var p :| 0 <= p < |all| && all[p] == s[i];
  }

  /** The first n rows stay where they are, exactly if the two orders agree on every pair that begins there. */
  lemma PrefixSorted(s: seq<Message>, n: nat)
    requires Table(s) && n <= |s|
    ensures |SortedCopy(Utf16, s)| == |s| && (SortedCopy(Utf16, s)[..n] == s[..n] <==> AgreeingBefore(s, n))
  {
    SortedCopyLength(Utf16, s);
    if AgreeingBefore(s, n) { PrefixStays(s, n); }
    if SortedCopy(Utf16, s)[..n] == s[..n] {
      SortedCopySorts(Utf16, s);
      forall i, j | 0 <= i < j < |s| && i < n ensures Before(Utf16, s[i], s[j]) { StaysAhead(s, SortedCopy(Utf16, s), n, i, j); }
      forall i, j | 0 <= i < j < |s| && i < n ensures !Clash(s[i], s[j]) {
        PairAgrees(s, i, j);
      }
    }
  }

  lemma PrefixStays(s: seq<Message>, n: nat)
    requires Table(s) && n <= |s| && AgreeingBefore(s, n)
    ensures |SortedCopy(Utf16, s)| == |s| && SortedCopy(Utf16, s)[..n] == s[..n]
  {
    var back := SortedCopy(Utf16, s[n..]);
    PartSorts(s, n, |s|);
    assert s[n..|s|] == s[n..];
    forall i, j | 0 <= i < j < |s| && i < n ensures Before(Utf16, s[i], s[j]) { PairAgrees(s, i, j); }
    forall m, x | m in s[..n] && x in back ensures Before(Utf16, m, x) {
      assert x in s[n..];
      var i, j :| 0 <= i < n && s[..n][i] == m && 0 <= j < |s| - n && s[n..][j] == x;
      assert s[i] == m && s[n + j] == x;
    }
    SplitSorted(s, n, s[..n], back);
  }

  lemma StaysAhead(s: seq<Message>, all: seq<Message>, n: nat, i: nat, j: nat)
    requires DistinctIds(s) && n <= |s| == |all| && i < j < |s| && i < n && all[..n] == s[..n]
    requires Sorted(Utf16, all) && forall m :: m in all <==> m in s
    ensures Before(Utf16, s[i], s[j])
  {
    forall q | 0 <= q < n ensures all[q] == s[q] { assert all[..n][q] == s[..n][q]; }
    assert s[j] in all;
    var p :| 0 <= p < |all| && all[p] == s[j];
  }

  // ---- The backend's pages

  function Last(t: seq<Message>, n: nat): seq<Message> { if |t| <= n then t else t[|t| - n..] }

  function First(t: seq<Message>, n: nat): seq<Message> { if |t| <= n then t else t[..n] }

  /** The rows before a cursor. */
  function RowsBefore(t: seq<Message>, cursor: Message): seq<Message> {
    if t == [] then [] else (if Before(Utf8, t[0], cursor) then [t[0]] else []) + RowsBefore(t[1..], cursor)
  }

  function RowsAfter(t: seq<Message>, cursor: Message): seq<Message> {
    if t == [] then [] else (if Before(Utf8, cursor, t[0]) then [t[0]] else []) + RowsAfter(t[1..], cursor)
  }

  lemma {:induction false} CursorSplits(t: seq<Message>, i: nat)
    requires Sorted(Utf8, t) && i < |t|
    ensures RowsBefore(t, t[i]) == t[..i] && RowsAfter(t, t[i]) == t[i + 1..]
  {
    Order(Utf8, t[0], t[0], t[0]);
    if i == 0 {
      NoneBefore(t[1..], t[0]);
    } else {
      CursorSplits(t[1..], i - 1);
      assert t[1..][i - 1] == t[i];
      Order(Utf8, t[0], t[i], t[0]);
      assert t[..i] == [t[0]] + t[1..][..i - 1];
    }
  }

  lemma {:induction false} NoneBefore(t: seq<Message>, c: Message)
    requires forall i :: 0 <= i < |t| ==> Before(Utf8, c, t[i])
    ensures RowsBefore(t, c) == [] && RowsAfter(t, c) == t
  {
    if t != [] {
      Order(Utf8, c, t[0], c);
      NoneBefore(t[1..], c);
    }
  }

  lemma SliceIsTable(t: seq<Message>, lo: nat, hi: nat)
    requires Table(t) && lo <= hi <= |t|
    ensures Table(t[lo..hi])
  {}

  lemma DistinctSwapped(s: seq<Message>, t: seq<Message>)
    requires DistinctIds(t + s)
    ensures DistinctIds(s + t)
  {
    forall i, j | 0 <= i < j < |s + t| ensures (s + t)[i].id != (s + t)[j].id {
      var i', j' := if i < |s| then |t| + i else i - |s|, if j < |s| then |t| + j else j - |s|;
      assert (t + s)[i'] == (s + t)[i] && (t + s)[j'] == (s + t)[j];
    }
  }

  lemma {:induction false} SortedCopyLength(e: Encoding, s: seq<Message>)
    ensures |SortedCopy(e, s)| == |s|
  {
    if s != [] {
      SortedCopyLength(e, s[1..]);
      InsertedLength(e, SortedCopy(e, s[1..]), s[0]);
    }
  }

  lemma {:induction false} InsertedLength(e: Encoding, s: seq<Message>, m: Message)
    ensures |Inserted(e, s, m)| == |s| + 1
  {
    if s != [] { InsertedLength(e, s[1..], m); }
  }

  /** No row of the one has the id of a row of the other. */
  predicate Apart(s: seq<Message>, t: seq<Message>) {
    forall m, n :: m in s && n in t ==> m.id != n.id
  }

  lemma PageApart(existing: seq<Message>, incoming: seq<Message>)
    requires DistinctIds(incoming + existing)
    ensures Apart(incoming, existing)
  {
    forall m, w | m in incoming && w in existing ensures m.id != w.id {
      var i, j :| 0 <= i < |incoming| && incoming[i] == m && 0 <= j < |existing| && existing[j] == w;
      assert (incoming + existing)[i] == m && (incoming + existing)[|incoming| + j] == w;
    }
  }

  /** An older page joins the window without a gap and without a repetition, and the newest rows make room, exactly if
      the two orders agree on every pair with one of the rows that stay as the earlier row. */
  lemma OlderPageJoins(t: seq<Message>, lo: nat, hi: nat, n: nat)
    requires Table(t) && lo < hi <= |t| && hi - lo <= MAX_HISTORY_MESSAGES
    ensures var from := if n <= lo then lo - n else 0;
            && Last(RowsBefore(t, t[lo]), n) == t[from..lo]
            && Apart(t[from..lo], t[lo..hi])
            && (Merge(t[lo..hi], t[from..lo], true) == t[from..Kept(from, hi)]
                <==> AgreeingBefore(t[from..hi], Kept(from, hi) - from))
  {
    OlderPage(t, lo, n);
    JoinSlices(t, if n <= lo then lo - n else 0, lo, hi);
  }

  lemma OlderPage(t: seq<Message>, lo: nat, n: nat)
    requires Table(t) && lo < |t|
    ensures var page := Last(RowsBefore(t, t[lo]), n);
            |page| == (if n <= lo then n else lo) && page == t[lo - |page|..lo]
  {
    CursorSplits(t, lo);
  }

  /** The end of the first 500 rows from from on. */
  function Kept(from: nat, hi: nat): (end: nat)
    requires from <= hi
    ensures from <= end <= hi
  {
    if hi - from <= MAX_HISTORY_MESSAGES then hi else from + MAX_HISTORY_MESSAGES
  }

  lemma JoinSlices(t: seq<Message>, from: nat, lo: nat, hi: nat)
    requires Table(t) && from <= lo <= hi <= |t|
    ensures Apart(t[from..lo], t[lo..hi])
    ensures Merge(t[lo..hi], t[from..lo], true) == t[from..Kept(from, hi)] <==> AgreeingBefore(t[from..hi], Kept(from, hi) - from)
  {
    SliceIsTable(t, from, hi);
    assert t[from..hi] == t[from..lo] + t[lo..hi];
    PageApart(t[lo..hi], t[from..lo]);
    MergeSlices(t[lo..hi], t[from..lo]);
    assert t[from..hi][..Kept(from, hi) - from] == t[from..Kept(from, hi)];
  }

  /** Rows merged with those that follow them in the table: the first 500 of all stay in their order, exactly if the two
      orders agree on every pair with one of these as the earlier row. */
  lemma MergeSlices(existing: seq<Message>, incoming: seq<Message>)
    requires Table(incoming + existing)
    ensures var s := incoming + existing;
            Merge(existing, incoming, true) == s[..Kept(0, |s|)] <==> AgreeingBefore(s, Kept(0, |s|))
  {
    MergeAny(existing, incoming, true);
    PrefixSorted(incoming + existing, Kept(0, |incoming + existing|));
  }

  /** In whatever order the rows come, they are sorted alike. */
  lemma MergeAny(existing: seq<Message>, incoming: seq<Message>, older: bool)
    requires Table(incoming + existing)
    ensures Merge(existing, incoming, older) == Trimmed(SortedCopy(Utf16, incoming + existing), older)
  {
    DistinctSwapped(existing, incoming);
    MergeIsSorted(existing, incoming, older);
    SortedCopySorts(Utf16, incoming + existing);
    SortedUnique(Utf16, SortedCopy(Utf16, existing + incoming), SortedCopy(Utf16, incoming + existing));
  }

  /** How many of n rows are beyond 500. */
  function Dropped(n: nat): (k: nat)
    ensures k <= n
  {
    if n <= MAX_HISTORY_MESSAGES then 0 else n - MAX_HISTORY_MESSAGES
  }

  lemma FirstMerge(page: seq<Message>)
    requires DistinctIds(page)
    ensures Merge([], page, false) == Trimmed(SortedCopy(Utf16, page), false) && |SortedCopy(Utf16, page)| == |page|
  {
    assert [] + page == page;
    SetAllNew([], page);
    SortedCopyLength(Utf16, page);
  }

  /** The first page of a window is its newest 500 rows in the table's order, exactly if the two orders agree on every
      pair with one of them as the later row. */
  lemma FirstPage(page: seq<Message>)
    requires Table(page)
    ensures var k := Dropped(|page|);
            && (Merge([], page, false) == page[k..] <==> AgreeingFrom(page, k))
            && |Merge([], page, false)| == |page| - k
  {
    FirstMerge(page);
    SuffixSorted(page, Dropped(|page|));
  }

  lemma FirstSlice(t: seq<Message>, lo: nat, hi: nat)
    requires Table(t) && lo <= hi <= |t|
    ensures var k := Dropped(hi - lo);
            && (Merge([], t[lo..hi], false) == t[lo + k..hi] <==> AgreeingFrom(t[lo..hi], k))
            && hi - (lo + k) <= MAX_HISTORY_MESSAGES
  {
    SliceIsTable(t, lo, hi);
    FirstPage(t[lo..hi]);
    assert t[lo..hi][Dropped(hi - lo)..] == t[lo + Dropped(hi - lo)..hi];
  }

  lemma CrossingIds()
    ensures IdBefore(Utf8, "\U{E000}", "\U{10000}") && IdBefore(Utf16, "\U{10000}", "\U{E000}")
    ensures Crossing("\U{E000}", "\U{10000}")
  {
    var a, b := "\U{E000}", "\U{10000}";
    assert a[0] as int == 0xE000 && b[0] as int == 0x1_0000;
    UnitsDecide(Utf8, a[0], b[0], Encoded(Utf8, a[1..]), Encoded(Utf8, b[1..]));
    OrdersAgree(a, b);
    IdsOrdered(Utf16, a, b, a);
  }

  /** The smallest table on which they disagree: the two rows are shown in reverse, and the row before the window
      is one that is already in it. */
  lemma CrossingRowsSwap(time: int, text: string)
    ensures var a, b := Message("\U{E000}", time, text), Message("\U{10000}", time, text);
            && Table([a, b]) && Merge([], [a, b], false) == [b, a]
            && RowsBefore([a, b], Merge([], [a, b], false)[0]) == [a]
  {
    var a, b := Message("\U{E000}", time, text), Message("\U{10000}", time, text);
    CrossingIds();
    TwoRows(a, b);
    RowBeforeSecond(a, b);
  }

  lemma TwoRows(a: Message, b: Message)
    requires a.id != b.id && Before(Utf16, b, a)
    ensures Merge([], [a, b], false) == [b, a]
  {
    FirstMerge([a, b]);
    assert SortedCopy(Utf16, [a, b]) == [b, a] by { SwapsTwo(a, b); }
  }

  lemma RowBeforeSecond(a: Message, b: Message)
    requires a.id != b.id && Before(Utf8, a, b)
    ensures Table([a, b]) && RowsBefore([a, b], b) == [a]
  {
    CursorSplits([a, b], 1);
    assert [a, b][..1] == [a];
  }

  lemma SwapsTwo(a: Message, b: Message)
    requires Before(Utf16, b, a)
    ensures SortedCopy(Utf16, [a, b]) == [b, a]
  {
    assert [a, b][1..] == [b];
    assert SortedCopy(Utf16, [b]) == [b];
    assert Inserted(Utf16, [b], a) == [b, a];
  }

  /** load_chat_history_around: up to before rows, the anchor, and up to after rows. */
  function Around(t: seq<Message>, anchor: string, before: nat, after: nat): seq<Message> {
    if !Contains(t, anchor) then []
    else
      var a := t[IndexOf(t, anchor)];
      SortedCopy(Utf8, Last(RowsBefore(t, a) + [a], before + 1) + First(RowsAfter(t, a), after))
  }

  predicate Contains(t: seq<Message>, id: string) { t != [] && (t[0].id == id || Contains(t[1..], id)) }

  function IndexOf(t: seq<Message>, id: string): (i: nat)
    requires Contains(t, id)
    ensures i < |t| && t[i].id == id
  {
    if t[0].id == id then 0 else 1 + IndexOf(t[1..], id)
  }

  lemma {:induction false} IndexIsUnique(t: seq<Message>, i: nat)
    requires DistinctIds(t) && i < |t|
    ensures Contains(t, t[i].id) && IndexOf(t, t[i].id) == i
  {
    if i > 0 {
      assert t[0].id != t[i].id;
      assert t[1..][i - 1] == t[i];
      IndexIsUnique(t[1..], i - 1);
    }
  }

  function From(i: nat, before: nat): (lo: nat)
    ensures lo <= i
  {
    if i <= before then 0 else i - before
  }

  function To(n: nat, i: nat, after: nat): (hi: nat)
    requires i < n
    ensures i < hi <= n
  {
    if n - i - 1 <= after then n else i + 1 + after
  }

  /** The page around an anchor is the slice of the table around it. */
  lemma AroundIsSlice(t: seq<Message>, anchor: string, before: nat, after: nat)
    requires Table(t) && Contains(t, anchor)
    ensures var i := IndexOf(t, anchor); Around(t, anchor, before, after) == t[From(i, before)..To(|t|, i, after)]
  {
    var i := IndexOf(t, anchor);
    CursorSplits(t, i);
    AroundParts(t, i, before, after);
    SliceIsTable(t, From(i, before), To(|t|, i, after));
    SortedIsFixed(t[From(i, before)..To(|t|, i, after)]);
  }

  lemma AnchorInSlice(t: seq<Message>, lo: nat, i: nat, hi: nat)
    requires Table(t) && lo <= i < hi <= |t|
    ensures Contains(t[lo..hi], t[i].id) && IndexOf(t[lo..hi], t[i].id) == i - lo
  {
    assert t[lo..hi][i - lo] == t[i];
    IndexIsUnique(t[lo..hi], i - lo);
  }

  lemma AroundParts(t: seq<Message>, i: nat, before: nat, after: nat)
    requires i < |t|
    ensures Last(t[..i] + [t[i]], before + 1) + First(t[i + 1..], after) == t[From(i, before)..To(|t|, i, after)]
  {
    assert t[..i] + [t[i]] == t[..i + 1];
  }

  lemma SortedIsFixed(s: seq<Message>)
    requires Table(s)
    ensures SortedCopy(Utf8, s) == s
  {
    SortedCopySorts(Utf8, s);
    SortedUnique(Utf8, SortedCopy(Utf8, s), s);
  }
}
