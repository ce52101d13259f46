/** The history window of the open conversation, while loads complete in any order. */
module HistoryWindow {
  import opened Wrappers
  import opened HistoryPages

  datatype OwnerKind = Agent | Group

  datatype Owner = Owner(id: string, kind: OwnerKind)

  datatype Identity = Identity(owner: Owner, topic: string)

  datatype Key = Key(identity: Identity, epoch: nat)

  /** A page asked for: the latest, or the one before a cursor. */
  datatype Load = Load(key: Key, limit: nat, cursor: Option<Message>)

  datatype Anchor = Anchor(identity: Identity, anchor: string, before: nat, after: nat, epoch: nat)

  /** The rows of ms whose ids are not in the window. */
  function NewTo(ms: seq<Message>, window: seq<Message>): seq<Message> {
    if ms == [] then [] else (if HasId(window, ms[0].id) then [] else [ms[0]]) + NewTo(ms[1..], window)
  }

  predicate HasId(window: seq<Message>, id: string) { exists i :: 0 <= i < |window| && window[i].id == id }

  lemma {:induction false} AllNew(ms: seq<Message>, window: seq<Message>)
    requires forall m, w :: m in ms && w in window ==> m.id != w.id
    ensures NewTo(ms, window) == ms
  {
    if ms != [] {
      assert ms[0] in ms;
      assert forall m :: m in ms[1..] ==> m in ms;
      AllNew(ms[1..], window);
    }
  }

  /** The window is the slice of the table from lo to hi, and the flag says whether newer rows may lie beyond it. */
  predicate Slices(t: seq<Message>, window: seq<Message>, lo: nat, hi: nat, hasEvicted: bool) {
    && lo <= hi <= |t| && window == t[lo..hi] && |window| <= MAX_HISTORY_MESSAGES
    && (!hasEvicted ==> hi == |t|)
  }

  /** The other flag says whether older rows may. */
  predicate Shows(t: seq<Message>, window: seq<Message>, lo: nat, hi: nat, hasMore: bool, hasEvicted: bool) {
    Slices(t, window, lo, hi, hasEvicted) && (!hasMore ==> lo == 0)
  }

  /** Every conversation's table is in order. */
  ghost predicate Tables(db: map<Identity, seq<Message>>) { forall i :: i in db ==> Table(db[i]) }

  /** Asking for so many latest rows does not make a cut window look complete. */
  predicate Whole(t: seq<Message>, limit: nat) { !(MAX_HISTORY_MESSAGES < |t| < limit) }

  /** The latest page fills the window to the newest row, exactly if the two orders agree on every pair with one of the
      rows that are shown as the later row; its flag is then right exactly if the page was not cut, or the limit cut it. */
  lemma LatestShows(t: seq<Message>, limit: nat)
    requires Table(t)
    ensures var from := Start(|t|, limit);
            var page, k := t[from..|t|], Dropped(|t| - from);
            && Last(t, limit) == page
            && (Slices(t, Merge([], page, false), from + k, |t|, false) <==> AgreeingFrom(page, k))
            && (Shows(t, Merge([], page, false), from + k, |t|, |page| >= limit, false) <==> AgreeingFrom(page, k) && Whole(t, limit))
  {
    var from := Start(|t|, limit);
    FirstShows(t, from, |t|, |t| - from >= limit, false);
  }

  lemma LatestPlaced(t: seq<Message>, limit: nat)
    requires Table(t)
    ensures var page := Last(t, limit);
            var lo := Start(|t|, limit) + Dropped(|t| - Start(|t|, limit));
            Agreeing(t) ==>
              && Slices(t, Merge([], page, false), lo, |t|, false)
              && (Whole(t, limit) ==> |page| >= limit || lo == 0)
  {
    if Agreeing(t) {
      var from := Start(|t|, limit);
      LatestShows(t, limit);
      SliceAgrees(t, from, |t|, Dropped(|t| - from));
    }
  }

  function Least(a: nat, b: nat): nat { if a <= b then a else b }

  /** Where the last limit of n rows begin. */
  lemma LatestMeans(n: nat, limit: nat)
    ensures var from := Start(n, limit);
            && Least(Least(limit, n), 500) == n - from - Dropped(n - from)
            && from + Dropped(n - from) == n - Least(Least(limit, n), 500)
  {}

  /** However the orders differ, as many rows are shown as came, at most 500. */
  lemma LatestCount(t: seq<Message>, limit: nat)
    requires Table(t)
    ensures |Last(t, limit)| == (if |t| <= limit then |t| else limit)
    ensures |Merge([], Last(t, limit), false)| == |Last(t, limit)| - Dropped(|Last(t, limit)|)
  {
    SliceIsTable(t, |t| - |Last(t, limit)|, |t|);
    assert Last(t, limit) == t[|t| - |Last(t, limit)|..|t|];
    FirstPage(Last(t, limit));
  }

  function Start(n: nat, limit: nat): (from: nat)
    ensures from <= n
  {
    if n <= limit then 0 else n - limit
  }

  lemma FirstShows(t: seq<Message>, lo: nat, hi: nat, hasMore: bool, hasEvicted: bool)
    requires Table(t) && lo <= hi <= |t| && (hasEvicted || hi == |t|)
    ensures var w, from := Merge([], t[lo..hi], false), lo + Dropped(hi - lo);
            && (Slices(t, w, from, hi, hasEvicted) <==> AgreeingFrom(t[lo..hi], Dropped(hi - lo)))
            && (Shows(t, w, from, hi, hasMore, hasEvicted) <==> AgreeingFrom(t[lo..hi], Dropped(hi - lo)) && (hasMore || from == 0))
  {
    FirstSlice(t, lo, hi);
    FlagsRight(t, Merge([], t[lo..hi], false), lo + Dropped(hi - lo), hi, hasMore, hasEvicted, AgreeingFrom(t[lo..hi], Dropped(hi - lo)));
  }

  /** A window that is the slice exactly if agree holds. */
  lemma FlagsRight(t: seq<Message>, w: seq<Message>, lo: nat, hi: nat, hasMore: bool, hasEvicted: bool, agree: bool)
    requires lo <= hi <= |t| && hi - lo <= MAX_HISTORY_MESSAGES && (w == t[lo..hi] <==> agree) && (hasEvicted || hi == |t|)
    ensures Slices(t, w, lo, hi, hasEvicted) <==> agree
    ensures Shows(t, w, lo, hi, hasMore, hasEvicted) <==> agree && (hasMore || lo == 0)
  {}

  /** An older page grows the window towards the oldest row, and the newest rows may have to go: the result is the slice
      with right flags, exactly if the two orders agree on every pair with a row that stays as the earlier row. */
  lemma OlderShows(t: seq<Message>, lo: nat, hi: nat, limit: nat, hasEvicted: bool)
    requires Table(t) && lo < hi <= |t| && Slices(t, t[lo..hi], lo, hi, hasEvicted)
    ensures var from := Start(lo, limit);
            var window, page := t[lo..hi], t[from..lo];
            && Last(RowsBefore(t, t[lo]), limit) == page && NewTo(page, window) == page
            && (Shows(t, Merge(window, page, true), from, Kept(from, hi), |page| >= limit, hasEvicted || hi - from > MAX_HISTORY_MESSAGES)
                <==> AgreeingBefore(t[from..hi], Kept(from, hi) - from))
  {
    var from := Start(lo, limit);
    OlderPage(t, lo, limit);
    NewSlice(t, from, lo, hi);
    JoinShows(t, from, lo, hi, lo - from >= limit, hasEvicted || hi - from > MAX_HISTORY_MESSAGES);
  }

  lemma NewSlice(t: seq<Message>, from: nat, lo: nat, hi: nat)
    requires Table(t) && from <= lo <= hi <= |t|
    ensures NewTo(t[from..lo], t[lo..hi]) == t[from..lo]
  {
    SliceIsTable(t, from, hi);
    assert t[from..hi] == t[from..lo] + t[lo..hi];
    PageApart(t[lo..hi], t[from..lo]);
    AllNew(t[from..lo], t[lo..hi]);
  }

  lemma JoinShows(t: seq<Message>, from: nat, lo: nat, hi: nat, hasMore: bool, hasEvicted: bool)
    requires Table(t) && from <= lo <= hi <= |t| && (hasMore || from == 0) && (hasEvicted || Kept(from, hi) == |t|)
    ensures Shows(t, Merge(t[lo..hi], t[from..lo], true), from, Kept(from, hi), hasMore, hasEvicted)
            <==> AgreeingBefore(t[from..hi], Kept(from, hi) - from)
  {
    JoinSlices(t, from, lo, hi);
    FlagsRight(t, Merge(t[lo..hi], t[from..lo], true), from, Kept(from, hi), hasMore, hasEvicted,
               AgreeingBefore(t[from..hi], Kept(from, hi) - from));
  }

  lemma AroundRows(t: seq<Message>, anchor: string, before: nat, after: nat)
    requires Table(t) && Contains(t, anchor)
    ensures var i := HistoryPages.IndexOf(t, anchor);
            var rows := Around(t, anchor, before, after);
            && rows == t[From(i, before)..To(|t|, i, after)] && Contains(rows, anchor)
            && HistoryPages.IndexOf(rows, anchor) == i - From(i, before)
  {
    var i := HistoryPages.IndexOf(t, anchor);
    AroundIsSlice(t, anchor, before, after);
    AnchorInSlice(t, From(i, before), i, To(|t|, i, after));
  }

  /** The rows around an anchor fill the window: with the newest 500 of them, exactly if the two orders agree on every
      pair with one of these as the later row. The flags are then right exactly if no row was dropped or more lie before
      the anchor than asked for. */
  lemma AroundShows(t: seq<Message>, i: nat, before: nat, after: nat)
    requires Table(t) && i < |t|
    ensures var lo, hi := From(i, before), To(|t|, i, after);
            var w, k := Merge([], t[lo..hi], false), Dropped(hi - lo);
            && (Slices(t, w, lo + k, hi, hi - i - 1 >= after) <==> AgreeingFrom(t[lo..hi], k))
            && (Shows(t, w, lo + k, hi, i - lo >= before, hi - i - 1 >= after)
                <==> AgreeingFrom(t[lo..hi], k) && (k == 0 || i - lo >= before))
  {
    var lo, hi := From(i, before), To(|t|, i, after);
    RoomBefore(i, before, Dropped(hi - lo));
    FirstShows(t, lo, hi, i - lo >= before, hi - i - 1 >= after);
  }

  lemma RoomBefore(i: nat, before: nat, k: nat)
    ensures i - From(i, before) >= before || From(i, before) + k == 0 <==> k == 0 || i - From(i, before) >= before
  {}

  /** Where the two orders agree on the table, the anchor is shown exactly if at most 500 rows begin with it. */
  lemma AroundShown(t: seq<Message>, i: nat, before: nat, after: nat)
    requires Table(t) && i < |t|
    ensures var lo, hi := From(i, before), To(|t|, i, after);
            var w, k := Merge([], t[lo..hi], false), Dropped(hi - lo);
            Agreeing(t) ==>
              && Slices(t, w, lo + k, hi, hi - i - 1 >= after)
              && (Contains(w, t[i].id) <==> hi - i <= MAX_HISTORY_MESSAGES)
  {
    if Agreeing(t) {
      var lo, hi := From(i, before), To(|t|, i, after);
      SliceAgrees(t, lo, hi, Dropped(hi - lo));
      FirstSlice(t, lo, hi);
      AnchorShown(t, lo + Dropped(hi - lo), i, hi);
    }
  }

  lemma AnchorShown(t: seq<Message>, from: nat, i: nat, hi: nat)
    requires Table(t) && i < hi && from <= hi <= |t|
    ensures Contains(t[from..hi], t[i].id) <==> from <= i
  {
    if from <= i { AnchorInSlice(t, from, i, hi); } else { NotAmong(t, i, from, hi); }
  }

  lemma NotAmong(t: seq<Message>, i: nat, from: nat, hi: nat)
    requires DistinctIds(t) && i < from <= hi <= |t|
    ensures !Contains(t[from..hi], t[i].id)
  {
    NoneContained(t[from..hi], t[i].id);
  }

  lemma {:induction false} NoneContained(s: seq<Message>, id: string)
    requires forall k :: 0 <= k < |s| ==> s[k].id != id
    ensures !Contains(s, id)
  {
    if s != [] { NoneContained(s[1..], id); }
  }

  lemma SliceAgrees(t: seq<Message>, lo: nat, hi: nat, k: nat)
    requires Agreeing(t) && lo <= hi <= |t|
    ensures AgreeingFrom(t[lo..hi], k) && AgreeingBefore(t[lo..hi], k)
  {}

  // ---- The state

  datatype Session = Session(owner: Option<Owner>, topic: Option<string>, epoch: nat)

  function CurrentKey(s: Session): Option<Key> {
    if s.owner.Some? && s.owner.value.id != "" && s.topic.Some? && s.topic.value != ""
    then Some(Key(Identity(s.owner.value, s.topic.value), s.epoch)) else None
  }

  datatype Window = Window(rows: seq<Message>, hasMore: bool, hasEvicted: bool, loadedKey: Option<Key>)

  const Blank := Window([], true, false, None)

  /** The loads in flight, by number; the number of the newest; the one whose controller is current. */
  datatype Loads = Loads(pending: map<nat, Load>, newest: nat, controller: Option<nat>, aborted: set<nat>, loading: bool)

  /** The conversations selected so far, one for each epoch; each differs from the one before. */
  ghost predicate Visited(s: Session, visits: seq<(Option<Owner>, Option<string>)>) {
    && |visits| == s.epoch + 1 && visits[s.epoch] == (s.owner, s.topic)
    && (forall i :: 0 <= i < s.epoch ==> visits[i] != visits[i + 1])
  }

  /** The conversation that was current in the key's epoch. */
  ghost predicate Taken(k: Key, visits: seq<(Option<Owner>, Option<string>)>) {
    && k.epoch < |visits| && visits[k.epoch] == (Some(k.identity.owner), Some(k.identity.topic))
    && k.identity.owner.id != "" && k.identity.topic != ""
  }

  /** The window belongs to the conversation it was loaded for. If the two orders agree on its table it shows rows lo to
      hi of it, and the flag for older rows is right where it is vouched for. */
  ghost predicate InPlace(db: map<Identity, seq<Message>>, w: Window, lo: nat, hi: nat, vouched: bool) {
    if w.loadedKey.None? then w.rows == []
    else
      && w.loadedKey.value.identity in db
      && var t := db[w.loadedKey.value.identity];
         Agreeing(t) ==> Slices(t, w.rows, lo, hi, w.hasEvicted) && (vouched ==> w.hasMore || lo == 0)
  }

  /** A load asked for when the window was as it is, for the rows before it if it has a cursor. */
  predicate Continues(p: Load, w: Window) {
    p.cursor.Some? ==> w.loadedKey == Some(p.key) && w.rows != [] && p.cursor.value == w.rows[0] && w.hasMore
  }

  /** Only the newest load can still be committed, and it continues the window. */
  ghost predicate InFlight(l: Loads, w: Window, visits: seq<(Option<Owner>, Option<string>)>) {
    && (forall i :: i in l.pending ==> i <= l.newest && Taken(l.pending[i].key, visits))
    && (forall i :: i in l.aborted ==> i < l.newest)
    && (l.controller.Some? ==> l.controller.value <= l.newest)
    && (l.newest in l.pending ==> Continues(l.pending[l.newest], w))
  }

  /** A load that may still be committed is in progress as long as it is on its way. */
  predicate Tracking(l: Loads) {
    && (l.loading <==> l.controller.Some?) && (l.newest in l.pending ==> l.controller == Some(l.newest))
  }

  /** The three checks before a commit say that no newer load was issued and no conversation selected since. */
  lemma CurrentMeans(l: Loads, w: Window, s: Session, visits: seq<(Option<Owner>, Option<string>)>, id: nat)
    requires Visited(s, visits) && InFlight(l, w, visits) && id in l.pending
    ensures var k := l.pending[id].key;
            && (id !in l.aborted && id == l.newest && CurrentKey(s) == Some(k) <==> id == l.newest && k.epoch == s.epoch)
            && k.epoch <= s.epoch
  {
    assert Taken(l.pending[id].key, visits);
  }

  /** Every controller but the newest load's is aborted. */
  function Aborting(l: Loads): set<nat> { if l.controller.Some? then l.aborted + {l.controller.value} else l.aborted }

  // ---- What a load shows, in positions of the table

  lemma OlderMeans(lo: nat, hi: nat, limit: nat)
    requires lo <= hi
    ensures var from := Start(lo, limit);
            && from == (if limit <= lo then lo - limit else 0) && Kept(from, hi) == Least(hi, from + 500)
            && (lo - from >= limit <==> limit <= lo) && (hi - from > 500 <==> Kept(from, hi) < hi)
  {}

  /** After a latest page: the newest rows, as many as asked for but at most 500. More are expected exactly if as many
      came as were asked for; none are evicted. */
  predicate LatestIs(t: seq<Message>, limit: nat, w: Window, lo: nat, hi: nat) {
    && (w.hasMore <==> |t| >= limit) && !w.hasEvicted
    && var n := Least(Least(limit, |t|), 500);
       |w.rows| == n && (Agreeing(t) ==> hi == |t| && lo == |t| - n && w.rows == t[|t| - n..])
  }

  lemma LatestRight(t: seq<Message>, limit: nat, w: Window, lo: nat)
    requires Table(t) && w.rows == Merge([], Last(t, limit), false) && w.hasMore == (|Last(t, limit)| >= limit) && !w.hasEvicted
    requires lo == Start(|t|, limit) + Dropped(|t| - Start(|t|, limit))
    ensures LatestIs(t, limit, w, lo, |t|)
  {
    LatestCount(t, limit);
    LatestMeans(|t|, limit);
    if Agreeing(t) {
      LatestPlaced(t, limit);
      assert w.rows == t[lo..];
    }
  }

  /** After an older page, of a window that showed rows lo0 to hi0: the rows asked for come before them, and the newest
      go beyond 500. */
  predicate OlderIs(t: seq<Message>, limit: nat, lo0: nat, hi0: nat, evicted0: bool, w: Window, lo: nat, hi: nat) {
    && lo == (if limit <= lo0 then lo0 - limit else 0) && hi == Least(hi0, lo + 500)
    && lo <= hi <= |t| && w.rows == t[lo..hi]
    && (w.hasMore <==> limit <= lo0) && (w.hasEvicted <==> evicted0 || hi < hi0)
  }

  class History {
    // the database: the table of each conversation that exists
    const db: map<Identity, seq<Message>>
    var session: Session
    var window: Window
    var loads: Loads
    var anchors: map<nat, Anchor>
    var newestAnchor: nat
    // every conversation ever selected, and where the window lies in its table
    ghost var visits: seq<(Option<Owner>, Option<string>)>
    ghost var lo: nat
    ghost var hi: nat
    // the flag for older rows is right
    ghost var vouched: bool

    ghost predicate Valid()
      reads this
    {
      && Visited(session, visits) && InPlace(db, window, lo, hi, vouched) && InFlight(loads, window, visits) && Tracking(loads)
      && (forall a :: a in anchors ==> a <= newestAnchor && anchors[a].epoch <= session.epoch)
    }

    constructor (db: map<Identity, seq<Message>>)
      ensures Valid() && this.db == db && session == Session(None, None, 0)
    {
      this.db := db;
      session, window, loads, anchors, newestAnchor := Session(None, None, 0), Blank, Loads(map[], 0, None, {}, false), map[], 0;
      visits, lo, hi, vouched := [(None, None)], 0, 0, true;
    }

    // ---- The session

    /** setConversation: a change of identity opens a new epoch, whatever was open before. */
    method SetConversation(o: Option<Owner>, t: Option<string>)
      requires Valid()
      modifies `session, `visits
      ensures Valid() && session.owner == o && session.topic == t
      ensures if (o, t) == (old(session).owner, old(session).topic) then visits == old(visits) && session == old(session)
              else visits == old(visits) + [(o, t)] && session.epoch == old(session).epoch + 1
    {
      if session.owner == o && session.topic == t { return; }
      session := Session(o, t, session.epoch + 1);
      visits := visits + [(o, t)];
    }

    // ---- Loads

    /** loadHistory, up to the request. */
    method StartLoad(identity: Identity, limit: nat, older: bool) returns (started: bool)
      requires Valid()
      requires older ==> window.loadedKey.Some? && window.loadedKey == CurrentKey(session) && window.hasMore
      modifies `loads
      ensures Valid() && old(loads).pending.Keys <= loads.pending.Keys
      ensures started <==> CurrentKey(session).Some? && CurrentKey(session).value.identity == identity && !(older && window.rows == [])
      ensures started ==>
                && loads.newest == old(loads).newest + 1 && loads.newest in loads.pending && loads.loading
                && loads.pending[loads.newest]
                   == Load(CurrentKey(session).value, limit, if older then Some(window.rows[0]) else None)
      ensures !started ==> loads.pending == old(loads).pending && loads.loading == old(loads).loading
    {
      var key := CurrentKey(session);
      if key.None? || key.value.identity != identity { return false; }
      var id := loads.newest + 1;
      if older && window.rows == [] {
        loads := loads.(newest := id);
        return false;
      }
      var p := Load(key.value, limit, if older then Some(window.rows[0]) else None);
      loads := Loads(loads.pending[id := p], id, Some(id), Aborting(loads), true);
      return true;
    }

    /** loadMoreHistory */
    method LoadMore() returns (started: bool)
      requires Valid()
      modifies `loads
      ensures Valid() && old(loads).pending.Keys <= loads.pending.Keys
      ensures started <==> window.loadedKey.Some? && window.loadedKey == CurrentKey(session) && window.hasMore
                           && !old(loads).loading && window.rows != []
      ensures started ==> loads.newest == old(loads).newest + 1 && loads.newest in loads.pending
                          && loads.pending[loads.newest] == Load(window.loadedKey.value, 10, Some(window.rows[0]))
      ensures started ==> loads.loading
      ensures !started ==> loads.pending == old(loads).pending && loads.loading == old(loads).loading
    {
      var key := CurrentKey(session);
      if key.None? || window.loadedKey != key || !window.hasMore || loads.loading { return false; }
      started := StartLoad(key.value.identity, 10, true);
    }

    /** returnToLatest */
    method ReturnToLatest() returns (started: bool)
      requires Valid()
      modifies `loads
      ensures Valid() && old(loads).pending.Keys <= loads.pending.Keys
      ensures started <==> window.hasEvicted && window.loadedKey.Some? && window.loadedKey == CurrentKey(session)
      ensures started ==> loads.newest == old(loads).newest + 1 && loads.newest in loads.pending
                          && loads.pending[loads.newest] == Load(window.loadedKey.value, 15, None)
    {
      if !window.hasEvicted { return false; }
      var key := CurrentKey(session);
      if key.None? || window.loadedKey != key { return false; }
      started := StartLoad(key.value.identity, 15, false);
    }

    /** resetHistoryForConversation */
    method Reset()
      requires Valid()
      modifies `loads, `window
      ensures Valid() && window == Window([], true, false, None)
      ensures loads.newest == old(loads).newest + 1 && loads.pending == old(loads).pending
      ensures !loads.loading
    {
      loads := Loads(loads.pending, loads.newest + 1, None, Aborting(loads), false);
      window := Blank;
    }

    /** loadHistoryPaginated */
    method OpenConversation(identity: Identity) returns (started: bool)
      requires Valid()
      modifies `loads, `window
      ensures Valid() && window == Window([], true, false, None)
      ensures started ==> loads.newest in loads.pending && loads.pending[loads.newest].limit == 5
                          && loads.pending[loads.newest].cursor.None?
    {
      Reset();
      started := StartLoad(identity, 5, false);
    }

    /** The page comes, or fails. It is committed exactly if it came, no load was issued and nothing was reset
        since, and no other conversation was selected since, be it for a moment. A topic that is missing is closed, and
        then the load stays in progress: only a load that ends with its conversation still open ends the loading. */
    method LoadReply(id: nat, failed: bool) returns (committed: bool)
      requires Valid() && id in loads.pending && Tables(db)
      modifies `loads, `window, `session, `visits, `lo, `hi, `vouched
      ensures Valid() && loads.newest == old(loads).newest && loads.pending == old(loads).pending - {id}
      ensures var p := old(loads).pending[id];
              && (committed <==> !failed && p.key.identity in db && id == loads.newest && p.key.epoch == old(session).epoch)
              && (committed ==> window.loadedKey == Some(p.key) && visits == old(visits) && |visits| == p.key.epoch + 1)
              && (committed && p.cursor.Some? && Agreeing(db[p.key.identity]) ==>
                    && vouched && lo <= old(lo)
                    && (p.limit > 0 ==> 2 * lo + (if window.hasMore then 1 else 0) < 2 * old(lo) + 1))
              && (committed && p.cursor.None? ==>
                    LatestIs(db[p.key.identity], p.limit, window, lo, hi) && vouched == Whole(db[p.key.identity], p.limit))
              && (committed && p.cursor.Some? && Agreeing(db[p.key.identity]) ==>
                    OlderIs(db[p.key.identity], p.limit, old(lo), old(hi), old(window).hasEvicted, window, lo, hi))
      ensures !committed ==> window == old(window)
      ensures var p := old(loads).pending[id];
              var current := id == loads.newest && p.key.epoch == old(session).epoch;
              && session == (if current && !failed && p.key.identity !in db
                             then Session(old(session).owner, None, old(session).epoch + 1) else old(session))
              && (loads.loading <==> old(loads).loading && !(current && session == old(session)))
    {
      var p := loads.pending[id];
      CurrentMeans(loads, window, session, visits, id);
      var current := id !in loads.aborted && id == loads.newest && CurrentKey(session) == Some(p.key);
      loads := loads.(pending := loads.pending - {id});
      committed := Answer(p, failed, current);
      Conclude(id, p.key);
    }

    /** The page, or the missing topic, of the load that is current; any other answer changes nothing. */
    method Answer(p: Load, failed: bool, current: bool) returns (committed: bool)
      requires Valid() && Tables(db)
      requires current ==> loads.newest !in loads.pending && Continues(p, window) && CurrentKey(session) == Some(p.key)
      modifies `window, `session, `visits, `lo, `hi, `vouched
      ensures Valid() && (committed <==> current && !failed && p.key.identity in db)
      ensures committed ==>
                && window.loadedKey == Some(p.key)
                && (p.cursor.Some? && Agreeing(db[p.key.identity]) ==>
                      && vouched && lo <= old(lo)
                      && (p.limit > 0 ==> 2 * lo + (if window.hasMore then 1 else 0) < 2 * old(lo) + 1))
                && (p.cursor.None? ==>
                      LatestIs(db[p.key.identity], p.limit, window, lo, hi) && vouched == Whole(db[p.key.identity], p.limit))
                && (p.cursor.Some? && Agreeing(db[p.key.identity]) ==>
                      OlderIs(db[p.key.identity], p.limit, old(lo), old(hi), old(window).hasEvicted, window, lo, hi))
      ensures !committed ==> window == old(window)
      ensures if current && !failed && !committed then session == Session(old(session).owner, None, old(session).epoch + 1)
              else session == old(session) && visits == old(visits)
    {
      committed := !failed && p.key.identity in db && current;
      if committed {
        Commit(p, db[p.key.identity]);
      } else if current && !failed {
        SetConversation(session.owner, None);
      }
    }

    /** Only the newest load lowers the flag, and only while its conversation is open. */
    method Conclude(id: nat, key: Key)
      requires Valid() && id !in loads.pending
      modifies `loads
      ensures Valid() && loads.newest == old(loads).newest && loads.pending == old(loads).pending
      ensures loads.loading <==> old(loads).loading && !(loads.newest == id && old(loads).controller == Some(id)
                                                         && CurrentKey(session) == Some(key))
    {
      if loads.controller == Some(id) && id == loads.newest && CurrentKey(session) == Some(key) {
        loads := loads.(controller := None, loading := false);
      }
    }

    method Commit(p: Load, t: seq<Message>)
      requires InPlace(db, window, lo, hi, vouched) && Table(t) && p.key.identity in db && t == db[p.key.identity]
      requires Continues(p, window)
      modifies `window, `lo, `hi, `vouched
      ensures InPlace(db, window, lo, hi, vouched) && window.loadedKey == Some(p.key)
      ensures p.cursor.Some? && Agreeing(t) ==>
                vouched && lo <= old(lo) && (p.limit > 0 ==> 2 * lo + (if window.hasMore then 1 else 0) < 2 * old(lo) + 1)
      ensures p.cursor.None? ==> LatestIs(t, p.limit, window, lo, hi) && vouched == Whole(t, p.limit)
      ensures p.cursor.Some? && Agreeing(t) ==> OlderIs(t, p.limit, old(lo), old(hi), old(window).hasEvicted, window, lo, hi)
    {
      if p.cursor.None? {
        CommitLatest(p, t);
      } else {
        CommitOlder(p, t, p.cursor.value);
      }
    }

    method CommitLatest(p: Load, t: seq<Message>)
      requires Table(t) && p.key.identity in db && t == db[p.key.identity]
      modifies `window, `lo, `hi, `vouched
      ensures InPlace(db, window, lo, hi, vouched) && window.loadedKey == Some(p.key)
      ensures LatestIs(t, p.limit, window, lo, hi) && vouched == Whole(t, p.limit)
    {
      var page := Last(t, p.limit);
      LatestPlaced(t, p.limit);
      window := Window(Merge([], page, false), |page| >= p.limit, false, Some(p.key));
      ghost var from := Start(|t|, p.limit);
      lo, hi, vouched := from + Dropped(|t| - from), |t|, Whole(t, p.limit);
      LatestRight(t, p.limit, window, lo);
    }

    method CommitOlder(p: Load, t: seq<Message>, cursor: Message)
      requires window.rows != [] && cursor == window.rows[0] && p.key.identity in db && t == db[p.key.identity]
      requires Table(t) && (Agreeing(t) ==> Slices(t, window.rows, lo, hi, window.hasEvicted))
      modifies `window, `lo, `hi, `vouched
      ensures InPlace(db, window, lo, hi, vouched) && window.loadedKey == Some(p.key)
      ensures Agreeing(t) ==>
                vouched && lo <= old(lo) && (p.limit > 0 ==> 2 * lo + (if window.hasMore then 1 else 0) < 2 * old(lo) + 1)
      ensures Agreeing(t) ==> OlderIs(t, p.limit, old(lo), old(hi), old(window).hasEvicted, window, lo, hi)
    {
      hide Table, Agreeing, RowsBefore, Last, Merge, NewTo;
      var page := Last(RowsBefore(t, cursor), p.limit);
      ghost var agreeing, from, end := Agreeing(t), 0, 0;
      if agreeing {
        assert cursor == t[lo];
        OlderShows(t, lo, hi, p.limit, window.hasEvicted);
        from := Start(lo, p.limit);
        end := Kept(from, hi);
        OlderMeans(lo, hi, p.limit);
        SliceAgrees(t, from, hi, end - from);
      }
      var unique := NewTo(page, window.rows);
      var evicts := |window.rows| + |unique| > MAX_HISTORY_MESSAGES;
      window := Window(Merge(window.rows, unique, true), |page| >= p.limit, window.hasEvicted || evicts, Some(p.key));
      lo, hi, vouched := from, end, true;
    }

    // ---- Loads around an anchor

    method StartAround(identity: Identity, anchor: string, before: nat, after: nat)
      requires Valid()
      modifies `newestAnchor, `anchors
      ensures Valid() && newestAnchor == old(newestAnchor) + 1 && newestAnchor in anchors
      ensures anchors[newestAnchor] == Anchor(identity, anchor, before, after, session.epoch)
    {
      newestAnchor := newestAnchor + 1;
      anchors := anchors[newestAnchor := Anchor(identity, anchor, before, after, session.epoch)];
    }

    /** The rows around the anchor come: unless another anchor was asked for or another conversation was
        selected since, the anchor's conversation is selected. */
    method AroundReply(id: nat, failed: bool, ownerKnown: bool) returns (goesOn: bool)
      requires Valid() && id in anchors
      modifies `session, `visits
      ensures Valid()
      ensures goesOn ==>
                && id == newestAnchor && anchors[id].epoch == old(session).epoch && !failed && anchors[id].identity in db
                && Contains(db[anchors[id].identity], anchors[id].anchor)
                && session.owner == Some(anchors[id].identity.owner) && session.topic == Some(anchors[id].identity.topic)
      ensures !goesOn ==> session == old(session)
    {
      var a := anchors[id];
      if failed || id != newestAnchor || session.epoch != a.epoch || a.identity !in db { return false; }
      if !Contains(db[a.identity], a.anchor) { return false; }
      var current := CurrentKey(session);
      if current.None? || current.value.identity != a.identity {
        if !ownerKnown { return false; }
        SetConversation(Some(a.identity.owner), Some(a.identity.topic));
      }
      return true;
    }

    /** The rows are shown, if the anchor is still the last one asked for and its conversation is open. */
    method CommitAround(id: nat) returns (committed: bool)
      requires Valid() && id in anchors && anchors[id].identity in db && Tables(db)
      requires Contains(db[anchors[id].identity], anchors[id].anchor)
      modifies `loads, `window, `lo, `hi, `vouched
      ensures Valid()
      ensures committed <==> id == newestAnchor && CurrentKey(session).Some? && CurrentKey(session).value.identity == anchors[id].identity
      ensures committed ==>
                && window.loadedKey == CurrentKey(session) && loads.newest == old(loads).newest + 1
                && AroundIs(db[anchors[id].identity], anchors[id], window, vouched)
      ensures !committed ==> window == old(window) && loads == old(loads)
    {
      var a, target := anchors[id], CurrentKey(session);
      if id != newestAnchor || target.None? || target.value.identity != a.identity { return false; }
      Reset();
      ShowAround(a, db[a.identity], target.value);
      return true;
    }

    method ShowAround(a: Anchor, t: seq<Message>, target: Key)
      requires a.identity in db && t == db[a.identity] && target.identity == a.identity
      requires Table(t) && Contains(t, a.anchor)
      modifies `window, `lo, `hi, `vouched
      ensures InPlace(db, window, lo, hi, vouched) && window.loadedKey == Some(target) && AroundIs(t, a, window, vouched)
    {
      var rows := Around(t, a.anchor, a.before, a.after);
      AroundRows(t, a.anchor, a.before, a.after);
      ShowRows(a, t, target, rows, HistoryPages.IndexOf(rows, a.anchor), HistoryPages.IndexOf(t, a.anchor));
    }

    method ShowRows(a: Anchor, t: seq<Message>, target: Key, rows: seq<Message>, at: nat, ghost i: nat)
      requires a.identity in db && t == db[a.identity] && target.identity == a.identity && Table(t) && i < |t|
      requires rows == t[From(i, a.before)..To(|t|, i, a.after)] && at == i - From(i, a.before)
      modifies `window, `lo, `hi, `vouched
      ensures InPlace(db, window, lo, hi, vouched) && window.loadedKey == Some(target)
      ensures AroundAt(t, i, a, window, vouched, Contains(window.rows, t[i].id))
    {
      hide Table, Agreeing, Merge, Contains, AroundAt;
      var merged := Merge([], rows, false);
      window := Window(merged, at >= a.before, |rows| - at - 1 >= a.after, Some(target));
      ghost var from := From(i, a.before);
      hi := To(|t|, i, a.after);
      lo, vouched := from + Dropped(hi - from), Dropped(hi - from) == 0 || at >= a.before;
      AroundSeen(t, i, a, rows, merged);
      AroundPlaced(t, i, a, window, vouched, Contains(merged, t[i].id));
    }
  }

  /** What a load around an anchor at row i shows: the rows from as many before it as asked for to as many behind it, but
      only the newest 500. Older rows are expected exactly if as many lie before the anchor as asked for, newer ones
      exactly if as many lie behind it; the former is right unless rows were dropped and fewer lie before it. The anchor is
      shown exactly if at most 500 rows begin with it. */
  ghost predicate AroundIs(t: seq<Message>, a: Anchor, w: Window, vouched: bool)
    requires Contains(t, a.anchor)
  {
    AroundAt(t, HistoryPages.IndexOf(t, a.anchor), a, w, vouched, Contains(w.rows, a.anchor))
  }

  ghost predicate AroundAt(t: seq<Message>, i: nat, a: Anchor, w: Window, vouched: bool, shown: bool)
    requires i < |t|
  {
    var lo, hi := if i <= a.before then 0 else i - a.before, Least(|t|, i + 1 + a.after);
    && (w.hasMore <==> i >= a.before) && (w.hasEvicted <==> |t| - i - 1 >= a.after)
    && (vouched <==> hi - lo <= 500 || i >= a.before)
    && (Agreeing(t) ==> Newest(t, lo, hi, w.rows) && (shown <==> hi - i <= 500))
  }

  /** The newest 500 of the rows from lo to hi. */
  predicate Newest(t: seq<Message>, lo: nat, hi: nat, rows: seq<Message>) {
    lo <= hi <= |t| && rows == if hi - lo <= 500 then t[lo..hi] else t[hi - 500..hi]
  }

  lemma AroundSeen(t: seq<Message>, i: nat, a: Anchor, rows: seq<Message>, merged: seq<Message>)
    requires Table(t) && i < |t| && rows == t[From(i, a.before)..To(|t|, i, a.after)] && merged == Merge([], rows, false)
    ensures var lo, hi := From(i, a.before), To(|t|, i, a.after);
            Agreeing(t) ==>
              && Slices(t, merged, lo + Dropped(hi - lo), hi, hi - i - 1 >= a.after)
              && (Contains(merged, t[i].id) <==> hi - i <= MAX_HISTORY_MESSAGES)
  {
    AroundShown(t, i, a.before, a.after);
  }

  /** The flags, and the newest rows, in terms of the anchor's place. */
  lemma AroundPlaced(t: seq<Message>, i: nat, a: Anchor, w: Window, vouched: bool, shown: bool)
    requires i < |t|
    requires var lo, hi := From(i, a.before), To(|t|, i, a.after);
             && w.hasMore == (i - lo >= a.before) && w.hasEvicted == (hi - i - 1 >= a.after)
             && vouched == (Dropped(hi - lo) == 0 || i - lo >= a.before)
             && (Agreeing(t) ==> w.rows == t[lo + Dropped(hi - lo)..hi] && (shown <==> hi - i <= MAX_HISTORY_MESSAGES))
    ensures AroundAt(t, i, a, w, vouched, shown)
  {
    AroundMeans(|t|, i, a.before, a.after);
  }

  lemma AroundMeans(n: nat, i: nat, before: nat, after: nat)
    requires i < n
    ensures var lo, hi := From(i, before), To(n, i, after);
            && lo == (if i <= before then 0 else i - before) && hi == Least(n, i + 1 + after)
            && (i - lo >= before <==> i >= before) && (hi - i - 1 >= after <==> n - i - 1 >= after)
            && lo + Dropped(hi - lo) == if hi - lo <= 500 then lo else hi - 500
  {}

  /** Whatever is shown is sorted, holds each id once, and is at most 500 rows long. */
  lemma ShownIsTable(t: seq<Message>, window: seq<Message>, lo: nat, hi: nat, hasMore: bool, hasEvicted: bool)
    requires Table(t) && Shows(t, window, lo, hi, hasMore, hasEvicted)
    ensures Table(window) && |window| <= MAX_HISTORY_MESSAGES
    ensures !hasMore && !hasEvicted ==> window == t
  {
  }
}
