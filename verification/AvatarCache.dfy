/** The avatar cache: a least-recently-used cache of object URLs, filled by reads that may be overtaken by
    newer generations, two reads at a time. */
module AvatarCache {
  import opened Wrappers

  type Key = string

  const MAX_AVATAR_CACHE: nat := 50
  const MAX_CONCURRENT_READS: nat := 2

  datatype Entry = Entry(url: nat, version: int, hash: string)

  datatype Metadata = Metadata(hash: string, updatedAt: int)

  /** The cached entries, when each was last used, and the clock that numbers the uses. */
  datatype Cache = Cache(entries: map<Key, Entry>, recency: map<Key, nat>, clock: nat)

  datatype Phase = Queued | Holding | Reading

  /** A read of the avatar binary, asked for in some generation of its key. */
  datatype Task = Task(key: Key, generation: nat, version: int, phase: Phase)

  /** What the backend returns for an avatar. */
  datatype Image = Image(hash: string, updatedAt: int)

  datatype Row = Row(key: Key, hash: string, updatedAt: int)

  datatype Answer = Cached(url: nat) | Awaits(task: nat)

  /** Keys never changed locally are in generation 0. */
  function Number(generations: map<Key, nat>, key: Key): nat { if key in generations then generations[key] else 0 }

  function Max(a: int, b: int): int { if a < b then b else a }

  function Urls(c: Cache): set<nat> { UrlOf(c).Values }

  /** No two keys have the same number. */
  ghost predicate Injective(m: map<Key, nat>) {
    forall j, k {:trigger m[j], m[k]} :: j in m && k in m && m[j] == m[k] ==> j == k
  }

  /** The object URL of each entry. */
  function UrlOf(c: Cache): map<Key, nat> { map k | k in c.entries :: c.entries[k].url }

  function UrlAt(c: Cache, key: Key): set<nat> { if key in c.entries then {c.entries[key].url} else {} }

  /** Every entry has its own use time and its own URL. */
  ghost predicate Ranked(c: Cache) {
    && c.recency.Keys == c.entries.Keys && Injective(c.recency) && Injective(UrlOf(c))
    && (forall k :: k in c.recency ==> c.recency[k] <= c.clock)
  }

  ghost predicate LeastRecent(c: Cache, key: Key) {
    key in c.entries && c.recency.Keys == c.entries.Keys && forall k :: k in c.entries && k != key ==> c.recency[key] < c.recency[k]
  }

  /** A cached avatar is the one its metadata speak of. */
  predicate Coherent(c: Cache, metadata: map<Key, Metadata>) {
    forall k :: k in c.entries ==> k in metadata && metadata[k].hash == c.entries[k].hash
  }

  function Without(c: Cache, key: Key): Cache { c.(entries := c.entries - {key}, recency := c.recency - {key}) }

  function Touched(c: Cache, key: Key): Cache { c.(recency := c.recency[key := c.clock + 1], clock := c.clock + 1) }

  function With(c: Cache, key: Key, e: Entry): Cache { Touched(Without(c, key).(entries := (c.entries - {key})[key := e]), key) }

  lemma WithoutRanked(c: Cache, key: Key)
    requires Ranked(c)
    ensures Ranked(Without(c, key))
  {
    assert UrlOf(Without(c, key)) == UrlOf(c) - {key};
  }

  lemma WithoutCount(c: Cache, key: Key)
    ensures |Without(c, key).entries| == |c.entries| - (if key in c.entries then 1 else 0)
    ensures Without(c, key).entries.Keys == c.entries.Keys - {key}
  {
    var r := Without(c, key);
    assert r.entries.Keys == c.entries.Keys - {key};
    assert |r.entries.Keys| == |r.entries| && |c.entries.Keys| == |c.entries|;
  }

  lemma ValuesWithout(m: map<Key, nat>, key: Key)
    requires Injective(m)
    ensures (m - {key}).Values == m.Values - (if key in m then {m[key]} else {})
  {
    var gone := if key in m then {m[key]} else {};
    forall u ensures u in (m - {key}).Values <==> u in m.Values - gone {
      if u in m.Values - gone {
        var k :| k in m && m[k] == u;
        assert k in m - {key};
      }
    }
  }

  /** Only the removed entry's URL goes. */
  lemma WithoutUrls(c: Cache, key: Key)
    requires Ranked(c)
    ensures Urls(Without(c, key)) == Urls(c) - UrlAt(c, key)
  {
    ValuesWithout(UrlOf(c), key);
    assert UrlOf(Without(c, key)) == UrlOf(c) - {key};
  }

  lemma WithRanked(c: Cache, key: Key, e: Entry)
    requires Ranked(c) && e.url !in Urls(c)
    ensures Ranked(With(c, key, e))
  {
    WithoutRanked(c, key);
    var w := Without(c, key);
    forall k | k in UrlOf(w) && k != key ensures UrlOf(w)[k] != e.url { assert UrlOf(c)[k] in UrlOf(c).Values; }
    assert UrlOf(With(c, key, e)) == UrlOf(w)[key := e.url];
    InjectiveWith(UrlOf(w), key, e.url);
    InjectiveWith(w.recency, key, c.clock + 1);
  }

  lemma InjectiveWith(m: map<Key, nat>, key: Key, v: nat)
    requires Injective(m) && forall k :: k in m && k != key ==> m[k] != v
    ensures Injective(m[key := v])
  {}

  lemma WithCount(c: Cache, key: Key, e: Entry)
    ensures |With(c, key, e).entries| == |Without(c, key).entries| + 1
    ensures With(c, key, e).entries.Keys == c.entries.Keys + {key}
  {
    var w, r := Without(c, key), With(c, key, e);
    assert r.entries.Keys == w.entries.Keys + {key} && |r.entries.Keys| == |r.entries| && |w.entries.Keys| == |w.entries|;
    assert w.entries.Keys == c.entries.Keys - {key};
  }

  lemma WithUrls(c: Cache, key: Key, e: Entry)
    ensures Urls(With(c, key, e)) == Urls(Without(c, key)) + {e.url}
  {
    var w, r := UrlOf(Without(c, key)), UrlOf(With(c, key, e));
    assert r == w[key := e.url] && key !in w;
    forall u ensures u in r.Values <==> u in w.Values || u == e.url {
      if u in w.Values {
        var k :| k in w && w[k] == u;
        assert k in r && r[k] == u;
      }
      if u == e.url { assert key in r && r[key] == u; }
    }
  }

  lemma TouchedRanked(c: Cache, key: Key)
    requires Ranked(c) && key in c.entries
    ensures Ranked(Touched(c, key)) && Urls(Touched(c, key)) == Urls(c) && c.entries[key].url in Urls(c)
  {
    assert UrlOf(Touched(c, key)) == UrlOf(c);
    assert UrlOf(c)[key] in UrlOf(c).Values;
  }

  /** The entry used last is not the one used least recently, unless it is the only one. */
  lemma NewestIsNotOldest(c: Cache, newest: Key, oldest: Key)
    requires Ranked(c) && newest in c.entries && c.recency[newest] == c.clock && |c.entries| > 1
    requires oldest in c.entries && forall k :: k in c.entries && k != oldest ==> c.recency[oldest] < c.recency[k]
    ensures newest != oldest
  {
    assert |c.entries.Keys| == |c.entries|;
    assert |c.entries.Keys - {newest}| == |c.entries| - 1;
    var other :| other in c.entries.Keys - {newest};
    assert c.recency[other] <= c.clock;
  }

  /** A new URL, counted as live, for a key whose metadata are those of the new entry. */
  ghost predicate Placeable(c: Cache, key: Key, e: Entry, metadata: map<Key, Metadata>, live: set<nat>) {
    && Ranked(c) && Coherent(Without(c, key), metadata) && key in metadata && metadata[key].hash == e.hash
    && e.url !in Urls(c) && live == Urls(c) + {e.url}
  }

  lemma UrlIsKnown(c: Cache, key: Key)
    ensures UrlAt(c, key) <= Urls(c)
  {
    if key in c.entries { assert UrlOf(c)[key] in UrlOf(c).Values; }
  }

  lemma PlacedUrls(c: Cache, key: Key, e: Entry)
    requires Ranked(c) && e.url !in Urls(c)
    ensures Urls(With(c, key, e)) == Urls(c) + {e.url} - UrlAt(c, key)
  {
    WithoutUrls(c, key);
    WithUrls(c, key, e);
    UrlIsKnown(c, key);
  }

  lemma WithCoherent(c: Cache, key: Key, e: Entry, metadata: map<Key, Metadata>)
    requires Coherent(Without(c, key), metadata) && key in metadata && metadata[key].hash == e.hash
    ensures Coherent(With(c, key, e), metadata)
  {
    forall k | k in With(c, key, e).entries && k != key
      ensures k in metadata && metadata[k].hash == With(c, key, e).entries[k].hash
    {
      assert k in Without(c, key).entries;
    }
  }

  /** What a store keeps between steps: live is the set of object URLs not yet revoked. */
  ghost predicate Stored(c: Cache, metadata: map<Key, Metadata>, live: set<nat>, nextUrl: nat) {
    && Ranked(c) && Coherent(c, metadata) && live == Urls(c) && |c.entries| <= MAX_AVATAR_CACHE
    && forall u :: u in live ==> u < nextUrl
  }

  /** The new entry in place, and the URL that it replaces no longer live: all but the size is as it should be. */
  lemma PlacedStored(c: Cache, key: Key, e: Entry, metadata: map<Key, Metadata>, live: set<nat>, nextUrl: nat)
    requires Placeable(c, key, e, metadata, live) && |c.entries| <= MAX_AVATAR_CACHE && forall u :: u in live ==> u < nextUrl
    ensures var w := With(c, key, e);
            && Overfull(w, metadata, live - UrlAt(c, key), nextUrl)
            && key in w.entries && w.entries[key] == e && w.recency[key] == w.clock
  {
    WithRanked(c, key, e);
    WithCoherent(c, key, e, metadata);
    WithCount(c, key, e);
    WithoutCount(c, key);
    PlacedUrls(c, key, e);
    UrlIsKnown(c, key);
    UrlIsOwn(c, key, e);
  }

  lemma UrlIsOwn(c: Cache, key: Key, e: Entry)
    requires e.url !in Urls(c)
    ensures e.url !in UrlAt(c, key)
  {
    UrlIsKnown(c, key);
  }

  /** As in a store, but for one entry more at most. */
  ghost predicate Overfull(c: Cache, metadata: map<Key, Metadata>, live: set<nat>, nextUrl: nat) {
    && Ranked(c) && Coherent(c, metadata) && live == Urls(c) && |c.entries| <= MAX_AVATAR_CACHE + 1
    && forall u :: u in live ==> u < nextUrl
  }

  /** Evicting the entry used least recently keeps the one used last. */
  lemma EvictedStored(c: Cache, key: Key, lost: Key, metadata: map<Key, Metadata>, live: set<nat>, nextUrl: nat)
    requires Overfull(c, metadata, live, nextUrl) && |c.entries| == MAX_AVATAR_CACHE + 1 && LeastRecent(c, lost)
    requires key in c.entries && c.recency[key] == c.clock
    ensures lost != key && Stored(Without(c, lost), metadata, live - UrlAt(c, lost), nextUrl)
  {
    NewestIsNotOldest(c, key, lost);
    WithoutRanked(c, lost);
    WithoutCount(c, lost);
    WithoutUrls(c, lost);
  }

  /** The reads under way, how many slots are taken, and who waits for one, in order. */
  datatype Slots = Slots(tasks: map<nat, Task>, active: nat, waiters: seq<nat>)

  /** As many reads hold a slot as are counted, two at most; reads wait only while both are taken. */
  ghost predicate Slotted(s: Slots, holders: set<nat>) {
    && s.active == |holders| && s.active <= 2 && (s.waiters != [] ==> s.active == 2)
    && holders <= s.tasks.Keys && (forall t :: t in s.waiters ==> t in s.tasks && s.tasks[t].phase == Queued)
    && (forall t :: t in s.tasks ==> if s.tasks[t].phase == Queued then t in s.waiters && t !in holders else t in holders)
    && Distinct(s.waiters)
  }

  /** Slots are given in the order in which they are asked for. */
  ghost predicate Ordered(s: Slots, holders: set<nat>, asked: seq<nat>, given: seq<nat>, nextTask: nat) {
    Slotted(s, holders) && asked == given + s.waiters && forall t :: t in s.tasks ==> t < nextTask
  }

  /** acquireAvatarReadSlot for a new read. */
  function Asked(s: Slots, t: nat, task: Task): Slots {
    if s.active < MAX_CONCURRENT_READS then Slots(s.tasks[t := task.(phase := Holding)], s.active + 1, s.waiters)
    else Slots(s.tasks[t := task.(phase := Queued)], s.active, s.waiters + [t])
  }

  /** releaseAvatarReadSlot: the slot goes to the first in the queue, or becomes free. */
  function Released(s: Slots, t: nat): Slots {
    if s.waiters == [] then Slots(s.tasks - {t}, Max(0, s.active - 1), [])
    else
      var next := s.waiters[0];
      Slots(if next in s.tasks then (s.tasks - {t})[next := s.tasks[next].(phase := Holding)] else s.tasks - {t},
            s.active, s.waiters[1..])
  }

  lemma ReleasedHandsOn(s: Slots, holders: set<nat>, t: nat)
    requires Slotted(s, holders) && t in holders && s.waiters != []
    ensures Slotted(Released(s, t), holders - {t} + {s.waiters[0]})
  {
    DistinctTail(s.waiters);
    assert |holders - {t} + {s.waiters[0]}| == |holders|;
  }

  lemma ReleasedFrees(s: Slots, holders: set<nat>, t: nat)
    requires Slotted(s, holders) && t in holders && s.waiters == []
    ensures Slotted(Released(s, t), holders - {t})
  {}

  lemma ReleasedKeeps(s: Slots, holders: set<nat>, t: nat)
    requires Slotted(s, holders) && t in holders
    ensures Slotted(Released(s, t), holders - {t} + (if s.waiters == [] then {} else {s.waiters[0]}))
  {
    if s.waiters == [] { ReleasedFrees(s, holders, t); } else { ReleasedHandsOn(s, holders, t); }
  }

  lemma ReleasedOrdered(s: Slots, holders: set<nat>, t: nat, asked: seq<nat>, given: seq<nat>, nextTask: nat)
    requires Ordered(s, holders, asked, given, nextTask) && t in holders
    ensures var next := if s.waiters == [] then [] else [s.waiters[0]];
            Ordered(Released(s, t), holders - {t} + (if s.waiters == [] then {} else {s.waiters[0]}), asked, given + next, nextTask)
  {
    ReleasedKeeps(s, holders, t);
    if s.waiters != [] { assert s.waiters == [s.waiters[0]] + s.waiters[1..]; }
  }

  lemma AskedOrdered(s: Slots, holders: set<nat>, task: Task, asked: seq<nat>, given: seq<nat>, t: nat)
    requires Ordered(s, holders, asked, given, t)
    ensures var free := s.active < MAX_CONCURRENT_READS;
            Ordered(Asked(s, t, task), if free then holders + {t} else holders, asked + [t], if free then given + [t] else given, t + 1)
  {
    if s.active < MAX_CONCURRENT_READS { AskedHolds(s, holders, task, t); } else { AskedWaits(s, holders, task, t); }
  }

  lemma AskedHolds(s: Slots, holders: set<nat>, task: Task, t: nat)
    requires Slotted(s, holders) && t !in s.tasks && s.active < MAX_CONCURRENT_READS
    ensures Slotted(Asked(s, t, task), holders + {t})
  {
    assert t !in holders && |holders + {t}| == |holders| + 1;
  }

  lemma AskedWaits(s: Slots, holders: set<nat>, task: Task, t: nat)
    requires Slotted(s, holders) && t !in s.tasks && s.active == MAX_CONCURRENT_READS
    ensures Slotted(Asked(s, t, task), holders)
  {
    assert t !in holders && t !in s.waiters;
    DistinctWith(s.waiters, t);
  }

  predicate Distinct(s: seq<nat>) { forall i, j :: 0 <= i < j < |s| ==> s[i] != s[j] }

  lemma DistinctWith(s: seq<nat>, t: nat)
    requires Distinct(s) && t !in s
    ensures Distinct(s + [t]) && forall x :: x in s + [t] <==> x in s || x == t
  {}

  lemma DistinctTail(s: seq<nat>)
    requires Distinct(s) && s != []
    ensures Distinct(s[1..]) && s[0] !in s[1..] && forall x :: x in s <==> x == s[0] || x in s[1..]
  {
    assert s == [s[0]] + s[1..];
  }

  /** The key was not changed locally since the snapshot. */
  predicate Untouched(generations: map<Key, nat>, snapshot: map<Key, nat>, key: Key) {
    Number(generations, key) == Number(snapshot, key)
  }

  // ---- One key: what the store holds for it, and what a metadata load makes of that

  datatype KeyState = KeyState(entry: Option<Entry>, used: Option<nat>, metadata: Option<Metadata>, generation: nat,
                               pending: Option<nat>)

  function At<V>(m: map<Key, V>, key: Key): Option<V> { if key in m then Some(m[key]) else None }

  /** The entry is in, and the least recent other one is out if there are too many. */
  ghost predicate Placed(c: Cache, c': Cache, key: Key, e: Entry, lost: Option<Key>) {
    var full := With(c, key, e);
    && (lost.Some? <==> |full.entries| > 50)
    && (lost.Some? ==> LeastRecent(full, lost.value) && lost.value != key)
    && c' == if lost.Some? then Without(full, lost.value) else full
  }

  lemma PutAgain<V>(m: map<Key, V>, key: Key, v: V)
    ensures (m - {key})[key := v] == m[key := v]
  {}

  lemma WithAnyway(c: Cache, c': Cache, key: Key, e: Entry)
    requires c' == c || c' == Without(c, key)
    ensures With(c', key, e) == With(c, key, e)
  {
    assert Without(c', key).entries == Without(c, key).entries && Without(c', key).recency == Without(c, key).recency;
  }

  /** What a store holds for all keys. */
  datatype Book = Book(cache: Cache, metadata: map<Key, Metadata>, generations: map<Key, nat>, pending: map<Key, nat>)

  ghost function StateAt(b: Book, key: Key): KeyState {
    KeyState(At(b.cache.entries, key), At(b.cache.recency, key), At(b.metadata, key), Number(b.generations, key), At(b.pending, key))
  }

  /** The one differs from the other at this key alone. */
  ghost predicate Differ(b: Book, b': Book, key: Key) {
    b'.cache.clock == b.cache.clock && forall k :: k != key ==> StateAt(b', k) == StateAt(b, k)
  }

  lemma GivenUp(b: Book, key: Key, clear: bool)
    ensures var b' := Book(Without(b.cache, key), if clear then b.metadata - {key} else b.metadata,
                           b.generations[key := Number(b.generations, key) + 1], b.pending - {key});
            && Differ(b, b', key)
            && StateAt(b', key) == if clear then Outdated(StateAt(b, key)).(metadata := None) else Outdated(StateAt(b, key))
  {}

  /** The keys that are not listed are gone, except those still to be looked at. */
  ghost predicate Dropping(b: Book, b': Book, left: set<Key>, listed: set<Key>, snapshot: map<Key, nat>) {
    && b'.cache.clock == b.cache.clock && (forall k :: k in left ==> Known(StateAt(b, k)))
    && forall k :: StateAt(b', k) == if k in listed || k in left then StateAt(b, k) else Unlisted(StateAt(b, k), Number(snapshot, k))
  }

  /** Each key is what the rows so far make of it. */
  ghost predicate Taking(b: Book, b': Book, rows: seq<Row>, snapshot: map<Key, nat>) {
    && b'.cache.clock == b.cache.clock
    && forall k :: StateAt(b', k) == RowsTaken(StateAt(b, k), rows, k, Number(snapshot, k))
  }

  lemma TakenFurther(b: Book, b1: Book, b2: Book, rows: seq<Row>, row: Row, snapshot: map<Key, nat>)
    requires Taking(b, b1, rows, snapshot) && Differ(b1, b2, row.key)
    requires StateAt(b2, row.key) == RowTaken(StateAt(b1, row.key), row, Number(snapshot, row.key))
    ensures Taking(b, b2, rows + [row], snapshot)
  {
    assert (rows + [row])[..|rows|] == rows;
    forall k ensures StateAt(b2, k) == RowsTaken(StateAt(b, k), rows + [row], k, Number(snapshot, k)) {
      if k != row.key { assert StateAt(b2, k) == StateAt(b1, k); }
    }
  }

  lemma NoneDropped(b: Book, listed: set<Key>, snapshot: map<Key, nat>)
    ensures Dropping(b, b, b.metadata.Keys + b.cache.entries.Keys + b.pending.Keys, listed, snapshot)
  {}

  lemma DroppedFurther(b: Book, b1: Book, b2: Book, left: set<Key>, key: Key, listed: set<Key>, snapshot: map<Key, nat>)
    requires Dropping(b, b1, left, listed, snapshot) && key in left && Differ(b1, b2, key)
    requires StateAt(b2, key) == if key in listed then StateAt(b1, key) else Unlisted(StateAt(b1, key), Number(snapshot, key))
    ensures Dropping(b, b2, left - {key}, listed, snapshot)
  {
    assert StateAt(b1, key) == StateAt(b, key);
    forall k ensures StateAt(b2, k) == if k in listed || k in left - {key} then StateAt(b, k)
                                       else Unlisted(StateAt(b, k), Number(snapshot, k))
    {
      if k != key { assert StateAt(b2, k) == StateAt(b1, k); }
    }
  }

  /** The row contradicts what is cached, known, or being read. */
  predicate Contradicts(row: Row, k: KeyState) {
    || (k.metadata.Some? && k.metadata.value.hash != row.hash)
    || (k.entry.Some? && k.entry.value.hash != row.hash)
    || (k.pending.Some? && (k.metadata.None? || k.metadata.value.updatedAt < row.updatedAt))
  }

  /** The cached avatar, and the read under way, are given up in favour of a new generation. */
  function Outdated(k: KeyState): KeyState { k.(entry := None, used := None, generation := k.generation + 1, pending := None) }

  /** The test of the source. */
  lemma ContradictsMeans(b: Book, row: Row)
    ensures var known, m := row.key in b.metadata, b.metadata;
            Contradicts(row, StateAt(b, row.key)) <==>
              || (row.key in b.pending && (!known || m[row.key].hash != row.hash || m[row.key].updatedAt < row.updatedAt))
              || (known && m[row.key].hash != row.hash)
              || (row.key in b.cache.entries && b.cache.entries[row.key].hash != row.hash)
  {}

  function RowTaken(k: KeyState, row: Row, base: nat): KeyState {
    if k.generation != base || (k.metadata.Some? && k.metadata.value.updatedAt > row.updatedAt) then k
    else (if Contradicts(row, k) then Outdated(k) else k).(metadata := Some(Metadata(row.hash, row.updatedAt)))
  }

  function RowsTaken(k: KeyState, rows: seq<Row>, key: Key, base: nat): KeyState {
    if rows == [] then k
    else
      var row, before := rows[|rows| - 1], RowsTaken(k, rows[..|rows| - 1], key, base);
      if row.key == key then RowTaken(before, row, base) else before
  }

  predicate Known(k: KeyState) { k.entry.Some? || k.metadata.Some? || k.pending.Some? }

  function Unlisted(k: KeyState, base: nat): KeyState {
    if k.generation == base && Known(k) then Outdated(k).(metadata := None) else k
  }

  /** The key after a metadata load that began when its generation was base. */
  function Reloaded(k: KeyState, rows: seq<Row>, key: Key, base: nat): KeyState {
    if key in KeysOf(rows) then RowsTaken(k, rows, key, base) else Unlisted(k, base)
  }

  /** A key that was changed since the load began is left as it is. */
  lemma {:induction false} ChangedIsKept(k: KeyState, rows: seq<Row>, key: Key, base: nat)
    requires k.generation > base
    ensures RowsTaken(k, rows, key, base) == k == Reloaded(k, rows, key, base)
  {
    if rows != [] { ChangedIsKept(k, rows[..|rows| - 1], key, base); }
  }

  /** A listed key whose rows say what is known and cached keeps its avatar and its generation. */
  lemma {:induction false} AgreedIsKept(k: KeyState, rows: seq<Row>, key: Key, base: nat)
    requires k.metadata.Some? && (k.entry.Some? ==> k.entry.value.hash == k.metadata.value.hash) && k.pending.None?
    requires forall row :: row in rows && row.key == key ==> row.hash == k.metadata.value.hash
    ensures var r := RowsTaken(k, rows, key, base);
            && r.entry == k.entry && r.used == k.used && r.generation == k.generation && r.pending == k.pending
            && r.metadata.Some? && r.metadata.value.hash == k.metadata.value.hash
            && r.metadata.value.updatedAt >= k.metadata.value.updatedAt
  {
    if rows != [] {
      var n := |rows| - 1;
      assert rows[n] in rows && forall row :: row in rows[..n] ==> row in rows;
      AgreedIsKept(k, rows[..n], key, base);
    }
  }

  /** A listed key that was not changed has metadata afterwards: those of a row, or some that are newer than one. */
  lemma {:induction false} ListedIsKnown(k: KeyState, rows: seq<Row>, key: Key, base: nat)
    requires k.generation == base && key in KeysOf(rows)
    ensures var r := RowsTaken(k, rows, key, base);
            r.metadata.Some? && exists row :: row in rows && row.key == key && Says(row, r.metadata.value)
  {
    var n := |rows| - 1;
    var before, row := RowsTaken(k, rows[..n], key, base), rows[n];
    assert row in rows && forall x :: x in rows[..n] ==> x in rows;
    if key in KeysOf(rows[..n]) {
      ListedIsKnown(k, rows[..n], key, base);
      var x :| x in rows[..n] && x.key == key && Says(x, before.metadata.value);
      if row.key == key && before.generation == base && before.metadata.value.updatedAt <= row.updatedAt {
        assert Says(row, Metadata(row.hash, row.updatedAt));
      } else {
        assert x in rows;
      }
    } else {
      NotTaken(k, rows[..n], key, base);
      assert row.key == key && before == k;
      assert Says(row, RowTaken(k, row, base).metadata.value);
    }
  }

  /** The metadata are the row's, or newer. */
  predicate Says(row: Row, m: Metadata) { m == Metadata(row.hash, row.updatedAt) || m.updatedAt > row.updatedAt }

  lemma {:induction false} NotTaken(k: KeyState, rows: seq<Row>, key: Key, base: nat)
    requires key !in KeysOf(rows)
    ensures RowsTaken(k, rows, key, base) == k
  {
    if rows != [] { NotTaken(k, rows[..|rows| - 1], key, base); }
  }

  /** A key that was not changed and is not listed is gone, and a read of it under way does not count any more. */
  lemma UnlistedIsGone(k: KeyState, rows: seq<Row>, key: Key)
    requires key !in KeysOf(rows) && (k.used.Some? <==> k.entry.Some?)
    ensures var r := Reloaded(k, rows, key, k.generation);
            && r.entry.None? && r.used.None? && r.metadata.None? && r.pending.None?
            && r.generation == k.generation + if k.entry.None? && k.metadata.None? && k.pending.None? then 0 else 1
  {}

  /** No avatar is made up, and none survives that contradicts what is known; a read is given up with it. */
  lemma {:induction false} SurvivorAgrees(k: KeyState, rows: seq<Row>, key: Key, base: nat)
    requires k.entry.Some? ==> k.metadata.Some? && k.metadata.value.hash == k.entry.value.hash
    ensures var r := RowsTaken(k, rows, key, base);
            && (r.entry.Some? ==> r.entry == k.entry && r.used == k.used && r.metadata.Some?
                                  && r.metadata.value.hash == r.entry.value.hash)
            && (r.pending.Some? ==> r.pending == k.pending)
            && (r.generation == k.generation ==> r.entry == k.entry && r.used == k.used && r.pending == k.pending)
            && (r.generation != k.generation ==>
                  k.generation == base && r.generation == base + 1 && r.entry.None? && r.pending.None?)
  {
    if rows != [] { SurvivorAgrees(k, rows[..|rows| - 1], key, base); }
  }

  lemma ReadingHolds(s: Slots, holders: set<nat>, asked: seq<nat>, given: seq<nat>, nextTask: nat, t: nat)
    requires Ordered(s, holders, asked, given, nextTask) && t in s.tasks && s.tasks[t].phase == Reading
    ensures t in holders
  {}

  /** A read that ends is not the pending one any more. */
  function Ended(pending: map<Key, nat>, key: Key, t: nat): map<Key, nat> {
    if key in pending && pending[key] == t then pending - {key} else pending
  }

  /** The key's metadata are known, and of another hash. */
  predicate Renews(metadata: map<Key, Metadata>, key: Key, hash: string) { key in metadata && metadata[key].hash != hash }

  function KeysOf(rows: seq<Row>): set<Key> {
    if rows == [] then {} else KeysOf(rows[..|rows| - 1]) + {rows[|rows| - 1].key}
  }

  class AvatarStore {
    var cache: Cache
    var metadata: map<Key, Metadata>
    var generations: map<Key, nat>
    var pending: map<Key, nat>
    var slots: Slots
    var nextTask: nat
    var nextUrl: nat
    var metadataLoad: nat
    // the object URLs not revoked, the reads that hold a slot, and slots asked for and given, in order
    var live: set<nat>
    ghost var holders: set<nat>
    ghost var asked: seq<nat>
    ghost var given: seq<nat>

    ghost predicate Sound()
      reads `cache, `metadata, `live, `nextUrl
    {
      Stored(cache, metadata, live, nextUrl)
    }

    /** Slots are given in the order in which they are asked for. */
    ghost predicate Fair()
      reads `slots, `holders, `asked, `given, `nextTask
    {
      Ordered(slots, holders, asked, given, nextTask)
    }

    function Generation(key: Key): nat
      reads `generations
    {
      Number(generations, key)
    }

    ghost function AtKey(key: Key): KeyState
      reads `cache, `metadata, `generations, `pending
    {
      StateAt(Now(), key)
    }

    ghost function Now(): Book
      reads `cache, `metadata, `generations, `pending
    {
      Book(cache, metadata, generations, pending)
    }

    /** Nothing is changed but at this key. */
    twostate predicate OnlyAt(key: Key)
      reads `cache, `metadata, `generations, `pending
    {
      Differ(old(Now()), Now(), key)
    }

    constructor ()
      ensures Sound() && Fair()
    {
      cache, metadata, generations, pending := Cache(map[], map[], 0), map[], map[], map[];
      slots, nextTask, nextUrl, metadataLoad, live := Slots(map[], 0, []), 0, 0, 0, {};
      holders, asked, given := {}, [], [];
    }

    // ---- The cache

    /** revokeCachedAvatar */
    method Revoke(key: Key)
      requires Sound()
      modifies `cache, `live
      ensures Sound() && cache == Without(old(cache), key)
    {
      WithoutRanked(cache, key);
      WithoutCount(cache, key);
      WithoutUrls(cache, key);
      live := live - UrlAt(cache, key);
      cache := Without(cache, key);
    }

    /** The scan of evictCacheOverflow: the entry used least recently. */
    method Oldest() returns (oldest: Key)
      requires Ranked(cache) && |cache.entries| > 0
      ensures oldest in cache.entries && forall k :: k in cache.entries && k != oldest ==> cache.recency[oldest] < cache.recency[k]
    {
      var keys := cache.entries.Keys;
      assert |keys| == |cache.entries|;
      oldest :| oldest in keys;
      keys := keys - {oldest};
      while keys != {}
        invariant keys <= cache.entries.Keys && oldest in cache.entries && oldest !in keys
        invariant forall k :: k in cache.entries && k != oldest && k !in keys ==> cache.recency[oldest] < cache.recency[k]
      {
        var k :| k in keys;
        if cache.recency[k] < cache.recency[oldest] { oldest := k; }
        keys := keys - {k};
      }
    }

    /** setCachedAvatar: the new entry is the most recent; beyond fifty, the least recent goes, and its URL is
        revoked. The new entry itself never goes. */
    method SetCached(key: Key, e: Entry) returns (ghost lost: Option<Key>)
      requires Placeable(cache, key, e, metadata, live) && |cache.entries| <= MAX_AVATAR_CACHE && forall u :: u in live ==> u < nextUrl
      modifies `cache, `live
      ensures Sound() && key in cache.entries && cache.entries[key] == e
      ensures Placed(old(cache), cache, key, e, lost)
    {
      PlacedStored(cache, key, e, metadata, live, nextUrl);
      live := live - UrlAt(cache, key);
      cache := With(cache, key, e);
      lost := None;
      if |cache.entries| > MAX_AVATAR_CACHE {
        ghost var k := EvictOne(key);
        lost := Some(k);
      }
    }

    /** One turn of evictCacheOverflow, after key was just used. */
    method EvictOne(ghost key: Key) returns (ghost gone: Key)
      requires Overfull(cache, metadata, live, nextUrl) && |cache.entries| == MAX_AVATAR_CACHE + 1
      requires key in cache.entries && cache.recency[key] == cache.clock
      modifies `cache, `live
      ensures Sound() && key in cache.entries && cache.entries[key] == old(cache).entries[key]
      ensures LeastRecent(old(cache), gone) && gone != key && cache == Without(old(cache), gone)
    {
      var lost := Oldest();
      gone := lost;
      assert LeastRecent(cache, lost);
      EvictedStored(cache, key, lost, metadata, live, nextUrl);
      live := live - UrlAt(cache, lost);
      cache := Without(cache, lost);
    }

    /** getCachedAvatar: the check against the metadata never fails. */
    method GetCached(key: Key, version: int) returns (url: Option<nat>)
      requires Sound()
      modifies `cache, `live
      ensures Sound() && live == old(live) && cache.entries == old(cache).entries
      ensures url.Some? <==> key in cache.entries && !(version != 0 && cache.entries[key].version < version)
      ensures url.Some? ==> url.value == cache.entries[key].url && url.value in live && cache == Touched(old(cache), key)
      ensures url.None? ==> cache == old(cache)
    {
      if key !in cache.entries { return None; }
      if key in metadata && metadata[key].hash != cache.entries[key].hash {
        assert false; // the branch that would revoke the entry
      }
      if version != 0 && cache.entries[key].version < version { return None; }
      TouchedRanked(cache, key);
      cache := Touched(cache, key);
      return Some(cache.entries[key].url);
    }

    // ---- Generations

    /** advanceGeneration: no read of an earlier generation counts any more. */
    method Advance(key: Key)
      modifies `generations, `pending
      ensures generations == old(generations)[key := old(Generation(key)) + 1] && pending == old(pending) - {key}
    {
      generations := generations[key := Generation(key) + 1];
      pending := pending - {key};
    }

    method Forget(key: Key)
      requires Sound() && key !in cache.entries
      modifies `metadata
      ensures Sound() && metadata == old(metadata) - {key}
    {
      metadata := metadata - {key};
    }

    method Note(key: Key, m: Metadata)
      requires Sound() && key !in cache.entries
      modifies `metadata
      ensures Sound() && metadata == old(metadata)[key := m]
    {
      metadata := metadata[key := m];
    }

    /** invalidateAvatarKey */
    method Invalidate(key: Key, clearMetadata: bool)
      requires Sound()
      modifies `generations, `pending, `cache, `live, `metadata
      ensures Sound() && cache == Without(old(cache), key) && pending == old(pending) - {key}
      ensures generations == old(generations)[key := old(Generation(key)) + 1]
      ensures metadata == if clearMetadata then old(metadata) - {key} else old(metadata)
    {
      Advance(key);
      Revoke(key);
      if clearMetadata { Forget(key); }
    }

    /** clearCache */
    method Clear(key: Key)
      requires Sound()
      modifies `generations, `pending, `cache, `live, `metadata
      ensures Sound() && Emptied(key) && pending == old(pending) - {key}
    {
      Invalidate(key, true);
    }

    // ---- Reads

    /** getAvatarUrl, up to the read. */
    method GetUrl(key: Key, version: int) returns (answer: Answer)
      requires Sound() && Fair()
      modifies `cache, `live, `pending, `slots, `holders, `asked, `given, `nextTask
      ensures Sound() && Fair() && cache.entries == old(cache).entries
      ensures answer.Cached? ==> key in cache.entries && answer.url == cache.entries[key].url && answer.url in live
                                 && (version == 0 || cache.entries[key].version >= version) && slots == old(slots)
      ensures answer.Cached? <==> key in old(cache).entries && !(version != 0 && old(cache).entries[key].version < version)
      ensures cache == if answer.Cached? then Touched(old(cache), key) else old(cache)
      ensures answer.Awaits? ==> key in pending && pending[key] == answer.task
      ensures answer.Cached? || key in old(pending) ==> pending == old(pending) && slots == old(slots)
      ensures answer.Awaits? && key !in old(pending) ==>
                && answer.task == old(nextTask) && pending == old(pending)[key := answer.task]
                && slots == Asked(old(slots), answer.task, Task(key, Generation(key), version, Queued))
    {
      var url := GetCached(key, version);
      if url.Some? { return Cached(url.value); }
      if key in pending { return Awaits(pending[key]); }
      var t := AskRead(key, version);
      return Awaits(t);
    }

    method AskRead(key: Key, version: int) returns (t: nat)
      requires Fair()
      modifies `pending, `slots, `holders, `asked, `given, `nextTask
      ensures Fair() && t == old(nextTask) && pending == old(pending)[key := t]
      ensures slots == Asked(old(slots), t, Task(key, Generation(key), version, Queued))
    {
      t := AskSlot(Task(key, Generation(key), version, Queued));
      pending := pending[key := t];
    }

    method AskSlot(task: Task) returns (t: nat)
      requires Fair()
      modifies `slots, `holders, `asked, `given, `nextTask
      ensures Fair() && t == old(nextTask) && asked == old(asked) + [t] && slots == Asked(old(slots), t, task)
    {
      t := nextTask;
      AskedOrdered(slots, holders, task, asked, given, t);
      asked := asked + [t];
      if slots.active < MAX_CONCURRENT_READS {
        holders, given := holders + {t}, given + [t];
      }
      slots, nextTask := Asked(slots, t, task), nextTask + 1;
    }

    /** A read ends: its slot is handed on, and it is no longer the pending one. */
    method Finish(t: nat)
      requires Fair() && t in holders
      modifies `slots, `holders, `given, `pending
      ensures Fair() && slots == Released(old(slots), t)
      ensures given == old(given) + (if old(slots).waiters == [] then [] else [old(slots).waiters[0]])
      ensures pending == Ended(old(pending), old(slots).tasks[t].key, t)
    {
      var key := slots.tasks[t].key;
      HandOn(t);
      if key in pending && pending[key] == t { pending := pending - {key}; }
    }

    /** releaseAvatarReadSlot */
    method HandOn(t: nat)
      requires Fair() && t in holders
      modifies `slots, `holders, `given
      ensures Fair() && slots == Released(old(slots), t)
      ensures given == old(given) + (if old(slots).waiters == [] then [] else [old(slots).waiters[0]])
    {
      ReleasedOrdered(slots, holders, t, asked, given, nextTask);
      given := given + if slots.waiters == [] then [] else [slots.waiters[0]];
      holders := holders - {t} + if slots.waiters == [] then {} else {slots.waiters[0]};
      slots := Released(slots, t);
    }

    /** A read that got its slot: it asks the backend, unless its generation is over. */
    method Resume(t: nat) returns (goesOn: bool)
      requires Sound() && Fair() && t in slots.tasks && slots.tasks[t].phase == Holding
      modifies `slots, `holders, `given, `pending
      ensures Fair() && goesOn == (Generation(old(slots).tasks[t].key) == old(slots).tasks[t].generation)
      ensures slots == if goesOn then old(slots).(tasks := old(slots).tasks[t := old(slots).tasks[t].(phase := Reading)])
                       else Released(old(slots), t)
      ensures pending == if !goesOn then Ended(old(pending), old(slots).tasks[t].key, t) else old(pending)
    {
      var task := slots.tasks[t];
      if Generation(task.key) != task.generation {
        Finish(t);
        return false;
      }
      slots := slots.(tasks := slots.tasks[t := task.(phase := Reading)]);
      return true;
    }

    /** The image is cached, under a URL of its own, and its metadata are known; a new generation begins exactly if the
        metadata known before were of another image. */
    twostate predicate Filled(task: Task, image: Image, new lost: Option<Key>)
      reads `cache, `metadata, `generations, `nextUrl
    {
      var key := task.key;
      && Placed(old(cache), cache, key, Entry(old(nextUrl), Max(image.updatedAt, task.version), image.hash), lost)
      && metadata == old(metadata)[key := Metadata(image.hash, image.updatedAt)]
      && generations == (if key in old(metadata) && old(metadata)[key].hash != image.hash
                         then old(generations)[key := old(Generation(key)) + 1] else old(generations))
      && nextUrl == old(nextUrl) + 1
    }

    /** The avatar is gone. */
    twostate predicate Emptied(key: Key)
      reads `cache, `metadata, `generations
    {
      && cache == Without(old(cache), key) && metadata == old(metadata) - {key}
      && generations == old(generations)[key := old(Generation(key)) + 1]
    }

    twostate predicate Untaken()
      reads `cache, `metadata, `generations, `live
    {
      cache == old(cache) && metadata == old(metadata) && generations == old(generations) && live == old(live)
    }

    /** An image fills the key, and no image empties it, exactly if the read did not fail and its generation lasts. */
    twostate predicate Answered(task: Task, failed: bool, image: Option<Image>, committed: bool, new lost: Option<Key>)
      reads `cache, `metadata, `generations, `nextUrl, `live
    {
      var current := !failed && old(Generation(task.key)) == task.generation;
      && (committed <==> current && image.Some?)
      && if committed then Filled(task, image.value, lost) else if current then Emptied(task.key) else Untaken()
    }

    /** What is pending, once the key is emptied or renewed. */
    function PendingThen(task: Task, failed: bool, image: Option<Image>): map<Key, nat>
      reads `metadata, `generations, `pending
    {
      if !failed && Generation(task.key) == task.generation && (image.None? || Renews(metadata, task.key, image.value.hash))
      then pending - {task.key} else pending
    }

    /** The backend answers a read; the slot is handed on whatever the answer. An image is cached, and no image empties
        the key, exactly if no newer generation began meanwhile. */
    method Reply(t: nat, failed: bool, image: Option<Image>) returns (committed: bool, ghost lost: Option<Key>)
      requires Sound() && Fair() && t in slots.tasks && slots.tasks[t].phase == Reading
      modifies this
      ensures Sound() && Fair() && slots == Released(old(slots), t)
      ensures Answered(old(slots).tasks[t], failed, image, committed, lost)
      ensures pending == Ended(old(PendingThen(slots.tasks[t], failed, image)), old(slots).tasks[t].key, t)
    {
      hide Stored, Ordered;
      ReadingHolds(slots, holders, asked, given, nextTask, t);
      var task := slots.tasks[t];
      committed, lost := Absorb(task, failed, image);
      Finish(t);
    }

    method Absorb(task: Task, failed: bool, image: Option<Image>) returns (committed: bool, ghost lost: Option<Key>)
      requires Sound()
      modifies `generations, `pending, `cache, `live, `metadata, `nextUrl
      ensures Sound() && Answered(task, failed, image, committed, lost) && pending == old(PendingThen(task, failed, image))
    {
      committed := !failed && image.Some? && Generation(task.key) == task.generation;
      lost := None;
      if committed {
        lost := Keep(task, image.value);
      } else if !failed && Generation(task.key) == task.generation {
        Clear(task.key);
      }
    }

    /** The image becomes the cached one, and its metadata the known ones. */
    method Keep(task: Task, image: Image) returns (ghost lost: Option<Key>)
      requires Sound()
      modifies `generations, `pending, `cache, `live, `metadata, `nextUrl
      ensures Sound() && Filled(task, image, lost)
      ensures pending == if Renews(old(metadata), task.key, image.hash) then old(pending) - {task.key} else old(pending)
    {
      hide Stored, Awaiting, With, Without, LeastRecent, Max;
      Supersede(task.key, image);
      WithAnyway(old(cache), cache, task.key, Entry(nextUrl, Max(image.updatedAt, task.version), image.hash));
      lost := Place(task.key, Entry(nextUrl, Max(image.updatedAt, task.version), image.hash));
    }

    /** The image's metadata become the known ones; an avatar of another hash goes. */
    method Supersede(key: Key, image: Image)
      requires Sound()
      modifies `generations, `pending, `cache, `live, `metadata
      ensures Awaiting(key, image.hash) && (cache == old(cache) || cache == Without(old(cache), key))
      ensures metadata == old(metadata)[key := Metadata(image.hash, image.updatedAt)]
      ensures var renews := Renews(old(metadata), key, image.hash);
              && generations == (if renews then old(generations)[key := old(Generation(key)) + 1] else old(generations))
              && pending == (if renews then old(pending) - {key} else old(pending))
    {
      if key in metadata && metadata[key].hash != image.hash { Invalidate(key, false); }
      metadata := metadata[key := Metadata(image.hash, image.updatedAt)];
    }

    /** Everything is as it should be, but for the key's entry, which is to be replaced by one with this hash. */
    ghost predicate Awaiting(key: Key, hash: string)
      reads `cache, `metadata, `live, `nextUrl
    {
      && Ranked(cache) && Coherent(Without(cache, key), metadata) && key in metadata && metadata[key].hash == hash
      && live == Urls(cache) && |cache.entries| <= MAX_AVATAR_CACHE && forall u :: u in live ==> u < nextUrl
    }

    /** The image gets a URL of its own. */
    method Place(key: Key, e: Entry) returns (ghost lost: Option<Key>)
      requires Awaiting(key, e.hash) && e.url == nextUrl
      modifies `cache, `live, `nextUrl
      ensures Sound() && Placed(old(cache), cache, key, e, lost) && nextUrl == old(nextUrl) + 1
    {
      nextUrl, live := nextUrl + 1, live + {e.url};
      lost := SetCached(key, e);
    }

    /** refreshAvatar: the old avatar is gone at once, and the hash of the new one known. */
    method Refresh(key: Key, hash: string, now: int) returns (answer: Answer)
      requires Sound() && Fair()
      modifies `generations, `pending, `cache, `live, `metadata, `slots, `holders, `asked, `given, `nextTask
      ensures Sound() && Fair() && answer == Awaits(old(nextTask)) && cache == Without(old(cache), key)
      ensures metadata == old(metadata)[key := Metadata(hash, now)]
      ensures generations == old(generations)[key := old(Generation(key)) + 1]
      ensures pending == old(pending)[key := old(nextTask)]
      ensures slots == Asked(old(slots), old(nextTask), Task(key, Generation(key), now, Queued))
    {
      PutAgain(pending, key, nextTask);
      Renew(key, Metadata(hash, now));
      answer := ReadAnew(key, now);
    }

    method ReadAnew(key: Key, version: int) returns (answer: Answer)
      requires Sound() && Fair() && key !in cache.entries && key !in pending
      modifies `cache, `live, `pending, `slots, `holders, `asked, `given, `nextTask
      ensures Sound() && Fair() && answer == Awaits(old(nextTask)) && cache == old(cache)
      ensures pending == old(pending)[key := old(nextTask)]
      ensures slots == Asked(old(slots), old(nextTask), Task(key, Generation(key), version, Queued))
    {
      answer := GetUrl(key, version);
    }

    method Renew(key: Key, m: Metadata)
      requires Sound()
      modifies `generations, `pending, `cache, `live, `metadata
      ensures Sound() && cache == Without(old(cache), key) && metadata == old(metadata)[key := m]
      ensures generations == old(generations)[key := old(Generation(key)) + 1] && pending == old(pending) - {key}
    {
      PutAgain(metadata, key, m);
      Clear(key);
      Note(key, m);
    }

    // ---- Metadata

    /** loadMetadata, up to the request: what the generations are now. */
    method StartMetadata() returns (id: nat, snapshot: map<Key, nat>)
      modifies `metadataLoad
      ensures id == metadataLoad == old(metadataLoad) + 1 && snapshot == generations
    {
      metadataLoad := metadataLoad + 1;
      return metadataLoad, generations;
    }

    /** One row: unless the key changed meanwhile or newer metadata are known, the row's hash is the known
        one, and neither a cached avatar nor a read under way with another hash survives. */
    method TakeRow(row: Row, snapshot: map<Key, nat>)
      requires Sound()
      modifies `generations, `pending, `cache, `live, `metadata
      ensures Sound() && OnlyAt(row.key)
      ensures AtKey(row.key) == RowTaken(old(AtKey(row.key)), row, Number(snapshot, row.key))
    {
      var key := row.key;
      if !Untouched(generations, snapshot, key) { return; }
      var known := key in metadata;
      if known && metadata[key].updatedAt > row.updatedAt { return; }
      ContradictsMeans(Now(), row);
      var pendingOld := key in pending && (!known || metadata[key].hash != row.hash || metadata[key].updatedAt < row.updatedAt);
      if pendingOld || (known && metadata[key].hash != row.hash) || (key in cache.entries && cache.entries[key].hash != row.hash) {
        GiveWay(row);
      } else {
        Learn(row);
      }
    }

    /** A row that contradicts what is there. */
    method GiveWay(row: Row)
      requires Sound()
      modifies `generations, `pending, `cache, `live, `metadata
      ensures Sound() && OnlyAt(row.key)
      ensures AtKey(row.key) == Outdated(old(AtKey(row.key))).(metadata := Some(Metadata(row.hash, row.updatedAt)))
    {
      GiveUp(row.key, false);
      Learn(row);
    }

    /** invalidateAvatarKey, as seen at the keys. */
    method GiveUp(key: Key, clear: bool)
      requires Sound()
      modifies `generations, `pending, `cache, `live, `metadata
      ensures Sound() && OnlyAt(key)
      ensures AtKey(key) == if clear then Outdated(old(AtKey(key))).(metadata := None) else Outdated(old(AtKey(key)))
    {
      hide Stored;
      GivenUp(Now(), key, clear);
      Invalidate(key, clear);
    }

    method Learn(row: Row)
      requires Sound() && (row.key in cache.entries ==> cache.entries[row.key].hash == row.hash)
      modifies `metadata
      ensures Sound() && OnlyAt(row.key)
      ensures AtKey(row.key) == old(AtKey(row.key)).(metadata := Some(Metadata(row.hash, row.updatedAt)))
    {
      metadata := metadata[row.key := Metadata(row.hash, row.updatedAt)];
    }

    /** The rows come. A later load makes them void; otherwise each key is what the rows make of it, or not listed. */
    method MetadataReply(id: nat, snapshot: map<Key, nat>, rows: seq<Row>) returns (taken: bool)
      requires Sound()
      modifies `generations, `pending, `cache, `live, `metadata
      ensures Sound() && (taken <==> id == metadataLoad) && cache.clock == old(cache).clock
      ensures forall k :: AtKey(k) == if taken then Reloaded(old(AtKey(k)), rows, k, Number(snapshot, k)) else old(AtKey(k))
    {
      taken := id == metadataLoad;
      if !taken { return; }
      var listed := TakeRows(snapshot, rows);
      forall k | k !in listed ensures AtKey(k) == old(AtKey(k)) { NotTaken(old(AtKey(k)), rows, k, Number(snapshot, k)); }
      DropUnlisted(listed, snapshot);
    }

    method TakeRows(snapshot: map<Key, nat>, rows: seq<Row>) returns (listed: set<Key>)
      requires Sound()
      modifies `generations, `pending, `cache, `live, `metadata
      ensures Sound() && listed == KeysOf(rows) && cache.clock == old(cache).clock
      ensures forall k :: AtKey(k) == RowsTaken(old(AtKey(k)), rows, k, Number(snapshot, k))
    {
      listed := {};
      for i := 0 to |rows|
        invariant Sound() && listed == KeysOf(rows[..i]) && Taking(old(Now()), Now(), rows[..i], snapshot)
      {
        assert rows[..i + 1] == rows[..i] + [rows[i]];
        listed := listed + {rows[i].key};
        ghost var b := Now();
        TakeRow(rows[i], snapshot);
        TakenFurther(old(Now()), b, Now(), rows[..i], rows[i], snapshot);
      }
      assert rows[..|rows|] == rows;
    }

    method DropOne(key: Key, listed: set<Key>, snapshot: map<Key, nat>)
      requires Sound() && Known(AtKey(key))
      modifies `generations, `pending, `cache, `live, `metadata
      ensures Sound() && OnlyAt(key)
      ensures AtKey(key) == if key in listed then old(AtKey(key)) else Unlisted(old(AtKey(key)), Number(snapshot, key))
    {
      if key !in listed && Untouched(generations, snapshot, key) { GiveUp(key, true); }
    }

    /** Every known key that is not listed goes, unless it was changed locally. */
    method DropUnlisted(listed: set<Key>, snapshot: map<Key, nat>)
      requires Sound()
      modifies `generations, `pending, `cache, `live, `metadata
      ensures Sound() && cache.clock == old(cache).clock
      ensures forall k :: AtKey(k) == if k in listed then old(AtKey(k)) else Unlisted(old(AtKey(k)), Number(snapshot, k))
    {
      var keys := metadata.Keys + cache.entries.Keys + pending.Keys;
      NoneDropped(Now(), listed, snapshot);
      while keys != {}
        invariant Sound() && Dropping(old(Now()), Now(), keys, listed, snapshot)
      {
        var key :| key in keys;
        ghost var b := Now();
        assert StateAt(b, key) == StateAt(old(Now()), key);
        DropOne(key, listed, snapshot);
        DroppedFurther(old(Now()), b, Now(), keys, key, listed, snapshot);
        keys := keys - {key};
      }
    }
  }
}
