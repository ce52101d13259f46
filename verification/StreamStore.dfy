/** The stream of one message: the message that is drawn, and the record of updates pending for it. */
module StreamStore {
  import opened Wrappers
  import opened MarkdownAst
  import opened NodeIds
  import opened DomTree
  import opened StreamMerge

  datatype Pending = Pending(content: Option<string>, blocks: Option<seq<StreamBlock>>, tailContent: Option<string>,
                             tailBlock: Option<StreamBlock>, tailBlockChanged: bool, tailFrame: Option<TailFrame>,
                             streamId: Option<int>, cursor: Option<Cursor>, reason: Option<Reason>, scheduled: bool)

  const NothingPending := Pending(None, None, None, None, false, None, None, None, None, false)

  /** What a snapshot request was started for. */
  datatype Job = Job(source: string, revision: nat, cursor: Cursor)

  datatype Recovered = Recovered(stableBlocks: seq<StreamBlock>, tailBlock: Option<StreamBlock>,
                                 tailMode: Option<Mode>, tailSnapshot: List<Block>)

  /** An event, with what the end and error events bring. */
  datatype Delivery =
    | Aurora(e: Event)
    | Failed(content: Option<string>)
    | Ended(content: Option<string>, blocks: Option<seq<StreamBlock>>)

  /** What the backend answers to a recovery. */
  datatype Recovery = Attached | Settled(content: Option<string>) | Rejected

  function Or<T>(x: Option<T>, y: T): T { if x.Some? then x.value else y }

  /** A pending tail block is a change. */
  predicate Tidy(p: Pending) { p.tailBlock.Some? ==> p.tailBlockChanged }

  /** Whatever is to be written, the browser was asked to draw. */
  predicate OnItsWay(p: Pending) {
    p.scheduled || p == NothingPending.(streamId := p.streamId, cursor := p.cursor, reason := p.reason)
  }

  /** The operation does something else on top of block b than on top of no block at all. */
  predicate Misreads(op: TailOp, b: StreamBlock) {
    match op
    case Clear => false
    case ReplaceAll(_, _, _, kind) => OtherTheme(kind, b)
    case Append(previous, _, _, _, kind) =>
      if b.hash == "" then previous.None? && OtherTheme(kind, b) else previous == None || previous == Some(b.hash)
  }

  predicate OtherTheme(kind: TailKind, b: StreamBlock) {
    kind == ThoughtTail(None) && b.kind.Thought? && b.kind.theme != DEFAULT_THEME
  }

  // ---- The stream of a message, as its readers see it, and its steps

  /** What is seen and what is drawn; the frame pending on top of the drawn tree, and what is known of the tail;
      why a snapshot is called for. */
  datatype Shown = Shown(seen: View, drawn: View, frame: Option<TailFrame>, tree: Keyed, truth: Option<Keyed>,
                         reason: Option<Reason>)

  /** The browser draws, or an event arrives. */
  datatype Action = Draw | Incoming(e: Event)

  /** The tree that would come up if everything pending were drawn. */
  function Upcoming(s: Shown): Keyed { Denote(s.frame, s.tree) }

  /** What is pending continues the drawn tail, unless a snapshot is called for. */
  ghost predicate Sound(s: Shown) {
    && WellFormed(s.frame)
    && (s.reason.None? ==> s.truth == Some(Upcoming(s)))
  }

  /** The tail block that the next delta reads: the drawn one, if none is pending. */
  function Current(s: Shown): Option<StreamBlock> {
    if s.seen.tailBlock.Some? then s.seen.tailBlock else s.drawn.tailBlock
  }

  function Latest(e: Event): Option<List<Block>> {
    if e.tailFrame.Some? && e.tailFrame.value.snapshot.Some? then e.tailFrame.value.snapshot
    else if e.tailBlock.Some? then e.tailBlock.value.nodes
    else None
  }

  /** The event is accepted as the first of its stream, and discards what is pending for an older one. */
  predicate Opens(s: Shown, e: Event) { Accepts(s.seen, e) && Claims(s.seen.streamId, e) }

  function Opened(s: Shown, e: Event): Shown {
    var v := s.drawn.(streamId := EventStream(e), cursor := None);
    Shown(v, v, None, s.tree, Some(s.tree), None)
  }

  /** The frame is merged under a demand for a snapshot. */
  predicate Forced(s: Shown, e: Event) { e.hidden || (if Opens(s, e) then s.seen.streamId.Some? else s.reason.Some?) }

  function Framed(s: Shown, f: TailFrame, latest: Option<List<Block>>, force: bool): Shown {
    var r := MergeTailFrame(s.frame, s.seen.cursor, f, latest, force);
    var at := Some(CursorOf(f));
    s.(seen := s.seen.(cursor := at), drawn := s.drawn.(cursor := at),
       frame := if r.Merged? then Some(r.frame) else None,
       truth := DirectTail(s.truth, s.seen.cursor, f, latest, force),
       reason := if r.NeedsSnapshot? then Some(r.reason) else None)
  }

  /** The stable blocks of a delta do not continue those that are seen. */
  predicate StableMismatch(v: View, e: Event) {
    e.kind == Delta && e.stableAppend.Some? && |v.blocks| != e.stableAppend.value.baseCount
  }

  /** The text of a delta does not continue the tail block that is read. */
  predicate TailMismatch(current: Option<StreamBlock>, e: Event) {
    e.kind == Delta && e.tailOp.Some? && e.tailOp.value.Append? && HashOf(current) != e.tailOp.value.previousHash
  }

  function ReasonAfter(reason: Option<Reason>, v: View, current: Option<StreamBlock>, e: Event): Option<Reason> {
    if TailMismatch(current, e) then Some(TailBaseMismatch)
    else if StableMismatch(v, e) then Some(StableBaseMismatch)
    else reason
  }

  function Bodied(s: Shown, e: Event): Shown {
    s.(seen := BodyRead(s.seen, Current(s), e), reason := ReasonAfter(s.reason, s.seen, Current(s), e))
  }

  function Next(s: Shown, a: Action): Shown {
    match a
    case Draw => s.(drawn := s.seen, frame := None, tree := Upcoming(s))
    case Incoming(e) =>
      if !Accepts(s.seen, e) then s
      else
        var s1 := if Opens(s, e) then Opened(s, e) else s;
        var s2 := if e.tailFrame.Some? then Framed(s1, e.tailFrame.value, Latest(e), Forced(s, e)) else s1;
        Bodied(s2, e)
  }

  /** Nothing is pending any more, and the stream is no longer known. */
  function Cleared(s: Shown): Shown {
    var v := Forgotten(s.drawn);
    Shown(v, v, None, s.tree, Some(s.tree), None)
  }

  function After(s: Shown, actions: seq<Action>): Shown {
    if actions == [] then s else Next(After(s, actions[..|actions| - 1]), actions[|actions| - 1])
  }

  /** What the event is applied to: opening a stream discards what is pending for the old one. */
  function Base(s: Shown, e: Event): View {
    if Opens(s, e) then s.drawn.(streamId := s.seen.streamId, cursor := s.seen.cursor) else s.seen
  }

  // ---- The tail tree

  /** Whenever no snapshot is called for, what is pending on top of the drawn tree is what is known of the tail. */
  lemma NextIsSound(s: Shown, a: Action)
    requires Sound(s)
    ensures Sound(Next(s, a))
  {
    if a.Incoming? && Accepts(s.seen, a.e) && a.e.tailFrame.Some? {
      var s1 := if Opens(s, a.e) then Opened(s, a.e) else s;
      MergeDenotes(s1.frame, s1.seen.cursor, a.e.tailFrame.value, Latest(a.e), Forced(s, a.e), s1.tree);
      FramedIsSound(s1, a.e.tailFrame.value, Latest(a.e), Forced(s, a.e));
    }
  }

  lemma FramedIsSound(s: Shown, f: TailFrame, latest: Option<List<Block>>, force: bool)
    requires Sound(s) && (s.reason.Some? ==> force) && !MergeTailFrame(s.frame, s.seen.cursor, f, latest, force).Stale?
    ensures Sound(Framed(s, f, latest, force))
  {
    MergeDenotes(s.frame, s.seen.cursor, f, latest, force, s.tree);
  }

  /** What is known of the tail after an event: its frame applied directly, to the drawn tree if it opens a stream. */
  lemma TruthAfter(s: Shown, e: Event)
    requires Accepts(s.seen, e)
    ensures var t := if Opens(s, e) then Some(s.tree) else s.truth;
            var c := if Opens(s, e) then None else s.seen.cursor;
            Next(s, Incoming(e)).truth
            == if e.tailFrame.None? then t else DirectTail(t, c, e.tailFrame.value, Latest(e), Forced(s, e))
  {}

  /** The frames of the accepted events applied one by one, without a pending record. */
  function DirectTailAll(v: View, t: Option<Keyed>, es: seq<Event>): Option<Keyed> {
    if es == [] then t
    else
      var n := |es| - 1;
      var e, before := es[n], DirectAll(v, es[..n]);
      var u := DirectTailAll(v, t, es[..n]);
      if Accepts(before, e) && e.tailFrame.Some? then DirectTail(u, before.cursor, e.tailFrame.value, Latest(e), e.hidden) else u
  }

  /** No snapshot is called for at any point of the run. */
  predicate NeverCalled(s: Shown, actions: seq<Action>) {
    forall i :: 0 <= i <= |actions| ==> After(s, actions[..i]).reason.None?
  }

  /** Coalescing is invisible: for any run of events within a stream and any draws in between, as long as no snapshot
      is called for, the pending frame on top of the drawn tree is every accepted frame applied one by one. */
  lemma {:induction false} TailIsDirect(s: Shown, actions: seq<Action>)
    requires Sound(s) && s.seen.streamId.Some? && NeverCalled(s, actions)
    requires forall i :: 0 <= i < |actions| ==> Within(actions[i], s.seen.streamId)
    ensures Sound(After(s, actions))
    ensures Some(Upcoming(After(s, actions))) == DirectTailAll(s.seen, Some(Upcoming(s)), EventsOf(actions))
  {
    if actions == [] {
      assert s.reason.None? by { assert After(s, actions[..0]) == s; }
    } else {
      var n := |actions| - 1;
      var b, a := actions[..n], actions[n];
      assert NeverCalled(s, b) by {
        forall i | 0 <= i <= n ensures After(s, b[..i]).reason.None? { assert b[..i] == actions[..i]; }
      }
      TailIsDirect(s, b);
      NextIsSound(After(s, b), a);
      DrawingIsInvisible(s, b);
      assert actions[..|actions|] == actions && After(s, actions[..n]).reason.None?;
      TailStep(s, actions);
    }
  }

  lemma TailStep(s: Shown, actions: seq<Action>)
    requires actions != [] && s.seen.streamId.Some?
    requires Within(actions[|actions| - 1], s.seen.streamId)
    requires var r := After(s, actions[..|actions| - 1]);
             && Sound(r) && r.reason.None? && r.seen.streamId == s.seen.streamId
             && Placed(r.seen) == Placed(DirectAll(s.seen, EventsOf(actions[..|actions| - 1])))
             && Some(Upcoming(r)) == DirectTailAll(s.seen, Some(Upcoming(s)), EventsOf(actions[..|actions| - 1]))
    requires Sound(After(s, actions)) && After(s, actions).reason.None?
    ensures Some(Upcoming(After(s, actions))) == DirectTailAll(s.seen, Some(Upcoming(s)), EventsOf(actions))
  {
    var n := |actions| - 1;
    var r, a, es := After(s, actions[..n]), actions[n], EventsOf(actions[..n]);
    match a
    case Draw => assert EventsOf(actions) == es;
    case Incoming(e) =>
      assert EventsOf(actions) == es + [e] && (es + [e])[..|es|] == es;
      if Accepts(r.seen, e) { TruthAfter(r, e); }
  }

  // ---- When a snapshot is called for

  /** A snapshot of the tail comes with the event where its frame has to start afresh, and the frame fits the record
      where it has not. */
  predicate Mergeable(s: Shown, f: TailFrame, latest: Option<List<Block>>, force: bool) {
    if StartsAfresh(s.seen.cursor, f, force) then latest.Some? || f.snapshot.Some?
    else s.frame.Some? ==> |s.frame.value.mutations| + |f.mutations| <= MAX_PENDING_TAIL_MUTATIONS
  }

  /** When no snapshot is called for after an event: its own bases match, and its frame can be merged, whatever was
      called for before; without a frame, if nothing was called for before or the event opens a stream. */
  lemma CalledForIff(s: Shown, e: Event)
    ensures Next(s, Incoming(e)).reason.None? <==>
              if !Accepts(s.seen, e) then s.reason.None?
              else
                var s1 := if Opens(s, e) then Opened(s, e) else s;
                && !StableMismatch(Base(s, e), e) && !TailMismatch(Current(s1), e)
                && (if e.tailFrame.Some? then Mergeable(s1, e.tailFrame.value, Latest(e), Forced(s, e))
                    else Opens(s, e) || s.reason.None?)
  {}

  /** So a call for a snapshot is withdrawn by the next frame that brings one: exactly then, and though it is the
      tail that the frame brings and the stable blocks that are behind. */
  lemma WithdrawnIff(s: Shown, e: Event)
    requires s.reason.Some? && Accepts(s.seen, e) && !Opens(s, e)
    ensures Next(s, Incoming(e)).reason.None? <==>
              && e.tailFrame.Some? && (Latest(e).Some? || e.tailFrame.value.snapshot.Some?)
              && !StableMismatch(s.seen, e) && !TailMismatch(Current(s), e)
    ensures e.kind == Delta && e.stableAppend.None? ==> Next(s, Incoming(e)).seen.blocks == s.seen.blocks
    ensures Next(s, Incoming(e)).reason.None? <==>
              && e.tailFrame.Some? && (Latest(e).Some? || e.tailFrame.value.snapshot.Some?)
              && (e.kind == Delta && e.stableAppend.Some? ==> |s.seen.blocks| == e.stableAppend.value.baseCount)
              && (e.kind == Delta ==>
                    match e.tailOp case Some(Append(previous, _, _, _, _)) => HashOf(Current(s)) == previous case _ => true)
  {}

  /** A delta whose stable blocks follow one that is missing, and the next frame of the stream, with a snapshot. */
  const Gap := Event(Delta, Some(1), None, "", None, Some(StableAppend(1, [])), None, None, None, None, false)
  const Onward :=
    Event(Delta, Some(1), None, "", None, None, None, None, None, Some(TailFrame(1, 1, 1, 1, false, Some(Nil), [])), false)

  /** At a message without blocks, the first calls for a snapshot; the second withdraws the call, and the block is
      still missing. */
  lemma MismatchIsForgotten(s: Shown)
    requires s.seen.streamId == Some(1) && s.seen.cursor.None? && s.seen.blocks == []
    ensures var r := Next(s, Incoming(Gap));
            r.reason == Some(StableBaseMismatch) && Next(r, Incoming(Onward)).reason.None? && Next(r, Incoming(Onward)).seen.blocks == []
  {}

  // ---- What is seen

  /** The delta is applied to the drawn tail block, for which a clear is pending. */
  predicate Misapplied(s: Shown, e: Event) {
    && s.seen.tailBlock.None? && s.drawn.tailBlock.Some?
    && Accepts(s.seen, e) && !Claims(s.seen.streamId, e) && e.kind == Delta && e.tailOp.Some?
    && Misreads(e.tailOp.value, s.drawn.tailBlock.value)
  }

  /** The view without its tail. */
  function Placed(v: View): View { v.(tailContent := "", tailBlock := None) }

  lemma TailMisread(v: View, b: StreamBlock, op: TailOp)
    requires v.tailBlock.None?
    ensures TailRead(v, Some(b), op) == TailRead(v, None, op) <==> !Misreads(op, b)
  {
    if op.Append? && HashOf(Some(b)) == op.previousHash == None {
      assert TailRead(v, Some(b), op).tailBlock.value.kind == TailRead(v, None, op).tailBlock.value.kind <==> !OtherTheme(op.kind, b);
    }
  }

  lemma BodyMisread(v: View, b: StreamBlock, e: Event)
    requires v.tailBlock.None?
    ensures BodyRead(v, Some(b), e) == BodyRead(v, None, e)
            <==> !(e.kind == Delta && e.tailOp.Some? && Misreads(e.tailOp.value, b))
  {
    if e.kind == Delta && e.tailOp.Some? {
      var v1 := BodyRead(v, None, e.(tailOp := None));
      TailMisread(v1, b, e.tailOp.value);
    }
  }

  lemma PlacedBody(v: View, w: View, c: Option<StreamBlock>, d: Option<StreamBlock>, e: Event)
    requires Placed(v) == Placed(w)
    ensures Placed(BodyRead(v, c, e)) == Placed(BodyRead(w, d, e))
  {
    assert v.content == w.content && v.blocks == w.blocks by { assert Placed(v).content == v.content && Placed(v).blocks == v.blocks; }
    if e.kind == Delta && e.tailOp.Some? {
      var e' := e.(tailOp := None);
      TailIsPlaced(BodyRead(v, c, e'), c, e.tailOp.value);
      TailIsPlaced(BodyRead(w, d, e'), d, e.tailOp.value);
    }
  }

  lemma TailIsPlaced(v: View, c: Option<StreamBlock>, op: TailOp)
    ensures Placed(TailRead(v, c, op)) == Placed(v)
  {}

  /** Content, blocks, stream and cursor are those of direct application, come what may; the tail is, exactly unless
      the event is misapplied. */
  lemma SeenAfter(s: Shown, e: Event)
    ensures Placed(Next(s, Incoming(e)).seen) == Placed(Direct(Base(s, e), e))
    ensures Next(s, Incoming(e)).seen == Direct(Base(s, e), e) <==> !Misapplied(s, e)
  {
    if Accepts(s.seen, e) {
      var s1 := if Opens(s, e) then Opened(s, e) else s;
      var v := if e.tailFrame.Some? then s1.seen.(cursor := Some(CursorOf(e.tailFrame.value))) else s1.seen;
      PlacedBody(v, v, Current(s1), v.tailBlock, e);
      if v.tailBlock.None? && s1.drawn.tailBlock.Some? { BodyMisread(v, s1.drawn.tailBlock.value, e); }
    }
  }

  lemma PlacedDirect(v: View, w: View, e: Event)
    requires Placed(v) == Placed(w)
    ensures Placed(Direct(v, e)) == Placed(Direct(w, e))
  {
    assert v.streamId == w.streamId && v.cursor == w.cursor by { assert Placed(v).streamId == v.streamId && Placed(v).cursor == v.cursor; }
    var v1, w1 := Positioned(v, e), Positioned(w, e);
    assert Placed(v1) == Placed(w1);
    PlacedBody(v1, w1, v1.tailBlock, w1.tailBlock, e);
  }

  /** No delta of the run is misapplied. */
  predicate NeverMisapplied(s: Shown, actions: seq<Action>) {
    forall i :: 0 <= i < |actions| && actions[i].Incoming? ==> !Misapplied(After(s, actions[..i]), actions[i].e)
  }

  function EventsOf(actions: seq<Action>): seq<Event> {
    if actions == [] then []
    else
      var a := actions[|actions| - 1];
      EventsOf(actions[..|actions| - 1]) + if a.Incoming? then [a.e] else []
  }

  lemma {:induction false} DirectAllSnoc(v: View, es: seq<Event>, e: Event)
    ensures DirectAll(v, es + [e]) == Direct(DirectAll(v, es), e)
    decreases |es|
  {
    if es == [] {
      assert es + [e] == [e];
      assert DirectAll(Direct(v, e), []) == Direct(v, e);
    } else {
      assert (es + [e])[1..] == es[1..] + [e];
      DirectAllSnoc(Direct(v, es[0]), es[1..], e);
    }
  }

  /** The event belongs to the stream, or to none. */
  predicate Within(a: Action, streamId: Option<int>) {
    a.Incoming? && EventStream(a.e).Some? ==> EventStream(a.e) == streamId
  }

  lemma SeenStep(s: Shown, v: View, e: Event)
    requires s.seen.streamId.Some? && Within(Incoming(e), s.seen.streamId) && Placed(s.seen) == Placed(v)
    ensures var r := Next(s, Incoming(e));
            && Placed(r.seen) == Placed(Direct(v, e)) && r.seen.streamId == s.seen.streamId
            && (s.seen == v && !Misapplied(s, e) ==> r.seen == Direct(v, e))
  {
    assert !Opens(s, e);
    SeenAfter(s, e);
    PlacedDirect(s.seen, v, e);
    SameStream(s.seen, e);
  }

  lemma SameStream(v: View, e: Event)
    requires v.streamId.Some? && Within(Incoming(e), v.streamId)
    ensures Placed(Direct(v, e)).streamId == v.streamId
  {}

  /** Within one stream, where the browser draws makes no difference to what is seen: none at all to content, blocks
      and cursor, and none to the tail if no delta is stale. */
  lemma {:induction false} DrawingIsInvisible(s: Shown, actions: seq<Action>)
    requires s.seen.streamId.Some? && forall i :: 0 <= i < |actions| ==> Within(actions[i], s.seen.streamId)
    ensures Placed(After(s, actions).seen) == Placed(DirectAll(s.seen, EventsOf(actions)))
    ensures NeverMisapplied(s, actions) ==> After(s, actions).seen == DirectAll(s.seen, EventsOf(actions))
    ensures After(s, actions).seen.streamId == s.seen.streamId
  {
    if actions != [] {
      var n := |actions| - 1;
      var b, r := actions[..n], After(s, actions[..n]);
      DrawingIsInvisible(s, b);
      if NeverMisapplied(s, actions) {
        forall i | 0 <= i < n && b[i].Incoming? ensures !Misapplied(After(s, b[..i]), b[i].e) { assert b[..i] == actions[..i]; }
      }
      if actions[n].Incoming? {
        DirectAllSnoc(s.seen, EventsOf(b), actions[n].e);
        SeenStep(r, DirectAll(s.seen, EventsOf(b)), actions[n].e);
        assert NeverMisapplied(s, actions) ==> !Misapplied(r, actions[n].e);
      } else {
        assert EventsOf(actions) == EventsOf(b);
      }
    }
  }

  /** A delta is stale only if it appends, or inherits a theme, after a clear that has not been drawn; once the
      browser has drawn, no delta is. */
  lemma StaleNeedsUnflushedClear(s: Shown, e: Event)
    ensures Misapplied(s, e) ==>
              && s.seen.tailBlock.None? && s.drawn.tailBlock.Some?
              && (e.tailOp.value.Append? || OtherTheme(e.tailOp.value.kind, s.drawn.tailBlock.value))
    ensures !Misapplied(Next(s, Draw), e)
  {}

  /** When such an append is really applied otherwise: refused although the cleared tail is what it continues, or put on
      top of the block that was cleared; where that block had no hash, only its theme can be inherited. */
  lemma StaleAppendGoesWrong(s: Shown, e: Event, previous: Option<string>)
    requires s.seen.tailBlock.None? && s.drawn.tailBlock.Some?
    requires Accepts(s.seen, e) && !Claims(s.seen.streamId, e) && e.kind == Delta
    requires e.tailOp.Some? && e.tailOp.value.Append? && e.tailOp.value.previousHash == previous
    ensures var b := s.drawn.tailBlock.value;
            Next(s, Incoming(e)).seen == Direct(s.seen, e)
            <==> if b.hash != "" then previous.Some? && previous != Some(b.hash)
                 else previous.Some? || !OtherTheme(e.tailOp.value.kind, b)
    ensures Next(s, Incoming(e)).seen.tailBlock.Some? <==> previous == HashOf(s.drawn.tailBlock)
    ensures Direct(s.seen, e).tailBlock.Some? <==> previous.None?
  {
    SeenAfter(s, e);
  }

  class MessageStream {
    // the message
    var content: string
    var blocks: seq<StreamBlock>
    var tailContent: string
    var tailBlock: Option<StreamBlock>
    var tailFrame: Option<TailFrame>
    // the record of pending updates, absent until the first event and after a reset
    var pending: Option<Pending>
    // identity of the consumer, and the snapshot request in flight
    var revision: nat
    var ended: bool
    var job: Option<Job>
    // the consumer whose end still waits for its blocks to be compiled
    var compiling: Option<nat>
    // the owner of the recovery in progress
    var recovery: Option<nat>
    var nextOwner: nat
    const rebuild: string -> Recovered
    // how often a newer consumer, an end, an error or a deletion came, and how often when each
    // recovery still unanswered was issued
    ghost var disturbances: nat
    ghost var issued: map<nat, nat>
    // the tree that the flushed frames have produced, and the one that direct application would produce
    ghost var tree: Keyed
    ghost var truth: Option<Keyed>

    /** The pending updates seen over the message. */
    ghost function Seen(): View
      reads `content, `blocks, `tailContent, `tailBlock, `pending
    {
      var p := Or(pending, NothingPending);
      View(Or(p.content, content), Or(p.blocks, blocks), Or(p.tailContent, tailContent),
           if p.tailBlockChanged then p.tailBlock else tailBlock, p.streamId, p.cursor)
    }

    /** The message alone. */
    ghost function Drawn(): View
      reads `content, `blocks, `tailContent, `tailBlock, `pending
    {
      Seen().(content := content, blocks := blocks, tailContent := tailContent, tailBlock := tailBlock)
    }

    ghost predicate Valid()
      reads this
    {
      Steady() && Owned()
    }

    /** At most one recovery has the right to answer: the one issued since the last disturbance. */
    ghost predicate Owned()
      reads `recovery, `nextOwner, `disturbances, `issued
    {
      && (recovery.Some? ==> recovery.value < nextOwner)
      && (forall t :: t in issued ==>
            t < nextOwner && issued[t] <= disturbances && (recovery == Some(t) <==> issued[t] == disturbances))
    }

    ghost function State(): Shown
      reads `content, `blocks, `tailContent, `tailBlock, `pending, `tree, `truth
    {
      var p := Or(pending, NothingPending);
      Shown(Seen(), Drawn(), p.tailFrame, tree, truth, p.reason)
    }

    ghost predicate Steady()
      reads `content, `blocks, `tailContent, `tailBlock, `pending, `tree, `truth
    {
      Tidy(Or(pending, NothingPending)) && OnItsWay(Or(pending, NothingPending)) && Sound(State())
    }

    constructor (rebuild: string -> Recovered)
      ensures Valid() && Seen() == View("", [], "", None, None, None)
    {
      content, blocks, tailContent, tailBlock, tailFrame := "", [], "", None, None;
      pending, revision, ended, job, compiling := None, 0, false, None, None;
      recovery, nextOwner, disturbances, issued := None, 0, 0, map[];
      this.rebuild := rebuild;
      tree, truth := Empty, Some(Empty);
    }

    /** The drawing callback: write what is pending to the message; no draw is asked for then. */
    method Flush()
      requires Steady()
      modifies this`content, this`blocks, this`tailContent, this`tailBlock, this`tailFrame, this`pending, this`tree
      ensures Steady() && State() == Next(old(State()), Draw)
      ensures Seen() == old(Seen()) && Drawn() == Seen() && pending.Some? == old(pending.Some?)
      ensures pending.Some? ==> !pending.value.scheduled
    {
      if pending.None? { return; }
      var p := pending.value;
      content, blocks := Or(p.content, content), Or(p.blocks, blocks);
      tailContent := Or(p.tailContent, tailContent);
      if p.tailBlockChanged { tailBlock := p.tailBlock; }
      if p.tailFrame.Some? {
        tailFrame := p.tailFrame;
        tree := Denote(p.tailFrame, tree);
      }
      pending := Some(NothingPending.(streamId := p.streamId, cursor := p.cursor, reason := p.reason));
    }

    /** clearRAFUpdate: drop the pending record, writing it first if asked to. */
    method ClearPending(forceFlush: bool)
      requires Steady()
      modifies this`content, this`blocks, this`tailContent, this`tailBlock, this`tailFrame, this`pending, this`tree, this`truth
      ensures Steady() && pending.None? && State() == Cleared(old(if forceFlush then Next(State(), Draw) else State()))
    {
      if forceFlush { Flush(); }
      pending := None;
      truth := Some(tree);
    }

    /** Steps 1 and 2 for the stream identity: refuse the event, or claim its stream. What a known position covers is
        refused with the frame. */
    method Claim(e: Event) returns (ok: bool, streamChanged: bool)
      requires Tidy(Or(pending, NothingPending)) && OnItsWay(Or(pending, NothingPending))
      modifies this`pending, this`truth
      ensures pending.Some? && Tidy(pending.value) && OnItsWay(pending.value)
      ensures old(Accepts(Seen(), e)) ==> ok
      ensures ok && !old(Accepts(Seen(), e)) ==>
                e.tailFrame.Some? && Seen().cursor.Some? && !Newer(Seen().cursor.value, e.tailFrame.value)
      ensures State() == if ok && old(Opens(State(), e)) then Opened(old(State()), e) else old(State())
      ensures streamChanged == (ok && old(Opens(State(), e)) && old(Seen()).streamId.Some?)
      ensures ok && old(Opens(State(), e)) ==> Seen().cursor.None? && State().reason.None?
    {
      var p := Or(pending, NothingPending);
      pending := Some(p);
      ok, streamChanged := false, false;
      var sid := EventStream(e);
      if sid.Some? {
        if sid.value <= 0 || sid.value > MAX_SAFE_INTEGER { return; }
        if e.tailFrame.Some? && e.tailFrame.value.streamId != sid.value { return; }
        if p.streamId.Some? && sid.value < p.streamId.value { return; }
        if p.streamId.None? || sid.value > p.streamId.value {
          streamChanged := p.streamId.Some?;
          pending := Some(NothingPending.(streamId := sid, scheduled := p.scheduled));
          truth := Some(tree);
        }
      }
      ok := true;
    }

    /** Step 2 for the frame: drop an event already seen, or advance the position. The merged frame is
        handed back, to be written after everything else. */
    method MergeFrame(f: TailFrame, latest: Option<List<Block>>, force: bool) returns (ok: bool, merged: Option<TailFrame>)
      requires pending.Some? && Tidy(pending.value)
      modifies this`pending, this`truth
      ensures pending.Some? && Tidy(pending.value)
      ensures var c := old(Seen()).cursor; !ok <==> c.Some? && !Newer(c.value, f)
      ensures !ok ==> State() == old(State()) && pending == old(pending)
      ensures ok && merged.None? ==> State().frame.None?
      ensures ok ==> State().(frame := merged) == Framed(old(State()), f, latest, force || old(State()).reason.Some?)
    {
      var p := pending.value;
      var r := MergeTailFrame(p.tailFrame, p.cursor, f, latest, force || p.reason.Some?);
      ok, merged := !r.Stale?, None;
      if r.Stale? { return; }
      truth := DirectTail(truth, p.cursor, f, latest, force || p.reason.Some?);
      if r.NeedsSnapshot? {
        pending := Some(p.(cursor := Some(r.cursor), tailFrame := None, reason := Some(r.reason)));
      } else {
        merged := Some(r.frame);
        pending := Some(p.(cursor := Some(r.cursor), reason := None));
      }
    }

    /** Step 3 for the stable blocks of a delta. */
    method AppendStable(a: StableAppend)
      requires pending.Some? && Tidy(pending.value)
      modifies this`pending
      ensures pending.Some? && Tidy(pending.value)
      ensures var s, v := old(State()), old(Seen());
              State() == if |v.blocks| == a.baseCount then s.(seen := v.(blocks := v.blocks + a.blocks))
                         else s.(reason := Some(StableBaseMismatch))
    {
      var p := pending.value;
      var base := Or(p.blocks, blocks);
      if |base| == a.baseCount {
        pending := Some(p.(blocks := Some(base + a.blocks)));
      } else {
        pending := Some(p.(reason := Some(StableBaseMismatch)));
      }
    }

    /** Step 3 for the tail text of a delta: it is put on top of the drawn block where none is pending, even where a
        clear is. */
    method ApplyTail(op: TailOp)
      requires pending.Some? && Tidy(pending.value)
      modifies this`pending
      ensures pending.Some? && Tidy(pending.value)
      ensures var s := old(State());
              State() == s.(seen := TailRead(s.seen, Current(s), op),
                            reason := if op.Append? && HashOf(Current(s)) != op.previousHash then Some(TailBaseMismatch) else s.reason)
    {
      var p := pending.value;
      var current := if p.tailBlock.Some? then p.tailBlock else tailBlock;
      var text := Or(p.tailContent, tailContent);
      match op {
        case Clear =>
          pending := Some(p.(tailContent := Some(""), tailBlock := None, tailBlockChanged := true));
        case ReplaceAll(c, hash, mode, kind) =>
          pending := Some(p.(tailContent := Some(c), tailBlock := Some(BuildTailBlock(kind, mode, hash, c, current)),
                             tailBlockChanged := true));
        case Append(previous, c, hash, mode, kind) =>
          if HashOf(current) != previous {
            pending := Some(p.(reason := Some(TailBaseMismatch)));
          } else {
            pending := Some(p.(tailContent := Some(text + c),
                               tailBlock := Some(BuildTailBlock(kind, mode, hash, text + c, current)),
                               tailBlockChanged := true));
          }
      }
    }

    /** Step 3 for the content. */
    method WriteText(e: Event)
      requires pending.Some? && Tidy(pending.value)
      modifies this`pending
      ensures pending.Some? && Tidy(pending.value)
      ensures var s, v := old(State()), old(Seen());
              State() == s.(seen := v.(content := if e.content.Some? then e.content.value else v.content + e.chunk))
    {
      var p := pending.value;
      if e.content.Some? {
        pending := Some(p.(content := e.content));
      } else if e.chunk != "" {
        pending := Some(p.(content := Some(Or(p.content, content) + e.chunk)));
      }
    }

    /** Step 3: content, then the whole of a snapshot or the parts of a delta. */
    method ApplyBody(e: Event)
      requires pending.Some? && Tidy(pending.value)
      modifies this`pending
      ensures pending.Some? && Tidy(pending.value)
      ensures State() == Bodied(old(State()), e)
    {
      WriteText(e);
      if e.kind == Snapshot {
        var p := pending.value;
        if e.stableBlocks.Some? { p := p.(blocks := e.stableBlocks); }
        p := p.(tailContent := Some(if e.tailBlock.Some? then e.tailBlock.value.content else ""),
                tailBlock := SnapshotBlock(e), tailBlockChanged := true);
        pending := Some(p);
      } else {
        if e.stableAppend.Some? { AppendStable(e.stableAppend.value); }
        if e.tailOp.Some? { ApplyTail(e.tailOp.value); }
      }
    }

    /** The aurora branch of processStreamEvent. */
    method Receive(e: Event)
      requires Steady()
      modifies this`pending, this`truth
      ensures Steady() && pending.Some? && State() == Next(old(State()), Incoming(e))
    {
      NextIsSound(State(), Incoming(e));
      Absorb(e);
    }

    /** Its steps in their order. */
    method Absorb(e: Event)
      requires Tidy(Or(pending, NothingPending)) && OnItsWay(Or(pending, NothingPending))
      modifies this`pending, this`truth
      ensures pending.Some? && Tidy(pending.value) && OnItsWay(pending.value) && State() == Next(old(State()), Incoming(e))
    {
      hide Bodied, MergeTailFrame, DirectTail, Opened, Seen, Drawn;
      var ok, streamChanged := Claim(e);
      if !ok { return; }
      var merged: Option<TailFrame> := None;
      if e.tailFrame.Some? {
        ok, merged := MergeFrame(e.tailFrame.value, Latest(e), streamChanged || e.hidden);
        if !ok { return; }
      }
      Write(e, merged);
    }

    /** Step 3, then the merged frame; and the browser is asked to draw. */
    method Write(e: Event, merged: Option<TailFrame>)
      requires pending.Some? && Tidy(pending.value)
      modifies this`pending
      ensures pending.Some? && Tidy(pending.value) && pending.value.scheduled
      ensures var s := old(State()); State() == Bodied(if merged.Some? then s.(frame := merged) else s, e)
    {
      ghost var s := State();
      ApplyBody(e);
      var p := pending.value;
      if merged.Some? { p := p.(tailFrame := merged); }
      pending := Some(p.(scheduled := true));
      assert merged.Some? ==> State() == Bodied(s, e).(frame := merged) == Bodied(s.(frame := merged), e);
    }

    /** Any number of events of one consumer, with the browser drawing anywhere in between. */
    method Run(actions: seq<Action>)
      requires Valid()
      modifies this
      ensures Valid() && State() == After(old(State()), actions)
    {
      ghost var s := State();
      for i := 0 to |actions|
        invariant Valid() && State() == After(s, actions[..i])
      {
        assert actions[..i + 1][..i] == actions[..i];
        match actions[i]
        case Draw => Flush();
        case Incoming(e) => Receive(e);
      }
      assert actions[..|actions|] == actions;
    }

    // ---- Snapshots rebuilt from the source

    /** What a snapshot asked for now would be rebuilt from. */
    function Wanted(): Option<Job>
      reads this
    {
      if ended || pending.None? then None
      else
        var cursor := if pending.value.cursor.Some? then pending.value.cursor
                      else if tailFrame.Some? then Some(CursorOf(tailFrame.value)) else None;
        if cursor.None? then None else Some(Job(Or(pending.value.content, content), revision, cursor.value))
    }

    /** Unless the stream is over or nothing was ever received: the content that is seen, at the known position, or else
        at that of the frame last drawn. */
    lemma WantedIs()
      ensures Wanted().None? <==> ended || pending.None? || (Seen().cursor.None? && tailFrame.None?)
      ensures Wanted().Some? ==>
                var w := Wanted().value;
                && w.source == Seen().content && w.revision == revision
                && (if Seen().cursor.Some? then Seen().cursor == Some(w.cursor) else CursorOf(tailFrame.value) == w.cursor)
    {}

    /** requestAuroraSnapshotByKey: the request in flight is shared. */
    method RequestSnapshot()
      requires Valid()
      modifies this`job
      ensures Valid() && job == if old(job).Some? then old(job) else Wanted()
    {
      if job.None? { job := Wanted(); }
    }

    /** The message is what the snapshot rebuilt from this content says. */
    ghost predicate Rebuilt(r: Recovered, c: Cursor)
      reads this
    {
      && Drawn() == Seen() && blocks == r.stableBlocks
      && (r.tailBlock.None? ==> tailContent == "" && tailBlock.None?)
      && (r.tailBlock.Some? ==> tailContent == r.tailBlock.value.content && tailBlock.Some?
                                && tailBlock.value == r.tailBlock.value.(mode := tailBlock.value.mode)
                                && tailBlock.value.mode == if r.tailMode.Some? then r.tailMode
                                                           else Some(if r.tailSnapshot == Nil then PlainText else Ast))
      && tree == RenderDocument(r.tailSnapshot) && truth == Some(tree)
      && tailFrame.Some? && CursorOf(tailFrame.value) == c && tailFrame.value.reset
      && tailFrame.value.snapshot == Some(r.tailSnapshot) && tailFrame.value.mutations == []
    }

    /** A rebuilt snapshot is written straight to the message. */
    method Commit(sent: Job)
      requires Steady() && Wanted() == Some(sent)
      modifies `content, `blocks, `tailContent, `tailBlock, `tailFrame, `pending, `tree, `truth
      ensures Steady() && Rebuilt(rebuild(sent.source), sent.cursor)
      ensures pending.Some? && pending.value.reason.None?
      ensures content == old(Seen()).content && Seen().streamId == old(Seen()).streamId && Seen().cursor == old(Seen()).cursor
    {
      var r, c := rebuild(sent.source), sent.cursor;
      var mode := if r.tailMode.Some? then r.tailMode.value else if r.tailSnapshot.Cons? then Ast else PlainText;
      content, blocks := sent.source, r.stableBlocks;
      tailContent := if r.tailBlock.Some? then r.tailBlock.value.content else "";
      tailBlock := if r.tailBlock.Some? then Some(r.tailBlock.value.(mode := Some(mode))) else None;
      tailFrame := Some(TailFrame(c.streamId, c.epoch, c.revision, c.frameSeq, true, Some(r.tailSnapshot), []));
      tree := RenderDocument(r.tailSnapshot);
      truth := Some(tree);
      pending := Some(NothingPending.(streamId := pending.value.streamId, cursor := pending.value.cursor));
    }

    /** The reply to the request in flight: committed exactly if nothing moved since, else asked for again. */
    method SnapshotReply(succeeded: bool) returns (committed: bool)
      requires Valid() && job.Some?
      modifies `content, `blocks, `tailContent, `tailBlock, `tailFrame, `pending, `job, `tree, `truth
      ensures Valid()
      ensures committed <==> succeeded && old(job) == old(Wanted())
      ensures committed ==> content == old(Seen()).content && Rebuilt(rebuild(old(Seen()).content), old(job).value.cursor)
      ensures committed ==> job.None? && pending.Some? && pending.value.reason.None?
      ensures committed ==> Seen().streamId == old(Seen()).streamId && Seen().cursor == old(Seen()).cursor
      ensures !committed ==>
                && unchanged(`content, `blocks, `tailContent, `tailBlock, `tailFrame, `pending, `tree, `truth)
                && job == if succeeded then Wanted() else None
    {
      var sent := job.value;
      committed, job := false, None;
      if !succeeded { return; }
      if Wanted() != Some(sent) {
        job := Wanted();
        return;
      }
      Commit(sent);
      committed := true;
    }

    // ---- Consumers, ends, errors and recovery

    predicate Refuses(rev: int)
      reads this
    {
      ended || rev <= 0 || rev > MAX_SAFE_INTEGER || rev < revision
    }

    /** The state in which a consumer's event is handled: a newer consumer finds nothing pending. */
    ghost function Admitted(rev: int): Shown
      reads this
    {
      if rev > revision then Cleared(State()) else State()
    }

    static predicate SameText(v: View, w: View) { w == v.(streamId := w.streamId, cursor := w.cursor) }

    /** The event's consumer takes over: a newer one drops what is pending and disowns the recovery. */
    method Admit(d: Delivery, rev: nat)
      requires Valid() && !Refuses(rev)
      modifies `content, `blocks, `tailContent, `tailBlock, `tailFrame, `pending, `tree, `truth, `revision, `ended, `recovery,
               `nextOwner, `disturbances
      ensures Valid() && revision == rev && ended == d.Ended?
      ensures disturbances == old(disturbances) + (if rev > old(revision) || !d.Aurora? then 1 else 0)
      ensures recovery == if !d.Aurora? then None
                          else if rev > old(revision) && old(recovery).Some? then Some(old(nextOwner)) else old(recovery)
      ensures State() == old(Admitted(rev)) && (rev > old(revision) ==> pending.None?)
      ensures SameText(if rev > old(revision) then old(Drawn()) else old(Seen()), Seen())
    {
      var newer := rev > revision;
      if newer { ClearPending(false); }
      Disown(newer, !d.Aurora?);
      revision, ended := rev, d.Ended?;
    }

    /** A newer consumer puts a new owner in the place of a recovery under way; an end or an error ends it. */
    method Disown(newer: bool, ends: bool)
      requires Owned()
      modifies `recovery, `nextOwner, `disturbances
      ensures Owned() && disturbances == old(disturbances) + (if newer || ends then 1 else 0)
      ensures recovery == if ends then None else if newer && old(recovery).Some? then Some(old(nextOwner)) else old(recovery)
    {
      if newer || ends { disturbances := disturbances + 1; }
      if newer && recovery.Some? {
        recovery := Some(nextOwner);
        nextOwner := nextOwner + 1;
      }
      if ends { recovery := None; }
    }

    /** The message is what was seen, with what the error or the end brought in its place; blocks leave no tail. */
    ghost predicate Final(d: Delivery, was: View)
      requires !d.Aurora?
      reads `content, `blocks, `tailContent, `tailBlock
    {
      && (match d.content case Some(text) => content == text case None => content == was.content)
      && if d.Ended? && d.blocks.Some? then blocks == d.blocks.value && tailContent == "" && tailBlock.None?
         else blocks == was.blocks && tailContent == was.tailContent && tailBlock == was.tailBlock
    }

    /** The error and end branches: write what is pending, then what the event brings. */
    method Close(d: Delivery)
      requires Steady() && !d.Aurora?
      modifies `content, `blocks, `tailContent, `tailBlock, `tailFrame, `pending, `tree, `truth
      ensures Steady() && pending.None? && State() == Closed(old(State()), d) && Final(d, old(Seen()))
    {
      ClearPending(true);
      content := Or(d.content, content);
      if d.Ended? && d.blocks.Some? { blocks, tailContent, tailBlock := d.blocks.value, "", None; }
    }

    /** Everything pending is drawn, and then what the event brings. */
    static ghost function Closed(s: Shown, d: Delivery): Shown
      requires !d.Aurora?
    {
      var v := Forgotten(s.seen);
      var w := v.(content := Or(d.content, v.content));
      var r := if d.Ended? && d.blocks.Some? then w.(blocks := d.blocks.value, tailContent := "", tailBlock := None) else w;
      Shown(r, r, None, Upcoming(s), Some(Upcoming(s)), None)
    }

    /** processStreamEvent: the tombstone and the consumer revision come first. */
    method Deliver(d: Delivery, rev: int)
      requires Valid()
      modifies `content, `blocks, `tailContent, `tailBlock, `tailFrame, `pending, `tree, `truth, `revision, `ended, `compiling,
               `recovery, `nextOwner, `disturbances
      ensures Valid()
      ensures old(Refuses(rev)) <==> old(ended) || rev < 1 || rev >= 0x20_0000_0000_0000 || rev < old(revision)
      ensures old(Refuses(rev)) ==> unchanged(this)
      ensures !old(Refuses(rev)) ==>
                && revision == rev && ended == d.Ended?
                && disturbances == old(disturbances) + (if rev > old(revision) || !d.Aurora? then 1 else 0)
                && recovery == if !d.Aurora? then None
                               else if rev > old(revision) && old(recovery).Some? then Some(old(nextOwner)) else old(recovery)
      ensures !old(Refuses(rev)) ==> State() == Handled(old(Admitted(rev)), d) && (d.Aurora? || pending.None?)
      ensures !old(Refuses(rev)) && !d.Aurora? ==> Final(d, if rev > old(revision) then old(Drawn()) else old(Seen()))
      ensures !old(Refuses(rev)) ==> compiling == if d.Ended? && d.blocks.None? then Some(revision) else old(compiling)
    {
      hide Handled, Seen, Drawn, Sound;
      if Refuses(rev) { return; }
      Admit(d, rev);
      Handle(d);
    }

    static ghost function Handled(s: Shown, d: Delivery): Shown {
      if d.Aurora? then Next(s, Incoming(d.e)) else Closed(s, d)
    }

    method Handle(d: Delivery)
      requires Steady()
      modifies `content, `blocks, `tailContent, `tailBlock, `tailFrame, `pending, `tree, `truth, `compiling
      ensures Steady() && State() == Handled(old(State()), d) && (d.Aurora? || (pending.None? && Final(d, old(Seen()))))
      ensures compiling == if d.Ended? && d.blocks.None? then Some(revision) else old(compiling)
    {
      if d.Aurora? { Receive(d.e); } else { Close(d); }
      if d.Ended? && d.blocks.None? { compiling := Some(revision); }
    }

    /** The blocks that an end did not bring are compiled, or cannot be: written, with the tail gone in any case,
        exactly if the consumer is still the one that ended. */
    method Compiled(compiled: Option<seq<StreamBlock>>) returns (effective: bool)
      requires Valid() && compiling.Some?
      modifies `blocks, `tailContent, `tailBlock, `compiling
      ensures Valid() && compiling.None?
      ensures effective <==> old(compiling) == Some(revision)
      ensures Drawn() == if effective then old(Drawn()).(blocks := Or(compiled, old(blocks)), tailContent := "", tailBlock := None)
                         else old(Drawn())
      ensures pending.None? ==> Seen() == Drawn()
    {
      effective := compiling == Some(revision);
      compiling := None;
      if effective { blocks, tailContent, tailBlock := Or(compiled, blocks), "", None; }
    }

    /** forgetDeletedMessage: nothing that is still on its way may bring the message back. */
    method ForgetDeleted()
      requires Valid()
      modifies this
      ensures Valid() && ended && pending.None? && Wanted().None? && recovery.None? && revision == 0
      ensures State() == Cleared(old(State()))
      ensures disturbances == old(disturbances) + 1 && issued == old(issued)
    {
      hide Sound, Cleared, Forgotten, Seen, Drawn;
      ended, recovery, revision := true, None, 0;
      disturbances := disturbances + 1;
      ClearPending(false);
    }

    /** One recovery at a time. */
    method BeginRecovery() returns (owner: Option<nat>)
      requires Valid()
      modifies this`recovery, this`nextOwner, this`issued
      ensures Valid() && (owner.Some? <==> old(recovery).None?) && recovery == if owner.Some? then owner else old(recovery)
      ensures owner.Some? ==> owner.value !in old(issued) && issued == old(issued)[owner.value := disturbances]
      ensures owner.None? ==> issued == old(issued)
    {
      if recovery.Some? { return None; }
      owner := Some(nextOwner);
      issued := issued[nextOwner := disturbances];
      recovery, nextOwner := owner, nextOwner + 1;
    }

    /** The backend's answer to a recovery takes effect exactly when no newer consumer, end, error or
        deletion came since it was issued. */
    method RecoveryReply(owner: nat, r: Recovery) returns (effective: bool)
      requires Valid() && owner in issued
      modifies this
      ensures Valid() && issued == old(issued) - {owner} && disturbances == old(disturbances) && revision == old(revision)
      ensures effective <==> !old(ended) && old(issued)[owner] == old(disturbances)
      ensures !effective || r.Attached? ==> Seen() == old(Seen()) && Drawn() == old(Drawn()) && pending == old(pending)
      ensures recovery == if old(recovery) == Some(owner) && !(effective && r.Attached?) then None else old(recovery)
      ensures effective && r.Settled? ==> Concluded(r.content)
      ensures effective && r.Rejected? ==> Seen() == Forgotten(old(Seen())) && Drawn() == Seen() && pending.None?
      ensures unchanged(`ended, `job, `compiling, `nextOwner)
    {
      hide Steady, Seen, Drawn, Forgotten;
      issued := issued - {owner};
      effective := recovery == Some(owner) && !ended;
      if effective && r.Attached? { return; }
      if effective { Conclude(r); }
      if recovery == Some(owner) { recovery := None; }
    }

    /** The recovered content, if there is any, takes the place of what is pending; without one nothing moves. */
    twostate predicate Concluded(recovered: Option<string>)
      reads `content, `blocks, `tailContent, `tailBlock, `pending, `tree
    {
      if recovered.None? then Seen() == old(Seen()) && Drawn() == old(Drawn()) && pending == old(pending) && tree == old(tree)
      else Seen() == Forgotten(old(Drawn())).(content := recovered.value) && Drawn() == Seen() && pending.None?
    }

    /** The recovered content replaces what is pending; a rejected recovery writes it. */
    method Conclude(r: Recovery)
      requires Steady() && !r.Attached?
      modifies `content, `blocks, `tailContent, `tailBlock, `tailFrame, `pending, `tree, `truth
      ensures Steady()
      ensures r.Settled? ==> Concluded(r.content)
      ensures r.Rejected? ==> Seen() == Forgotten(old(Seen())) && Drawn() == Seen() && pending.None?
    {
      match r
      case Settled(c) =>
        if c.Some? {
          ClearPending(false);
          content := c.value;
        }
      case Rejected => ClearPending(true);
    }
  }
}
