/** Merging the Aurora events of one message: events are gathered in a pending record that is written to
    the message only when the browser draws, yet every reader sees what direct application would show. */
module StreamMerge {
  import opened Wrappers
  import opened MarkdownAst
  import opened NodeIds
  import opened DomTree
  import opened AstDiff
  import opened AstPatch

  const MAX_PENDING_TAIL_MUTATIONS: nat := 512
  const MAX_SAFE_INTEGER: nat := 0x1F_FFFF_FFFF_FFFF

  datatype TailFrame = TailFrame(streamId: int, epoch: int, revision: int, frameSeq: int, reset: bool,
                                 snapshot: Option<List<Block>>, mutations: seq<Mutation>)

  datatype Cursor = Cursor(streamId: int, epoch: int, revision: int, frameSeq: int)

  datatype Reason =
    | Hidden | StreamChanged | EpochChanged | FrameGap | LateFirstFrame | ResetWithoutSnapshot
    | OverflowAfterReset | Overflow | StableBaseMismatch | TailBaseMismatch

  function CursorOf(f: TailFrame): Cursor { Cursor(f.streamId, f.epoch, f.revision, f.frameSeq) }

  // ---- mergeTailFrame

  datatype MergeResult =
    | Stale
    | Merged(cursor: Cursor, frame: TailFrame)
    | NeedsSnapshot(cursor: Cursor, reason: Reason)

  /** The frame comes after the cursor: streams first, then epochs, then frames. */
  predicate Newer(cursor: Cursor, f: TailFrame) {
    f.streamId > cursor.streamId ||
    (f.streamId == cursor.streamId && (f.epoch > cursor.epoch || (f.epoch == cursor.epoch && f.frameSeq > cursor.frameSeq)))
  }

  /** Why the frame cannot simply be appended to what is known. */
  function SnapshotReason(cursor: Option<Cursor>, f: TailFrame, force: bool): Option<Reason> {
    match cursor
    case Some(c) =>
      if f.streamId > c.streamId then Some(StreamChanged)
      else if f.epoch > c.epoch then Some(EpochChanged)
      else if f.frameSeq > c.frameSeq + 1 then Some(FrameGap)
      else if force then Some(Hidden) else None
    case None =>
      if f.frameSeq > 1 then Some(LateFirstFrame) else if force then Some(Hidden) else None
  }

  predicate StartsAfresh(cursor: Option<Cursor>, f: TailFrame, force: bool) {
    f.reset || SnapshotReason(cursor, f, force).Some?
  }

  function MergeTailFrame(existing: Option<TailFrame>, cursor: Option<Cursor>, f: TailFrame,
                          latest: Option<List<Block>>, force: bool): MergeResult
  {
    var reason := SnapshotReason(cursor, f, force);
    var snapshot := if latest.Some? then latest else f.snapshot;
    if cursor.Some? && !Newer(cursor.value, f) then Stale
    else if f.reset || reason.Some? then
      if snapshot.Some? then Merged(CursorOf(f), f.(reset := true, snapshot := snapshot))
      else NeedsSnapshot(CursorOf(f), if reason.Some? then reason.value else ResetWithoutSnapshot)
    else if existing.None? then Merged(CursorOf(f), f)
    else
      var all := existing.value.mutations + f.mutations;
      if existing.value.reset then
        if |all| > MAX_PENDING_TAIL_MUTATIONS then NeedsSnapshot(CursorOf(f), OverflowAfterReset)
        else Merged(CursorOf(f), f.(reset := true, snapshot := existing.value.snapshot, mutations := all))
      else if |all| > MAX_PENDING_TAIL_MUTATIONS then NeedsSnapshot(CursorOf(f), Overflow)
      else Merged(CursorOf(f), f.(reset := false,
                                  snapshot := if f.snapshot.Some? then f.snapshot else existing.value.snapshot,
                                  mutations := all))
  }

  predicate WellFormed(f: Option<TailFrame>) { f.Some? && f.value.reset ==> f.value.snapshot.Some? }

  /** What a tail tree becomes under a frame: start from the snapshot if the frame resets, then patch. */
  function Denote(f: Option<TailFrame>, tree: Keyed): Keyed {
    if f.None? then tree
    else
      Run(if f.value.reset && f.value.snapshot.Some? then RenderDocument(f.value.snapshot.value) else tree,
          Root, f.value.mutations)
  }

  /** One frame applied directly to what is known of the tail; nothing is known after a fresh start
      without a snapshot. */
  function DirectTail(tree: Option<Keyed>, cursor: Option<Cursor>, f: TailFrame, latest: Option<List<Block>>,
                      force: bool): Option<Keyed>
  {
    var snapshot := if latest.Some? then latest else f.snapshot;
    if StartsAfresh(cursor, f, force) then
      if snapshot.Some? then Some(Run(RenderDocument(snapshot.value), Root, f.mutations)) else None
    else if tree.Some? then Some(Run(tree.value, Root, f.mutations))
    else None
  }

  /** The very next frame, of the same stream and epoch; or, where no position is known, the first one. */
  predicate IsNext(cursor: Option<Cursor>, f: TailFrame) {
    match cursor
    case None => f.frameSeq <= 1
    case Some(c) => f.streamId == c.streamId && f.epoch == c.epoch && f.frameSeq == c.frameSeq + 1
  }

  /** A frame that the cursor does not cover continues the pending one exactly if it is the very next frame, does not
      reset, and nothing forces a snapshot. */
  lemma ContinuesIffNext(cursor: Option<Cursor>, f: TailFrame, force: bool)
    requires cursor.Some? ==> Newer(cursor.value, f)
    ensures StartsAfresh(cursor, f, force) <==> !IsNext(cursor, f) || f.reset || force
  {}

  /** What a merge keeps: nothing of a frame that is covered; of one that does not continue, the frame alone, as a reset on
      the newest snapshot, without which one is asked for; otherwise the mutations of both in order, at most 512 of them,
      as a reset if the pending frame is one, and then on its snapshot. Either way the position is the frame's. */
  lemma MergeKeeps(existing: Option<TailFrame>, cursor: Option<Cursor>, f: TailFrame, latest: Option<List<Block>>, force: bool)
    ensures var r := MergeTailFrame(existing, cursor, f, latest, force);
            var at := Cursor(f.streamId, f.epoch, f.revision, f.frameSeq);
            var newest := if latest.Some? then latest else f.snapshot;
            if cursor.Some? && !Newer(cursor.value, f) then r.Stale?
            else if !IsNext(cursor, f) || f.reset || force then
              if newest.Some? then r == Merged(at, f.(reset := true, snapshot := newest)) else r.NeedsSnapshot? && r.cursor == at
            else if existing.None? then r == Merged(at, f)
            else if |existing.value.mutations| + |f.mutations| > 512 then r.NeedsSnapshot? && r.cursor == at
            else
              && r.Merged? && r.cursor == at && CursorOf(r.frame) == at
              && r.frame.mutations == existing.value.mutations + f.mutations && r.frame.reset == existing.value.reset
              && r.frame.snapshot == if existing.value.reset || f.snapshot.None? then existing.value.snapshot else f.snapshot
  {
    if cursor.None? || Newer(cursor.value, f) { ContinuesIffNext(cursor, f, force); }
  }

  /** What the reason for asking says. */
  lemma WhyAsked(existing: Option<TailFrame>, cursor: Option<Cursor>, f: TailFrame, latest: Option<List<Block>>, force: bool)
    requires MergeTailFrame(existing, cursor, f, latest, force).NeedsSnapshot?
    ensures match MergeTailFrame(existing, cursor, f, latest, force).reason
            case StreamChanged => cursor.Some? && f.streamId > cursor.value.streamId
            case EpochChanged => cursor.Some? && f.streamId == cursor.value.streamId && f.epoch > cursor.value.epoch
            case FrameGap => cursor.Some? && f.streamId == cursor.value.streamId && f.epoch == cursor.value.epoch
                             && f.frameSeq > cursor.value.frameSeq + 1
            case LateFirstFrame => cursor.None? && f.frameSeq > 1
            case Hidden => force && IsNext(cursor, f)
            case ResetWithoutSnapshot => f.reset && !force && IsNext(cursor, f)
            case OverflowAfterReset => existing.Some? && existing.value.reset
            case Overflow => existing.Some? && !existing.value.reset
            case _ => false
  {}

  /** Coalescing two frames preserves their meaning. */
  lemma MergeDenotes(existing: Option<TailFrame>, cursor: Option<Cursor>, f: TailFrame, latest: Option<List<Block>>,
                     force: bool, shown: Keyed)
    requires WellFormed(existing)
    ensures var r := MergeTailFrame(existing, cursor, f, latest, force);
            r.Merged? ==>
              (WellFormed(Some(r.frame)) &&
               Some(Denote(Some(r.frame), shown)) == DirectTail(Some(Denote(existing, shown)), cursor, f, latest, force))
  {
    if existing.Some? && !StartsAfresh(cursor, f, force) {
      var base := if existing.value.reset then RenderDocument(existing.value.snapshot.value) else shown;
      RunConcat(base, Root, existing.value.mutations, f.mutations, false);
    }
  }

  // ---- Events, and their direct application

  datatype Mode = Ast | PlainText

  datatype BlockKind = Markdown | HtmlPreview | Thought(theme: string) | OtherKind(name: string)

  datatype StreamBlock = StreamBlock(kind: BlockKind, content: string, hash: string, mode: Option<Mode>,
                                     nodes: Option<List<Block>>)

  datatype TailKind = MarkdownTail | HtmlTail | ThoughtTail(theme: Option<string>)

  datatype TailOp =
    | Append(previousHash: Option<string>, content: string, hash: string, mode: Mode, kind: TailKind)
    | ReplaceAll(content: string, hash: string, mode: Mode, kind: TailKind)
    | Clear

  datatype StableAppend = StableAppend(baseCount: nat, blocks: seq<StreamBlock>)

  datatype Kind = Delta | Snapshot

  /** hidden tells whether the document was hidden when the event came. */
  datatype Event = Event(kind: Kind, streamId: Option<int>, content: Option<string>, chunk: string,
                         stableBlocks: Option<seq<StreamBlock>>, stableAppend: Option<StableAppend>,
                         tailBlock: Option<StreamBlock>, tailMode: Option<Mode>,
                         tailOp: Option<TailOp>, tailFrame: Option<TailFrame>, hidden: bool)

  const DEFAULT_THEME := "思维链"

  function BuildTailBlock(kind: TailKind, mode: Mode, hash: string, content: string, current: Option<StreamBlock>): StreamBlock {
    var k := match kind
      case MarkdownTail => Markdown
      case HtmlTail => HtmlPreview
      case ThoughtTail(theme) =>
        Thought(if theme.Some? then theme.value
                else if current.Some? && current.value.kind.Thought? then current.value.kind.theme
                else DEFAULT_THEME);
    StreamBlock(k, content, hash, Some(mode), None)
  }

  /** An empty hash counts as no hash. */
  function HashOf(b: Option<StreamBlock>): Option<string> {
    if b.Some? && b.value.hash != "" then Some(b.value.hash) else None
  }

  /** What a reader sees of the message, and where its stream stands. */
  datatype View = View(content: string, blocks: seq<StreamBlock>, tailContent: string, tailBlock: Option<StreamBlock>,
                       streamId: Option<int>, cursor: Option<Cursor>)

  function EventStream(e: Event): Option<int> {
    if e.streamId.Some? then e.streamId else if e.tailFrame.Some? then Some(e.tailFrame.value.streamId) else None
  }

  /** The event opens a stream, or replaces an older one. */
  predicate Claims(streamId: Option<int>, e: Event) {
    EventStream(e).Some? && (streamId.None? || EventStream(e).value > streamId.value)
  }

  /** The event is not refused as malformed, as belonging to an older stream, or as already seen. */
  predicate Accepts(v: View, e: Event) {
    var sid := EventStream(e);
    && (sid.Some? ==> 0 < sid.value <= MAX_SAFE_INTEGER
                      && (e.tailFrame.Some? ==> e.tailFrame.value.streamId == sid.value)
                      && (v.streamId.Some? ==> sid.value >= v.streamId.value))
    && (e.tailFrame.Some? && !Claims(v.streamId, e) && v.cursor.Some? ==> Newer(v.cursor.value, e.tailFrame.value))
  }

  /** A tail operation on top of the block that is read as the current one. */
  function TailRead(v: View, current: Option<StreamBlock>, op: TailOp): View {
    match op
    case Clear => v.(tailContent := "", tailBlock := None)
    case ReplaceAll(content, hash, mode, kind) =>
      v.(tailContent := content, tailBlock := Some(BuildTailBlock(kind, mode, hash, content, current)))
    case Append(previous, content, hash, mode, kind) =>
      if HashOf(current) != previous then v
      else
        v.(tailContent := v.tailContent + content,
           tailBlock := Some(BuildTailBlock(kind, mode, hash, v.tailContent + content, current)))
  }

  function SnapshotBlock(e: Event): Option<StreamBlock> {
    var mode := if e.tailMode.Some? then e.tailMode.value
                else if e.tailBlock.Some? && e.tailBlock.value.nodes.Some? then Ast else PlainText;
    if e.tailBlock.Some? then Some(e.tailBlock.value.(mode := Some(mode))) else None
  }

  /** An accepted event applied at once to what is shown. */
  function Applied(v: View, e: Event): View { BodyApplied(Positioned(v, e), e) }

  /** Its stream and its frame come first. */
  function Positioned(v: View, e: Event): View {
    var v1 := if Claims(v.streamId, e) then v.(streamId := EventStream(e), cursor := None) else v;
    if e.tailFrame.Some? then v1.(cursor := Some(CursorOf(e.tailFrame.value))) else v1
  }

  /** The same without its position, on top of the block that is seen. */
  function BodyApplied(v: View, e: Event): View { BodyRead(v, v.tailBlock, e) }

  /** What an event carries, apart from its position. A delta whose base does not match is not applied. */
  function BodyRead(v: View, current: Option<StreamBlock>, e: Event): View {
    var v1 := if e.content.Some? then v.(content := e.content.value) else v.(content := v.content + e.chunk);
    match e.kind
    case Snapshot =>
      v1.(blocks := if e.stableBlocks.Some? then e.stableBlocks.value else v1.blocks,
          tailContent := if e.tailBlock.Some? then e.tailBlock.value.content else "",
          tailBlock := SnapshotBlock(e))
    case Delta =>
      var v2 := if e.stableAppend.Some? && |v1.blocks| == e.stableAppend.value.baseCount
                then v1.(blocks := v1.blocks + e.stableAppend.value.blocks) else v1;
      if e.tailOp.Some? then TailRead(v2, current, e.tailOp.value) else v2
  }

  function Direct(v: View, e: Event): View { if Accepts(v, e) then Applied(v, e) else v }

  function DirectAll(v: View, es: seq<Event>): View
    decreases |es|
  {
    if es == [] then v else DirectAll(Direct(v, es[0]), es[1..])
  }

  // ---- Exactly once

  predicate CursorBefore(a: Cursor, b: Cursor) {
    a.streamId < b.streamId ||
    (a.streamId == b.streamId && (a.epoch < b.epoch || (a.epoch == b.epoch && a.frameSeq < b.frameSeq)))
  }

  /** The cursor is the newest of the stream, and belongs to it. */
  predicate Tracked(v: View) {
    v.cursor.Some? ==> v.streamId.Some? && v.cursor.value.streamId <= v.streamId.value
  }

  /** The events of es that are accepted, in order. */
  function AcceptedOf(v: View, es: seq<Event>): seq<Event>
    decreases |es|
  {
    if es == [] then []
    else (if Accepts(v, es[0]) then [es[0]] else []) + AcceptedOf(Direct(v, es[0]), es[1..])
  }

  lemma FramedStep(v: View, e: Event)
    requires Tracked(v) && e.tailFrame.Some? && Accepts(v, e)
    ensures Tracked(Direct(v, e)) && Direct(v, e).cursor == Some(CursorOf(e.tailFrame.value))
    ensures v.cursor.Some? ==> CursorBefore(v.cursor.value, CursorOf(e.tailFrame.value))
  {}

  lemma FramedReaches(v: View, e: Event)
    requires Tracked(v) && e.tailFrame.Some? && Accepts(v, e)
    ensures Reached(Direct(v, e), CursorOf(e.tailFrame.value))
  {
    FramedStep(v, e);
  }

  /** The position c was reached, or passed in a newer stream. */
  predicate Reached(v: View, c: Cursor) {
    && v.streamId.Some?
    && (v.streamId.value > c.streamId
        || (v.streamId.value == c.streamId && v.cursor.Some? && !CursorBefore(v.cursor.value, c)))
  }

  /** An event that can belong to no stream. */
  predicate Malformed(e: Event) {
    var sid := EventStream(e);
    sid.Some? && (!(0 < sid.value <= MAX_SAFE_INTEGER) || (e.tailFrame.Some? && e.tailFrame.value.streamId != sid.value))
  }

  lemma FramedRefused(v: View, e: Event)
    requires Tracked(v) && e.tailFrame.Some?
    ensures !Accepts(v, e) <==> Malformed(e) || Reached(v, CursorOf(e.tailFrame.value))
  {}

  lemma FramelessRefused(v: View, e: Event)
    requires e.tailFrame.None?
    ensures !Accepts(v, e) <==>
              Malformed(e) || (EventStream(e).Some? && v.streamId.Some? && v.streamId.value > EventStream(e).value)
  {}

  predicate Later(v: View, w: View) {
    v.streamId.Some? ==> w.streamId.Some? && w.streamId.value >= v.streamId.value
  }

  lemma AppliedContent(v: View, e: Event)
    requires Accepts(v, e)
    ensures Direct(v, e).content == if e.content.Some? then e.content.value else v.content + e.chunk
  {}

  lemma StepKeeps(v: View, e: Event)
    requires Tracked(v)
    ensures Tracked(Direct(v, e)) && Later(v, Direct(v, e)) && forall c :: Reached(v, c) ==> Reached(Direct(v, e), c)
  {
    if Accepts(v, e) && e.tailFrame.Some? { FramedStep(v, e); }
  }

  /** Stream and position never fall back, whatever comes, with a frame or without. */
  lemma {:induction false} NeverFallsBack(v: View, es: seq<Event>)
    requires Tracked(v)
    ensures var w := DirectAll(v, es);
            Tracked(w) && Later(v, w) && forall c :: Reached(v, c) ==> Reached(w, c)
    decreases |es|
  {
    if es != [] {
      StepKeeps(v, es[0]);
      NeverFallsBack(Direct(v, es[0]), es[1..]);
    }
  }

  /** Every frame among the events comes after the position c. */
  predicate AllAfter(c: Cursor, es: seq<Event>) {
    forall k :: 0 <= k < |es| && es[k].tailFrame.Some? ==> CursorBefore(c, CursorOf(es[k].tailFrame.value))
  }

  /** Each frame among the events comes after those before it. */
  predicate Increasing(es: seq<Event>) {
    forall i :: 0 <= i < |es| && es[i].tailFrame.Some? ==> AllAfter(CursorOf(es[i].tailFrame.value), es[i + 1..])
  }

  lemma AfterCons(c: Cursor, e: Event, es: seq<Event>)
    requires AllAfter(c, es) && (e.tailFrame.Some? ==> CursorBefore(c, CursorOf(e.tailFrame.value)))
    ensures AllAfter(c, [e] + es)
  {}

  lemma IncreasingCons(e: Event, es: seq<Event>)
    requires Increasing(es) && (e.tailFrame.Some? ==> AllAfter(CursorOf(e.tailFrame.value), es))
    ensures Increasing([e] + es)
  {
    var all := [e] + es;
    forall i | 0 <= i < |all| && all[i].tailFrame.Some? ensures AllAfter(CursorOf(all[i].tailFrame.value), all[i + 1..]) {
      if i == 0 { assert all[1..] == es; } else { assert all[i] == es[i - 1] && all[i + 1..] == es[i..]; }
    }
  }

  lemma {:induction false} AcceptedAreNew(v: View, es: seq<Event>, c: Cursor)
    requires Tracked(v) && Reached(v, c)
    ensures AllAfter(c, AcceptedOf(v, es))
    decreases |es|
  {
    if es != [] {
      StepKeeps(v, es[0]);
      AcceptedAreNew(Direct(v, es[0]), es[1..], c);
      if Accepts(v, es[0]) {
        if es[0].tailFrame.Some? { FramedRefused(v, es[0]); }
        AfterCons(c, es[0], AcceptedOf(Direct(v, es[0]), es[1..]));
      }
    }
  }

  /** The cursors of accepted frames strictly increase, whatever is replayed or reordered and whatever comes without a
      frame in between. */
  lemma {:induction false} AcceptedCursorsIncrease(v: View, es: seq<Event>)
    requires Tracked(v)
    ensures Increasing(AcceptedOf(v, es))
    decreases |es|
  {
    if es != [] {
      var v' := Direct(v, es[0]);
      StepKeeps(v, es[0]);
      AcceptedCursorsIncrease(v', es[1..]);
      if Accepts(v, es[0]) {
        if es[0].tailFrame.Some? {
          FramedReaches(v, es[0]);
          AcceptedAreNew(v', es[1..], CursorOf(es[0].tailFrame.value));
        }
        IncreasingCons(es[0], AcceptedOf(v', es[1..]));
      }
    }
  }

  function Chunks(es: seq<Event>): string {
    if es == [] then "" else es[0].chunk + Chunks(es[1..])
  }

  /** Each event replaces the text as a whole, or adds its chunk. */
  function Written(start: string, es: seq<Event>): string
    decreases |es|
  {
    if es == [] then start
    else Written(if es[0].content.Some? then es[0].content.value else start + es[0].chunk, es[1..])
  }

  lemma {:induction false} ContentIsWritten(v: View, es: seq<Event>)
    ensures DirectAll(v, es).content == Written(v.content, AcceptedOf(v, es))
    decreases |es|
  {
    if es != [] {
      var v' := Direct(v, es[0]);
      ContentIsWritten(v', es[1..]);
      if Accepts(v, es[0]) {
        assert AcceptedOf(v, es)[1..] == AcceptedOf(v', es[1..]);
      } else {
        assert AcceptedOf(v, es) == AcceptedOf(v', es[1..]);
      }
    }
  }

  lemma {:induction false} AcceptedAreIn(v: View, es: seq<Event>)
    ensures forall e :: e in AcceptedOf(v, es) ==> e in es
    decreases |es|
  {
    if es != [] { AcceptedAreIn(Direct(v, es[0]), es[1..]); }
  }

  lemma {:induction false} WrittenIsChunks(start: string, es: seq<Event>)
    requires forall e :: e in es ==> e.content.None?
    ensures Written(start, es) == start + Chunks(es)
    decreases |es|
  {
    if es == [] {
      assert start + Chunks(es) == start;
    } else {
      WrittenIsChunks(start + es[0].chunk, es[1..]);
      assert start + es[0].chunk + Chunks(es[1..]) == start + (es[0].chunk + Chunks(es[1..]));
    }
  }

  /** The shown content is what the accepted events write, each once and in order: the starting content and their
      chunks, where none replaces the text as a whole. */
  lemma {:induction false} ContentIsAcceptedChunks(v: View, es: seq<Event>)
    ensures DirectAll(v, es).content == Written(v.content, AcceptedOf(v, es))
    ensures (forall e :: e in es ==> e.content.None?) ==> DirectAll(v, es).content == v.content + Chunks(AcceptedOf(v, es))
  {
    ContentIsWritten(v, es);
    AcceptedAreIn(v, es);
    if forall e :: e in es ==> e.content.None? { WrittenIsChunks(v.content, AcceptedOf(v, es)); }
  }

  // ---- What one event shows

  /** The block's kind is the one the operation asks for; a thought without a theme keeps that of the thought before. */
  predicate KindShown(kind: TailKind, before: Option<StreamBlock>, b: StreamBlock) {
    match kind
    case MarkdownTail => b.kind.Markdown?
    case HtmlTail => b.kind.HtmlPreview?
    case ThoughtTail(Some(theme)) => b.kind.Thought? && b.kind.theme == theme
    case ThoughtTail(None) =>
      b.kind.Thought? && (if before.Some? && before.value.kind.Thought? then b.kind.theme == before.value.kind.theme
                          else b.kind.theme == "思维链")
  }

  /** The operation continues the tail block: it names its hash, or none where there is no block or no hash. */
  predicate Continues(v: View, previous: Option<string>) {
    match previous
    case Some(hash) => hash != "" && v.tailBlock.Some? && v.tailBlock.value.hash == hash
    case None => v.tailBlock.Some? ==> v.tailBlock.value.hash == ""
  }

  predicate SameTail(v: View, w: View) { w.tailContent == v.tailContent && w.tailBlock == v.tailBlock }

  /** The tail is this text, in a block of its own. */
  predicate TailShows(v: View, w: View, text: string, hash: string, mode: Mode, kind: TailKind) {
    && w.tailContent == text && w.tailBlock.Some?
    && w.tailBlock.value.content == text && w.tailBlock.value.hash == hash && w.tailBlock.value.mode == Some(mode)
    && w.tailBlock.value.nodes.None? && KindShown(kind, v.tailBlock, w.tailBlock.value)
  }

  /** What the tail operation of an accepted delta shows: a clear nothing, a replacement its own text, an append the
      text before and then its own, if it continues the block. */
  lemma TailOpShows(v: View, e: Event)
    requires Accepts(v, e) && e.kind == Delta
    ensures var w := Direct(v, e);
            match e.tailOp
            case None => SameTail(v, w)
            case Some(Clear) => w.tailContent == "" && w.tailBlock.None?
            case Some(ReplaceAll(content, hash, mode, kind)) => TailShows(v, w, content, hash, mode, kind)
            case Some(Append(previous, content, hash, mode, kind)) =>
              if Continues(v, previous) then TailShows(v, w, v.tailContent + content, hash, mode, kind) else SameTail(v, w)
  {}

  /** What an accepted event shows besides: its whole content or the content before and its chunk; a delta the blocks
      before and then its own, if they follow them; a snapshot the blocks and the tail that it brings. */
  lemma EventShows(v: View, e: Event)
    requires Accepts(v, e)
    ensures var w := Direct(v, e);
            && (e.content.Some? ==> w.content == e.content.value)
            && (e.content.None? ==> w.content == v.content + e.chunk)
            && (e.kind == Delta ==>
                  if e.stableAppend.Some? && |v.blocks| == e.stableAppend.value.baseCount
                  then v.blocks <= w.blocks && w.blocks[|v.blocks|..] == e.stableAppend.value.blocks
                  else w.blocks == v.blocks)
            && (e.kind == Snapshot ==>
                  && (if e.stableBlocks.Some? then w.blocks == e.stableBlocks.value else w.blocks == v.blocks)
                  && (e.tailBlock.None? ==> w.tailContent == "" && w.tailBlock.None?)
                  && (e.tailBlock.Some? ==>
                        && w.tailContent == e.tailBlock.value.content && w.tailBlock.Some?
                        && ShownWith(e.tailBlock.value, e.tailMode, e.tailBlock.value.nodes.Some?, w.tailBlock.value)))
  {
    if e.kind == Delta && e.tailOp.Some? { KeepsBlocks(BodyRead(Positioned(v, e), None, e.(tailOp := None)), v.tailBlock, e.tailOp.value); }
  }

  lemma KeepsBlocks(v: View, current: Option<StreamBlock>, op: TailOp)
    ensures TailRead(v, current, op).blocks == v.blocks && TailRead(v, current, op).content == v.content
  {}

  /** The block as it came, in the mode that came with it; without one, as a tree if there is a tree, else as text. */
  predicate ShownWith(b: StreamBlock, mode: Option<Mode>, tree: bool, shown: StreamBlock) {
    && shown.kind == b.kind && shown.content == b.content && shown.hash == b.hash && shown.nodes == b.nodes
    && shown.mode == if mode.Some? then mode else if tree then Some(Ast) else Some(PlainText)
  }

  /** Where an accepted event leaves the stream: at its own, if it names one, and at its own frame, if it brings one. */
  lemma EventPlaces(v: View, e: Event)
    requires Accepts(v, e)
    ensures var w := Direct(v, e);
            && w.streamId == (if e.streamId.Some? then e.streamId
                              else if e.tailFrame.Some? then Some(e.tailFrame.value.streamId) else v.streamId)
            && (e.tailFrame.Some? ==>
                  && w.cursor.Some? && w.cursor.value.streamId == e.tailFrame.value.streamId
                  && w.cursor.value.epoch == e.tailFrame.value.epoch && w.cursor.value.revision == e.tailFrame.value.revision
                  && w.cursor.value.frameSeq == e.tailFrame.value.frameSeq)
            && (e.tailFrame.None? ==> w.cursor == if w.streamId == v.streamId then v.cursor else None)
  {}

  // ---- The tail over runs

  predicate Appends(e: Event) { e.kind == Delta && (e.tailOp.None? || e.tailOp.value.Append?) }

  /** The event is accepted and its text continues the tail. */
  predicate Extends(v: View, e: Event) {
    Accepts(v, e) && e.kind == Delta && e.tailOp.Some? && e.tailOp.value.Append? && Continues(v, e.tailOp.value.previousHash)
  }

  /** The events that extend the tail, in order. */
  function Extending(v: View, es: seq<Event>): (r: seq<Event>)
    ensures forall e :: e in r ==> e.tailOp.Some? && e.tailOp.value.Append?
    decreases |es|
  {
    if es == [] then []
    else (if Extends(v, es[0]) then [es[0]] else []) + Extending(Direct(v, es[0]), es[1..])
  }

  function TailChunks(es: seq<Event>): string
    requires forall e :: e in es ==> e.tailOp.Some? && e.tailOp.value.Append?
  {
    if es == [] then "" else es[0].tailOp.value.content + TailChunks(es[1..])
  }

  lemma AppendStep(v: View, e: Event)
    requires Appends(e)
    ensures var w := Direct(v, e);
            if Extends(v, e) then
              && w.tailContent == v.tailContent + e.tailOp.value.content && w.tailBlock.Some?
              && w.tailBlock.value.content == w.tailContent && w.tailBlock.value.hash == e.tailOp.value.hash
            else SameTail(v, w)
  {
    if Accepts(v, e) { TailOpShows(v, e); }
  }

  /** The texts xs extend the tail from v to w. */
  predicate Extended(v: View, w: View, xs: seq<Event>)
    requires forall e :: e in xs ==> e.tailOp.Some? && e.tailOp.value.Append?
  {
    && w.tailContent == v.tailContent + TailChunks(xs)
    && (xs == [] ==> w.tailBlock == v.tailBlock)
    && (xs != [] ==> w.tailBlock.Some? && w.tailBlock.value.content == w.tailContent
                     && w.tailBlock.value.hash == xs[|xs| - 1].tailOp.value.hash)
  }

  lemma ExtendedCons(v: View, u: View, w: View, e: Event, xs: seq<Event>)
    requires e.tailOp.Some? && e.tailOp.value.Append? && forall e :: e in xs ==> e.tailOp.Some? && e.tailOp.value.Append?
    requires u.tailContent == v.tailContent + e.tailOp.value.content && u.tailBlock.Some?
    requires u.tailBlock.value.content == u.tailContent && u.tailBlock.value.hash == e.tailOp.value.hash
    requires Extended(u, w, xs)
    ensures Extended(v, w, [e] + xs)
  {
    assert ([e] + xs)[1..] == xs;
    assert v.tailContent + e.tailOp.value.content + TailChunks(xs) == v.tailContent + (e.tailOp.value.content + TailChunks(xs));
  }

  /** Over any run of events that clear and replace nothing, the tail is the text before and the texts that extended it,
      in order; its block holds all of that under the last hash. */
  lemma {:induction false} TailIsExtended(v: View, es: seq<Event>)
    requires forall e :: e in es ==> Appends(e)
    ensures Extended(v, DirectAll(v, es), Extending(v, es))
    decreases |es|
  {
    if es == [] {
      assert v.tailContent + TailChunks([]) == v.tailContent;
    } else {
      var u := Direct(v, es[0]);
      assert Appends(es[0]);
      AppendStep(v, es[0]);
      TailIsExtended(u, es[1..]);
      if Extends(v, es[0]) {
        ExtendedCons(v, u, DirectAll(v, es), es[0], Extending(u, es[1..]));
      } else {
        assert Extending(v, es) == Extending(u, es[1..]);
      }
    }
  }

  // ---- What is delivered twice

  /** An accepted event that is delivered again, after whatever else, is refused exactly if it carries a frame or a newer
      stream began; otherwise it has no position to be known by, and is applied again. */
  lemma ReplayRefusedIff(v: View, e: Event, later: seq<Event>)
    requires Tracked(v) && Accepts(v, e)
    ensures var w := DirectAll(Direct(v, e), later);
            && (!Accepts(w, e) <==> e.tailFrame.Some? || (EventStream(e).Some? && w.streamId != EventStream(e)))
            && (!Accepts(w, e) ==> Direct(w, e) == w)
            && (Accepts(w, e) ==> Direct(w, e).content == if e.content.Some? then e.content.value else w.content + e.chunk)
  {
    StepKeeps(v, e);
    NeverFallsBack(Direct(v, e), later);
    if Accepts(DirectAll(Direct(v, e), later), e) { AppliedContent(DirectAll(Direct(v, e), later), e); }
    if e.tailFrame.Some? {
      FramedRefused(v, e);
      FramedReaches(v, e);
      FramedRefused(DirectAll(Direct(v, e), later), e);
    } else {
      FramelessRefused(v, e);
      FramelessRefused(DirectAll(Direct(v, e), later), e);
    }
  }

  lemma {:induction false} DirectConcat(v: View, a: seq<Event>, b: seq<Event>)
    ensures DirectAll(v, a + b) == DirectAll(DirectAll(v, a), b)
    decreases |a|
  {
    if a == [] {
      assert a + b == b;
    } else {
      assert (a + b)[1..] == a[1..] + b;
      DirectConcat(Direct(v, a[0]), a[1..], b);
    }
  }

  /** Exactly once: in any run, whatever else it holds, a second delivery of an event with a frame may be left out. */
  lemma {:induction false} DuplicatesChangeNothing(v: View, a: seq<Event>, e: Event, b: seq<Event>, c: seq<Event>)
    requires Tracked(v) && e.tailFrame.Some?
    ensures DirectAll(v, a + [e] + b + [e] + c) == DirectAll(v, a + [e] + b + c)
  {
    NeverFallsBack(v, a);
    var u := DirectAll(v, a);
    assert DirectAll(u, [e]) == Direct(u, e);
    FramedRefused(u, e);
    if Accepts(u, e) { FramedStep(u, e); }
    StepKeeps(u, e);
    NeverFallsBack(Direct(u, e), b);
    var w := DirectAll(Direct(u, e), b);
    FramedRefused(w, e);
    assert DirectAll(w, [e]) == Direct(w, e) == w;
    DirectConcat(v, a, [e]);
    DirectConcat(v, a + [e], b);
    DirectConcat(v, a + [e] + b, [e]);
    DirectConcat(v, a + [e] + b + [e], c);
    DirectConcat(v, a + [e] + b, c);
  }

  /** The smallest duplicate without a frame: its chunk is appended twice. */
  lemma FramelessReplayDoubles()
    ensures var e := Event(Delta, Some(1), None, "x", None, None, None, None, None, None, false);
            DirectAll(View("", [], "", None, None, None), [e, e]).content == "xx"
  {
    var e := Event(Delta, Some(1), None, "x", None, None, None, None, None, None, false);
    var v := View("", [], "", None, None, None);
    assert DirectAll(v, [e, e]) == DirectAll(Direct(v, e), [e]) == DirectAll(Direct(Direct(v, e), e), []);
  }

  /** An error event throws the pending record away, and the stream position with it. */
  function Forgotten(v: View): View { v.(streamId := None, cursor := None) }

  /** So after an error event the same chunk is appended a second time. */
  lemma ReplayAfterErrorIsApplied(v: View, e: Event)
    requires Tracked(v) && e.tailFrame.Some? && Accepts(v, e) && e.content.None?
    ensures var w := Forgotten(Direct(v, e));
            Accepts(w, e) && Direct(w, e).content == v.content + e.chunk + e.chunk
  {}

  /** Which events are accepted: those that name no stream, or one that a JavaScript number holds exactly, that is their
      frame's and is not older than the current; and whose frame comes after the cursor, unless they open the stream. */
  lemma AcceptedIff(v: View, e: Event)
    ensures Accepts(v, e) <==>
              var sid := if e.streamId.Some? then e.streamId else if e.tailFrame.Some? then Some(e.tailFrame.value.streamId) else None;
              && (sid.Some? ==> 1 <= sid.value < 0x20_0000_0000_0000)
              && (sid.Some? && e.tailFrame.Some? ==> e.tailFrame.value.streamId == sid.value)
              && (sid.Some? && v.streamId.Some? ==> v.streamId.value <= sid.value)
              && (sid.Some? && e.tailFrame.Some? && v.streamId == sid && v.cursor.Some? ==>
                    CursorBefore(v.cursor.value, CursorOf(e.tailFrame.value)))
  {}

  /** A well-formed event of the current stream is refused exactly when it carries a frame whose position is covered. */
  lemma RefusedIffCovered(v: View, e: Event)
    requires Tracked(v) && EventStream(e).Some? && EventStream(e) == v.streamId && !Malformed(e)
    ensures !Accepts(v, e) <==>
              e.tailFrame.Some? && v.cursor.Some? && !CursorBefore(v.cursor.value, CursorOf(e.tailFrame.value))
  {}
}
