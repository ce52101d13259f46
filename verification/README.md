# Verification of the streaming and session cores

A Dafny model of VCPMobile's hard cores, with proofs of what they promise. Run `dafny verify dfyconfig.toml` here.

| module | what it models |
|---|---|
| MarkdownAst, NodeIds, DomTree | the Markdown syntax tree, dotted node ids, DOM trees and their rendering |
| AstDiff, AstPatch | the backend's diff of two syntax trees, what each mutation does to a keyed tree, and the theorem that diff and patch together are re-rendering |
| AstStale | which registry entries survive a run of mutations, and when one of them is left stale |
| DomContent | what a reader meets in a tree, and that a rendered document shows exactly what its syntax tree holds |
| AstExecutor | the executor as a class: live nodes with identities, the id registry, every mutation strategy, frames and snapshots |
| StreamMerge, StreamStore | frames and deltas of one streamed message: coalescing, exactly-once, the pending record, snapshot jobs, consumers, recovery |
| TextFragments | text that fades in: fragments behind text nodes, animations that end in any order |
| RawHtmlFrontier | the frozen frontier of growing raw HTML |
| HtmlRenderer | the static renderer, and its agreement with the streaming one |
| IdOrder | the order of ids in SQLite and in JavaScript, and when they agree |
| HistoryPages, HistoryWindow | keyset pages over a message table, and the bounded window while loads complete in any order |
| SessionProtocol | start, stop, the reconnecting loop and acknowledgements, interleaved in atomic steps |
| ToolGate | replay protection and permits for remote tool requests |
| AvatarCache | the avatar cache with generations, URL ownership and two read slots |
| SyncSession | the synchronisation panel's state machine and its event buffer |
| Scheduler | the drift-free scheduler of streaming tools |
| Mention | the mention scanner |

Code that changes fields in place is a class with methods; a method is proved against functions of the old state,
and lemmas prove what those functions keep over whole runs. The session protocol is a state machine over atomic
steps, because its tasks interleave. Text fragments and their index are values held in the fields of a class, since
the objects of the original are reached through the index only.

## Where the code does less than it seems to promise

- Patching is not re-rendering when a block is replaced by a table over an element that is no table wrapper, when an
  inline container replaces another element in place (marks, links and custom spans with another tag), when a custom
  span is updated with its old class, when display mathematics changes its mode, when a link only changes its
  conversion flag, or for heading levels above six. `AstPatch.FaithfulBlocks` lists the cases exactly.
- A custom span whose children give way to a text keeps their ids registered: the tree is right, and the registry holds
  stale entries (`AstStale.InexactLeavesEntry`, in the live executor `AstExecutor.Executor.StreamFrame`).
- An error event deletes the pending record and with it the cursor: the same chunk, delivered again, is appended again
  (`StreamMerge.ReplayAfterErrorIsApplied`).
- The comment at `src/core/stores/chatStreamStore.ts:913` asks for duplicates to be dropped as a whole. An event without a
  tail frame, as the backend sends it while no mutation is pending (`src-tauri/src/vcp_modules/chat/aurora_pipeline.rs:488-495`),
  has no position in its stream: delivered twice, its chunk is appended twice (`StreamMerge.FramelessReplayDoubles`, and
  exactly when in `StreamMerge.ReplayRefusedIff`).
- A delta reads the drawn tail block while a clear is pending (`src/core/stores/chatStreamStore.ts:1024`):
  `StreamStore.StaleAppendGoesWrong` says when that changes the result.
- A snapshot reason raised by mismatching stable blocks is withdrawn by the next tail frame that brings a snapshot
  (line 966), although the blocks are still behind: `StreamStore.MismatchIsForgotten`, and exactly when in
  `StreamStore.WithdrawnIff`. The raised reason also starts a snapshot request at the end of the handling (lines
  1069-1078), in the model the separate steps RequestSnapshot and SnapshotReply; so the blocks stay behind only where that
  request is not made because the page is hidden, or ends without effect, as when the rebuilding fails.
- The late failure of an abandoned synchronisation start makes the present attempt drop early events
  (`SyncSession.StaleFailureLosesEvents`, over whole runs `SyncSession.LateFailureLosesAll`); and a finished session
  becomes an error when a second, malformed completion event comes (`SyncSession.SuccessIsLeftOnlyByCompletion`).
- The comment at `src/core/stores/chatHistoryStore.ts:50` says the id order agrees with SQLite's. JavaScript compares
  UTF-16 units and SQLite bytes: `IdOrder.OrdersAgree` says exactly when they agree, and
  `HistoryPages.CrossingRowsSwap` shows two rows that paging puts in the wrong order. Two rows of one time whose ids the
  orders tell apart are said to cross below; `HistoryPages.FirstPage`, `HistoryPages.OlderPageJoins` and the `Shows`
  lemmas of HistoryWindow say for every table exactly which crossing rows make a window wrong.
- With a limit above 500 a cut window can claim to start at the oldest row, or an anchor can be missing from the rows
  loaded around it: `HistoryWindow.LatestShows`, `HistoryWindow.AroundShows` and `HistoryWindow.AroundShown` say exactly
  when. Every call site asks for at most 21 rows.
- After a load that finds its topic missing, the loading flag stays up and no older rows can be asked for until a reset
  or until a new load ends (`HistoryWindow.History.LoadReply`, `HistoryWindow.History.LoadMore`).
- The mention scan takes positions of the text for positions of its lower case. `Mention.FollowsMeans` says what it tests
  then: it can miss a mention (`Mention.FoundIffNothingAdded`, `Mention.DottedCapitalHidesMention`), and it can find one
  where nobody is mentioned, so that a member is listed who was not meant (`Mention.DottedCapitalsMakeMention`).
- The branch of `start` that waits for an old session cannot be reached (`SessionProtocol.StartIsUndisturbed`).
- The static renderer does not escape wrapper classes and custom kinds (`HtmlRenderer.RenderersAgree`), so its text
  differs for them; and it converts an empty URL that the streaming renderer leaves alone
  (`HtmlRenderer.EmptyUrlDiffers`, `HtmlRenderer.EmptyLinkDiffers`). The parser flags only URLs that begin with
  `vcp-asset:` or `/` (`src-tauri/src/vcp_modules/chat/pre_renderer/markdown_parser.rs:979-1008`), which are not empty.

## Model

| member | source | states |
|---|---|---|
| NodeIds.IdStringInjective | src/core/utils/astExecutor.ts:248-344 | Dotted node ids as strings are unambiguous: equal strings only for equal paths. |
| NodeIds.PrefixTestIsSubtree | src/core/utils/astExecutor.ts:171-177 | The string test `startsWith(prefix + ".")` selects exactly the strict subtree of the prefix, so purging `t1` never touches `t10`. |
| NodeIds.IdsAreSpelled | src/core/utils/astExecutor.ts:248-344 | How ids are spelled, on which backend and frontend agree: the letters of each kind of node, its number, and dots between. |
| AstDiff.BlockStaysIff | src-tauri/src/vcp_modules/chat/ast_diff.rs:198-399 | Which block nodes survive an update: a block is replaced exactly if it is not a paragraph, heading, quote or list of one order before and after (and changed at all, or is a rule); otherwise its node is addressed only to change a heading's level. |
| AstDiff.InlineStaysIff | src-tauri/src/vcp_modules/chat/ast_diff.rs:563-734 | The same for inline nodes: texts, marks of one sort, links with one address and title, and custom spans of one kind and text with children stay; a text that does not grow is set. |
| AstDiff.GrowingTextIsAppended | src-tauri/src/vcp_modules/chat/ast_diff.rs:718-734 | A text that grows is sent as exactly what it grew by. |
| AstPatch.RunConcat | src/core/utils/astExecutor.ts:1160-1174 | Applying two mutation lists in turn is applying their concatenation. |
| AstPatch.InlineCorrect | src-tauri/src/vcp_modules/chat/ast_diff.rs:563-734 | For every pair of inline nodes, patching the rendered old one with its diff runs, and is the rendered new one exactly if the pair is faithful; nothing outside the node's subtree changes. |
| AstPatch.InlinesCorrect | src-tauri/src/vcp_modules/chat/ast_diff.rs:524-562 | The same for lists of inline nodes, with additions and removals at the end. |
| AstPatch.BlockCorrect | src-tauri/src/vcp_modules/chat/ast_diff.rs:198-399 | The same for every pair of blocks: descent, heading level, lists item by item, replacement of the rest. |
| AstPatch.BlocksCorrect | src-tauri/src/vcp_modules/chat/ast_diff.rs:154-197 | The same for lists of blocks at any depth. |
| AstPatch.ItemsCorrect | src-tauri/src/vcp_modules/chat/ast_diff.rs:279-347 | The same for list items. |
| AstPatch.DiffThenPatchIsRender | src/core/utils/astExecutor.ts:638-1131 | The backend's diff applied by the executor's rules never fails, and gives the rendered new document if and only if no in-place update on the way loses something; the lossy updates are enumerated by FaithfulBlocks. |
| AstPatch.ParagraphToTableIsLossy | src/core/utils/astExecutor.ts:918-963 | A paragraph that becomes a table is morphed into an element of another tag: the result is not the rendering, and its id names no node of the tree. |
| AstStale.InexactLeavesEntry | src/core/utils/astExecutor.ts:1006-1016 | Where patching is re-rendering but an in-place update drops registered nodes, some node of the old document is gone from the new one and no mutation of the frame deletes its id. |
| AstExecutor.KeyTest | src/core/utils/astExecutor.ts:171-177 | The key test of the purge loop is membership in the subtree. |
| AstExecutor.AlterMirrors | src/core/utils/astExecutor.ts:638-1131 | If one node's change mirrors the mutation there, the live tree and the registry mirror the mutated tree everywhere. |
| AstExecutor.AlterUnique | src/core/utils/astExecutor.ts:638-1131 | Node identities stay distinct under every change. |
| AstExecutor.Executor.Mount | src/core/utils/astExecutor.ts:248-525 | Creating DOM registers exactly the ids of the new tree, for new nodes. |
| AstExecutor.Executor.CleanupSubtree | src/core/utils/astExecutor.ts:171-177 | The loop over the registry removes exactly the ids of the subtree. |
| AstExecutor.Executor.ExecuteMutation | src/core/utils/astExecutor.ts:638-1131 | A mutation fails exactly if its target is not registered or is a node of the wrong kind, and then changes nothing; otherwise the tree mirrors the mutated tree, the ids registered outside table cells are exactly those the mutation leaves or brings, and no stale id is left if the mutation is a clean one. |
| AstExecutor.Executor.ApplyFrame | src/core/utils/astExecutor.ts:1136-1195 | Mutations are executed in order up to the first that fails: if the first n fit and the target of the next is not registered by then or is of the wrong kind, exactly those n are applied, the live tree mirrors their combined effect, and exactly the ids they leave are registered. |
| AstExecutor.Executor.RebuildSnapshot | src/core/utils/astExecutor.ts:530-542 | The sandbox mirrors the rendered document, and the registry names its nodes and no others; a reader meets every text, heading level, link, picture, title, formula and class name of the document, in order. |
| AstExecutor.Executor.StreamFrame | src/core/utils/astExecutor.ts:1136-1195 | End to end: the diff of two documents applied to the live tree of the first always succeeds and leaves the tree and the registered ids that its mutations make; identity by identity that is the registered rendering of the second when the diff is faithful, and then a reader meets what the second document holds, and no stale registry entry is left if and only if it is exact. |
| DomContent.DocumentShows | src/core/utils/astExecutor.ts:248-525 | A rendered document shows what its syntax tree holds, each once and in order: every text (for a custom span without children its value), heading level, link, picture, title (empty if there is none), formula, and the wrapper and custom class names. |
| StreamMerge.MergeDenotes | src/core/stores/chatStreamStore.ts:143-257 | Coalescing frames preserves meaning: a merged frame does to any tree what the pending frame and then the incoming one do; and a reset keeps its snapshot. |
| StreamMerge.ContinuesIffNext | src/core/stores/chatStreamStore.ts:158-185 | A frame that the cursor does not cover continues the pending one exactly if it is the very next of its stream and epoch, or the first where no position is known, and neither it nor the caller asks for a reset. |
| StreamMerge.MergeKeeps | src/core/stores/chatStreamStore.ts:143-257 | What a merge keeps, case by case: nothing of a covered frame; the frame alone on the newest snapshot where it does not continue; otherwise the mutations of both in order, at most 512, with the pending reset and the newest snapshot. |
| StreamMerge.WhyAsked | src/core/stores/chatStreamStore.ts:156-220 | What each reason for asking a snapshot says about frame, cursor and pending record. |
| StreamMerge.FramedStep | src/core/stores/chatStreamStore.ts:158-175 | An accepted frame moves the cursor to itself, strictly forward. |
| StreamMerge.AcceptedCursorsIncrease | src/core/stores/chatStreamStore.ts:158-175 | Over any sequence of events, whatever comes without a frame in between, the cursors of the accepted frames strictly increase in the order (stream, epoch, frame). |
| StreamMerge.ContentIsAcceptedChunks | src/core/stores/chatStreamStore.ts:912-976 | The shown content is what the accepted events write, each once and in order: the starting content and their chunks, where no event replaces the content as a whole. |
| StreamMerge.EventShows | src/core/stores/chatStreamStore.ts:970-1059 | What one accepted event shows, case by case and without the functions that compute it: a snapshot's blocks and tail are those it brings, a matching stable append keeps the old blocks and puts its own behind them, and a mismatching one changes nothing. |
| StreamMerge.TailOpShows | src/core/stores/chatStreamStore.ts:1003-1059 | The tail after each operation: a clear leaves none, a replacement its own text, an append with a matching base the old text and then its own; the block has that text, the hash and mode of the operation, and the kind that its tail kind names. |
| StreamMerge.EventPlaces | src/core/stores/chatStreamStore.ts:912-968 | The position after an accepted event: in the stream it names, at its frame if it brings one; without one the position stays unless the stream changes. |
| StreamMerge.AcceptedIff | src/core/stores/chatStreamStore.ts:912-968 | Which events are accepted, in terms of the event alone: those that name no stream, or a positive safe integer that is their frame's and not older than the current, and whose frame comes after the cursor unless they open the stream. |
| StreamMerge.TailIsExtended | src/core/stores/chatStreamStore.ts:1035-1059 | Over any run of events that clear and replace nothing, the tail reads the text before and then, in order, the texts of the accepted appends that match their base; its block holds all of that under the last hash. |
| StreamMerge.ReplayRefusedIff | src/core/stores/chatStreamStore.ts:912-968 | An accepted event delivered again, after whatever else, is refused if and only if it carries a frame or a newer stream began; an event without a frame is applied again otherwise. |
| StreamMerge.DuplicatesChangeNothing | src/core/stores/chatStreamStore.ts:912-968 | Exactly once: in any run a second delivery of an event with a frame may be left out, wherever it falls and whether the first was accepted or not; view and position end the same. |
| StreamMerge.FramelessReplayDoubles | src/core/stores/chatStreamStore.ts:912-976 | The smallest duplicate without a frame: its chunk is appended twice. |
| StreamMerge.RefusedIffCovered | src/core/stores/chatStreamStore.ts:158-175 | A well-formed event of the current stream is refused exactly if it carries a frame, the position is known, and it is not before that frame. |
| StreamMerge.ReplayAfterErrorIsApplied | src/core/stores/chatStreamStore.ts:1080-1086 | Exactly-once is false across an error event: it deletes the pending record with the cursor, so a replayed event is accepted and its chunk appended again. |
| StreamStore.SeenAfter | src/core/stores/chatStreamStore.ts:912-1059 | What is seen after an event: content, blocks, stream and cursor are those of direct application whatever is pending; the tail is, if and only if the event is not a delta that misreads a clear that was not drawn. |
| StreamStore.DrawingIsInvisible | src/core/stores/chatStreamStore.ts:351-383 | Over any run within one stream, where the animation-frame flushes fall makes no difference to content, blocks and cursor, and none to the tail if no delta misreads a clear: it is the direct application of the events. |
| StreamStore.NextIsSound | src/core/stores/chatStreamStore.ts:939-968 | After every step, unless a snapshot is called for, the pending frame on top of the drawn tree is what is known of the tail. |
| StreamStore.TruthAfter | src/core/stores/chatStreamStore.ts:927-968 | What is known of the tail after an accepted event: its frame applied directly, to the drawn tree if the event opens a stream; unchanged without a frame. |
| StreamStore.TailIsDirect | src/core/stores/chatStreamStore.ts:143-257 | Coalescing is invisible: over any run of events within a stream and any placement of flushes, as long as no snapshot is called for, the pending frame on top of the drawn tree is every accepted frame applied one by one. |
| StreamStore.CalledForIff | src/core/stores/chatStreamStore.ts:952-1052 | When exactly no snapshot is called for after an event, in terms of the reason before, the frame's place after the cursor, the snapshot it brings, the 512 mutations and the event's own bases. |
| StreamStore.WithdrawnIff | src/core/stores/chatStreamStore.ts:952-967 | A reason raised earlier is withdrawn exactly by an event that brings a frame with a snapshot and whose own bases match, whatever the reason was. |
| StreamStore.MismatchIsForgotten | src/core/stores/chatStreamStore.ts:961-999 | Two events after which no snapshot is called for, although the stable block that the first one missed is still missing. |
| StreamStore.StaleNeedsUnflushedClear | src/core/stores/chatStreamStore.ts:1024-1059 | A delta can be misapplied only if it appends, or inherits a theme, after a clear that was not yet drawn; never right after a draw. |
| StreamStore.StaleAppendGoesWrong | src/core/stores/chatStreamStore.ts:1024-1059 | When exactly an append after an unflushed clear is misapplied, because line 1024 reads the drawn block behind the pending null, and what it does then. |
| StreamStore.MessageStream.Flush | src/core/stores/chatStreamStore.ts:351-383 | Writing the pending record to the message is the step Draw: nothing a reader sees changes, the pending frame is applied to the drawn tree, and only stream, cursor and reason stay pending; the browser is asked to draw whenever anything else is pending. |
| StreamStore.MessageStream.ClearPending | src/core/stores/chatStreamStore.ts:321-346 | The record is dropped with the stream position and the reason, written first if asked to. |
| StreamStore.MessageStream.Claim | src/core/stores/chatStreamStore.ts:912-937 | Malformed events and events of an older stream are refused without effect; a newer stream discards what is pending and starts from the drawn message with no cursor. Events that the cursor covers are refused with their frame, by MergeFrame. |
| StreamStore.MessageStream.MergeFrame | src/core/stores/chatStreamStore.ts:939-968 | A frame is dropped exactly if the cursor covers it, and then nothing changes; otherwise cursor, reason and what is known of the tail are those after the frame. |
| StreamStore.MessageStream.ApplyTail | src/core/stores/chatStreamStore.ts:1003-1059 | The tail text operation is applied on top of the pending block, or of the drawn one where none is pending; a base mismatch only raises a reason. |
| StreamStore.MessageStream.ApplyBody | src/core/stores/chatStreamStore.ts:970-1059 | Content, blocks and tail of an event and the reasons it raises, without any assumption on what is pending. |
| StreamStore.MessageStream.Receive | src/core/stores/chatStreamStore.ts:892-1079 | Up to the snapshot request at its end, the handling of an event is the step Incoming of the stream's state, on all states; SeenAfter, TruthAfter and CalledForIff say what that means for view, tail and reason. |
| StreamStore.MessageStream.Run | src/core/stores/chatStreamStore.ts:351-1079 | Any run of events and draws ends in the state computed step by step, to which DrawingIsInvisible and TailIsDirect apply. |
| StreamStore.MessageStream.WantedIs | src/core/stores/chatStreamStore.ts:412-420 | What a snapshot is rebuilt from: the content that is seen, for the present consumer, at the known position or else that of the frame last drawn; and when none can be asked for. |
| StreamStore.MessageStream.RequestSnapshot | src/core/stores/chatStreamStore.ts:406-434 | At most one snapshot job is in flight; it captures the content, revision and cursor of now. |
| StreamStore.MessageStream.SnapshotReply | src/core/stores/chatStreamStore.ts:435-504 | A reply commits exactly if content, revision and cursor are still those captured, and then content, blocks, tail with its mode, and tree are what is rebuilt from the content seen now, under a reset frame at that cursor; else it is asked for again and nothing changes. |
| StreamStore.MessageStream.Deliver | src/core/stores/chatStreamStore.ts:771-786 | Tombstone and consumer revision come first: a refused event changes nothing at all; a newer consumer finds nothing pending and takes the recovery under way from its owner; an error or end writes what is pending and then what it brings, blocks it brings leaving no tail. |
| StreamStore.MessageStream.Compiled | src/core/stores/chatStreamStore.ts:1114-1153 | Blocks that an end did not bring and that are compiled later are written, and the tail cleared, exactly if the consumer is still the one that ended. |
| StreamStore.MessageStream.ForgetDeleted | src/core/stores/chatStreamStore.ts:729-741 | After a deletion nothing is pending, what was pending is not written, no snapshot can be started, and no recovery may answer. |
| StreamStore.MessageStream.BeginRecovery | src/core/stores/chatStreamStore.ts:1360-1365 | One recovery at a time, with an owner never used before. |
| StreamStore.MessageStream.RecoveryReply | src/core/stores/chatStreamStore.ts:1416-1486 | A recovery's answer takes effect if and only if no newer consumer, end, error or deletion came since it was issued: recovered content takes the place of what is pending, none leaves everything as it is, and a rejection writes what is pending. |
| TextFragments.FirstOutKeeps | src/core/utils/streamTextFade.ts:84-93 | Writing the first fragment to its text node keeps, for every target, text node and fragments spelling what was sent, side by side in the document. |
| TextFragments.FinishedKeeps | src/core/utils/streamTextFade.ts:84-93 | An animation that ends, in whatever order, writes exactly the finished fragments in front; everything sent is still spelled. |
| TextFragments.EndsAsSent | src/core/utils/streamTextFade.ts:84-93 | However animations end, a target's text node reads all it was sent exactly when the animation of every fragment has ended; until then what it reads and the fragments from the first still running spell it. |
| TextFragments.AllOutSettles | src/core/utils/streamTextFade.ts:95-108 | Settling a target writes, or gives up, all its fragments and releases it; other targets are untouched. |
| TextFragments.AppendedGrown | src/core/utils/streamTextFade.ts:110-210 | Whatever way an appended chunk takes (revealing block, detached node, coalescing, no motion, new span), text node and fragments spell exactly one chunk more and nothing else changes. |
| TextFragments.InsertedKeeps | src/core/utils/astExecutor.ts:784-845 | A new text node keeps every target spelled and in place. |
| TextFragments.SentFurther | src/core/utils/astExecutor.ts:654-684 | Executing one more mutation sends each text node what the mutation list says for its id. |
| TextFragments.ToldFurther | src/core/utils/astExecutor.ts:654-684 | And each name stands for the text node last made for it, with what it was sent since. |
| TextFragments.StreamText.Settle | src/core/utils/streamTextFade.ts:95-108 | The settle loop is that settling. |
| TextFragments.StreamText.Drain | src/core/utils/streamTextFade.ts:84-93 | The drain loop writes the finished fragments in front, and no others. |
| TextFragments.StreamText.Finish | src/core/utils/streamTextFade.ts:195-209 | The finish callback marks its fragment and drains; a fragment no longer held is ignored. |
| TextFragments.StreamText.Append | src/core/utils/streamTextFade.ts:110-210 | Appending a chunk, with all its branches, is the function whose effect AppendedGrown states. |
| TextFragments.StreamText.Empty | src/core/utils/streamTextFade.ts:218-228 | After a flush each text node of the message alone reads all it was sent; a discard leaves the text nodes as they are; no index entry of the message is left. |
| TextFragments.StreamText.ApplyFrame | src/core/utils/astExecutor.ts:1146-1174 | In every frame exactly the mutations before the first that names no text node are executed, and each text node is sent exactly what they say; unless the frame is a smooth one of appends only, nothing of the message is pending while its mutations run or afterwards. |
| TextFragments.StreamText.Play | src/core/utils/streamTextFade.ts:84-228 | Over any run of frames, animations that end and flushes, in any order and of any messages, no text is lost, doubled or reordered: each text node was sent what the executed mutations say, and reads it after a last flush. |
| ToolGate.BigEndianInjective | src-tauri/src/distributed/client.rs:193-206 | The eight length bytes determine the length. |
| ToolGate.DigestLayout | src-tauri/src/distributed/client.rs:184-206 | Where each part stands in the bytes hashed: lengths as eight bytes, the highest first, in front of name, arguments and context, and a mark whether there is a context. |
| ToolGate.DigestInputInjective | src-tauri/src/distributed/client.rs:184-206 | The bytes hashed for a request determine tool name, arguments and optional context. |
| ToolGate.ClaimKeeps | src-tauri/src/distributed/client.rs:136-181 | A granted claim keeps the queue free of duplicates, equal to the remembered ids, at most 1024 long, and at most eight requests in flight. |
| ToolGate.ToolRequestGate.TryClaim | src-tauri/src/distributed/client.rs:136-181 | A request is claimed exactly if it is within the limits, new or a repetition that VCPMobileCLI allows, and fewer than eight are in flight; then it takes a permit, and a new id is remembered with its digest behind the others, at most the oldest going. A refusal changes nothing. |
| ToolGate.RefusedBecause | src-tauri/src/distributed/client.rs:136-168 | Which check a refusal names: the first that fails, each in terms of the request and the gate. |
| ToolGate.StaysRemembered | src-tauri/src/distributed/client.rs:170-179 | An id stays remembered, with its digest, until 1024 later ids are recorded. |
| ToolGate.AdmittedAgain | src-tauri/src/distributed/client.rs:156-181 | Over any run, an id recorded once and admitted again means that 1024 other ids were recorded in between, or that the very same request came for VCPMobileCLI. |
| ToolGate.OrdinaryAdmissionRecords | src-tauri/src/distributed/client.rs:156-163 | An admitted request for any other tool was not remembered, so the statement above covers every such admission. |
| ToolGate.RunStaysValid | src-tauri/src/distributed/client.rs:136-181 | The queue and permit invariants hold in every run. |
| SessionProtocol.RunIsSafe | src-tauri/src/distributed/client.rs:390-718 | The invariant of the protocol (one loop, a status consistent with it, and who owns it at each point of start and stop) holds after every interleaving of start, stop, loop steps and acknowledgements. |
| SessionProtocol.OneLoopOneStatus | src-tauri/src/distributed/client.rs:571-718 | At most one connection loop is alive; connected is the state Connected, and then the live loop owns the status and is in touch with the server; registered tools imply connected. |
| SessionProtocol.StepLinks | src-tauri/src/distributed/client.rs:1322-1338 | A step connects exactly if it is an acknowledgement by the loop that owns the status, in session: the status is then Connected with that server and that client, and no error. |
| SessionProtocol.StatusTellsLast | src-tauri/src/distributed/client.rs:571-718 | Over any run, while connected, server and client are those of the last acknowledgement, the registered tools are the number published last since then, and the last error is the last one told. |
| SessionProtocol.StaleAckIgnored | src-tauri/src/distributed/client.rs:1322-1338 | An acknowledgement of any other loop changes nothing. |
| SessionProtocol.LoopGoes | src-tauri/src/distributed/client.rs:571-718 | Where a loop goes at each of its steps, and that no other loop and nothing of the lifecycle moves with it: it pauses after every end but one that asks for an immediate return, and leaves only when cancelled. |
| SessionProtocol.LoopTells | src-tauri/src/distributed/client.rs:571-718 | Which state the owning loop tells at each step: connecting after a failed dial or an ended session unless it is being stopped, disconnected when it leaves; no other loop tells anything. |
| SessionProtocol.LifecycleTells | src-tauri/src/distributed/client.rs:390-541 | What start and stop tell at once, in a new session, and exactly when they do nothing. |
| SessionProtocol.StopLeavesNothing | src-tauri/src/distributed/client.rs:498-541 | When stop finishes, no loop is alive and the status is Disconnected with no server, client or tools. |
| SessionProtocol.StoppingIsUndisturbed | src-tauri/src/distributed/client.rs:1322-1338 | From the moment stop has taken the generation, no loop step writes the status; late acknowledgements and registrations are ignored. |
| SessionProtocol.StartIsUndisturbed | src-tauri/src/distributed/client.rs:434-487 | Under the lifecycle lock start never finds an old session to wait for, and neither re-check can fail. |
| SessionProtocol.IdsOnlyGrow | src-tauri/src/distributed/client.rs:431 | Session ids only grow, as long as the steps fit into 64 bits; all other statements hold across the wrap-around. |
| SessionProtocol.CancelledLoopCanLeave | src-tauri/src/distributed/client.rs:587-718 | A cancelled loop, wherever it stands, can leave within six steps of its own, so what stop awaits can come. |
| IdOrder.IdsOrdered | src/core/stores/chatHistoryStore.ts:48-52 | Ordered by UTF-8 bytes or by UTF-16 units, ids are totally ordered: irreflexive, transitive, any two different ids comparable. |
| IdOrder.OrdersAgree | src/core/stores/chatHistoryStore.ts:48-52 | JavaScript and SQLite order two ids alike if and only if their first difference is not a character above U+FFFF against one from U+E000 to U+FFFF. |
| HistoryPages.MergeIsSorted | src/core/stores/chatHistoryStore.ts:54-66 | Merging new rows by id and sorting gives all of them sorted by time and UTF-16 id, trimmed at the right end. |
| HistoryPages.MergeTakesLast | src/core/stores/chatHistoryStore.ts:54-66 | Merging any rows, repeated ids included: exactly the last row of each id remains, in the window's order, trimmed to the first 500 for an older page and to the last 500 otherwise. |
| HistoryPages.AgreeingIsSorted | src/core/stores/chatHistoryStore.ts:48-52 | A table in SQLite's order is in the window's order exactly if no two of its rows of one time have ids that the two orders tell apart. |
| HistoryPages.MergeSlices | src/core/stores/chatHistoryStore.ts:54-66 | Rows merged with those that follow them in the table: the first 500 of all come out in their order if and only if no row of one time crosses with one of these before it. |
| HistoryPages.SuffixSorted | src/core/stores/chatHistoryStore.ts:54-66 | Sorting a table in the window's order leaves its rows from the k-th on where they are, if and only if none of them crosses with a row before it. |
| HistoryPages.PrefixSorted | src/core/stores/chatHistoryStore.ts:54-66 | It leaves the first n rows where they are, if and only if none of them crosses with a row after it. |
| HistoryPages.FirstPage | src/core/stores/chatHistoryStore.ts:54-66 | A first page of any length is shown as its newest 500 rows in the table's order, if and only if none of these crosses with a row of the page before it. |
| HistoryPages.CrossingRowsSwap | src/core/stores/chatHistoryStore.ts:48-52 | Two rows of one time with the ids U+E000 and U+10000 are shown in reverse, and the page before the window is a row that is already shown. |
| HistoryPages.CursorSplits | src-tauri/src/vcp_modules/chat/message_service.rs:72-91 | The keyset conditions split a sorted table exactly at the cursor row. |
| HistoryPages.OlderPageJoins | src/core/stores/chatHistoryStore.ts:54-66 | An older page is the rows before the window, without repetition; joined, the window is the first 500 rows of both without a gap, if and only if none of these crosses with a row after it. |
| HistoryPages.AroundIsSlice | src-tauri/src/vcp_modules/chat/message_service.rs:368-470 | The rows around an anchor are the contiguous slice of the table around it, short only where the table ends. |
| HistoryWindow.LatestShows | src/core/stores/chatHistoryStore.ts:287-308 | A latest page of any limit shows the end of the table, if and only if no row shown crosses with one of the page before it; the flag that more rows exist is then right if and only if it is not the case that a table of more than 500 rows is asked for with a larger limit. |
| HistoryWindow.OlderShows | src/core/stores/chatHistoryStore.ts:291-308 | After an older page of any limit the window is a contiguous slice of at most 500 rows with right flags, if and only if no row that stays crosses with a later one. |
| HistoryWindow.AroundShows | src/core/stores/chatHistoryStore.ts:428-468 | Around an anchor the window is the slice of the newest 500 rows loaded, if and only if none of these crosses with a row before it; the flags are then right if and only if no rows were cut or the table goes on before the anchor. |
| HistoryWindow.AroundShown | src/core/stores/chatHistoryStore.ts:428-468 | On a table without crossing rows the anchor is shown if and only if at most 500 of the rows loaded begin with it. |
| HistoryWindow.ShownIsTable | src/core/stores/chatHistoryStore.ts:46-66 | What is shown is strictly sorted, free of duplicate ids and at most 500 long; with both flags down it is the whole table. |
| HistoryWindow.CurrentMeans | src/core/stores/chatHistoryStore.ts:277-283 | The three checks before a commit hold exactly if no newer load was issued and no other conversation selected since. |
| HistoryWindow.History.SetConversation | src/core/stores/chatSessionStore.ts:40-67 | The epoch grows by one exactly when the identity changes. |
| HistoryWindow.History.StartLoad | src/core/stores/chatHistoryStore.ts:226-252 | A load is issued for the current conversation only, and makes every earlier one obsolete. |
| HistoryWindow.History.LoadMore | src/core/stores/chatHistoryStore.ts:361-378 | Ten older rows are asked for only if the window is current, more history is expected and nothing is loading. |
| HistoryWindow.History.LoadReply | src/core/stores/chatHistoryStore.ts:254-337 | A load commits if and only if it came, was the last one issued with no reset since, and no conversation was selected since, be it A to B and back to A. A latest page is the last min(limit, 500) rows, and more are expected exactly if as many as asked for came; on a table without crossing rows an older page moves the start back by the limit and keeps 500 rows, with both flags stated exactly, and strictly decreases the rows before the window and the flag taken together. The topic is closed exactly if it is missing for the load that is current, and loading ends exactly if that load leaves its conversation open. |
| HistoryWindow.History.Reset | src/core/stores/chatHistoryStore.ts:339-350 | A reset empties the window and makes every load in flight obsolete. |
| HistoryWindow.History.AroundReply | src/core/stores/chatHistoryStore.ts:394-447 | Rows around an anchor go on only if the anchor is the last one asked for and the epoch did not change. |
| HistoryWindow.History.CommitAround | src/core/stores/chatHistoryStore.ts:448-471 | The rows are shown exactly if the anchor is still the last and its conversation is open; loads in flight become obsolete. The rows are the newest 500 from as many before the anchor as asked for to as many behind it; either flag is up exactly if as many lie there; the flags are vouched for exactly if no rows were cut or enough lie before the anchor. |
| AvatarCache.NewestIsNotOldest | src/core/stores/avatar.ts:195-221 | The entry just inserted is never the one evicted. |
| AvatarCache.WithoutUrls | src/core/stores/avatar.ts:174-181 | Revoking an entry revokes its URL and no other live one. |
| AvatarCache.PlacedUrls | src/core/stores/avatar.ts:211-221 | Inserting adds the new URL and takes away the replaced one. |
| AvatarCache.ReleasedKeeps | src/core/stores/avatar.ts:161-168 | Releasing a slot hands it to the first waiter or frees it; active stays the number of holders, at most two, and waiting implies both are taken. |
| AvatarCache.AvatarStore.Oldest | src/core/stores/avatar.ts:195-209 | The scan finds the least recently used entry. |
| AvatarCache.AvatarStore.SetCached | src/core/stores/avatar.ts:195-221 | The new entry is cached; beyond fifty exactly the least recently used other entry goes; live URLs stay exactly the cached ones. |
| AvatarCache.AvatarStore.GetCached | src/core/stores/avatar.ts:223-240 | The metadata mismatch branch is dead; a hit is a live URL, is new enough, and becomes the most recently used. |
| AvatarCache.AvatarStore.GetUrl | src/core/stores/avatar.ts:286-310 | A cached URL, the read already pending, or one new read in the key's present generation. |
| AvatarCache.AvatarStore.Resume | src/core/stores/avatar.ts:302-308 | A read that got its slot goes on exactly if its generation is still the present one. |
| AvatarCache.AvatarStore.Reply | src/core/stores/avatar.ts:310-375 | An image is cached if and only if no newer generation began since the read was asked for; an answer of an older generation changes nothing; the slot is handed on in any case. What becomes of every key is stated, the one evicted among them. |
| AvatarCache.AvatarStore.Finish | src/core/stores/avatar.ts:161-168 | Slots are given in the order in which they were asked for, with no overtaking at hand-off. |
| AvatarCache.AvatarStore.Refresh | src/core/stores/avatar.ts:383-392 | The old avatar is gone at once, the new hash known, and a read in a new generation awaited. |
| AvatarCache.AvatarStore.TakeRow | src/core/stores/avatar.ts:407-439 | A metadata row of a key that did not change since the load began becomes the known metadata, unless newer metadata is known; the cached avatar of another hash goes, with the reads under way; every other key stays as it is. |
| AvatarCache.AvatarStore.MetadataReply | src/core/stores/avatar.ts:398-460 | Only the last load counts; afterwards every key is in the state that the rows and the snapshot of generations say, key by key, and caches and metadata agree. |
| AvatarCache.ChangedIsKept | src/core/stores/avatar.ts:407-455 | A key changed since the load began keeps its avatar, metadata, generation and pending read. |
| AvatarCache.AgreedIsKept | src/core/stores/avatar.ts:407-455 | A listed key with no read under way whose rows carry the known and cached hash keeps its avatar and its generation. |
| AvatarCache.ListedIsKnown | src/core/stores/avatar.ts:407-439 | A listed key has metadata afterwards: those of a row, or newer ones. |
| AvatarCache.UnlistedIsGone | src/core/stores/avatar.ts:447-455 | An untouched key that is not listed is gone from cache, metadata and pending reads. |
| AvatarCache.SurvivorAgrees | src/core/stores/avatar.ts:407-455 | An avatar that is cached afterwards is the one cached before, and of a changed key or agreeing with the metadata. |
| SyncSession.RunKeeps | src/core/stores/syncSession.ts:786-953 | Over any events: successful and failed add up to at most total, at most failed ids are named, and the panel can be dismissed only if it is neither connecting nor connected. |
| SyncSession.ErrorIsAbsorbing | src/core/stores/syncSession.ts:804-953 | No event leads out of the error state. |
| SyncSession.SuccessIsLeftOnlyByCompletion | src/core/stores/syncSession.ts:898-953 | Success is left only by a further completion event, exactly if that event is invalid. |
| SyncSession.SuccessIsEarned | src/core/stores/syncSession.ts:898-953 | Only a completion event with a valid, matching summary makes a session a success; then no topic failed. |
| SyncSession.BufferingIsKnowing | src/core/stores/syncSession.ts:955-973 | Buffering events until the session number is known ends where knowing it from the start and seeing only the last 32 events would; with at most 32 events nothing is lost. |
| SyncSession.StaleFailureLosesEvents | src/core/stores/syncSession.ts:578-587 | The late failure of an abandoned start empties the present attempt's buffer and stops its buffering. |
| SyncSession.LateFailureLosesAll | src/core/stores/syncSession.ts:561-587 | Over any run before the number is known, which events are lost: without a late failure all but the last 32, with one, wherever it falls, all of them. |
| SyncSession.SyncPanel.Receive | src/core/stores/syncSession.ts:955-973 | An arriving event is applied, buffered behind the last 31 or ignored by its session's number. What an applied one shows is stated event by event (EventShows): error and its topics, connection, phase and counts, live line, completion in order or not, and each log line. |
| SyncSession.AppliedShows | src/core/stores/syncSession.ts:786-953 | Each event shows what it should, whatever was shown before: which error, which counts, which lines, and nothing else changes. |
| SyncSession.SyncPanel.Begin | src/core/stores/syncSession.ts:474-493 | The panel is locked and connecting before the first wait, under a new attempt; only an idle panel begins. |
| SyncSession.SyncPanel.Started | src/core/stores/syncSession.ts:561-588 | Learning the session number replays the buffered events of that session in order; an obsolete attempt changes nothing. |
| SyncSession.SyncPanel.Retry | src/core/stores/syncSession.ts:591-608 | A retry starts exactly for a finished session whose error allows it. |
| SyncSession.SyncPanel.RetryStopped | src/core/stores/syncSession.ts:609-624 | After the old session has stopped, the summary and the error are forgotten and a new attempt connects; the retry stays in progress until its start has ended. |
| SyncSession.SyncPanel.RetryEnds | src/core/stores/syncSession.ts:632-634 | The end of a retry lets the next one start, if the view is still that of the retry. |
| SyncSession.SyncPanel.RetryStopFails | src/core/stores/syncSession.ts:626-635 | If the old session cannot be stopped, any attempt of the same view shows the error, may be dismissed and retried; another view is not touched. |
| SyncSession.SyncPanel.Close | src/core/stores/syncSession.ts:637-664 | Only an open panel that may be dismissed closes, so never while connecting or connected. |
| Scheduler.BoundedByElapsed | src-tauri/src/distributed/streaming_scheduler.rs:148-161 | The bound kept by every tick says at most one firing more than whole intervals have elapsed. |
| Scheduler.StreamingScheduler.NextDeadline | src-tauri/src/distributed/streaming_scheduler.rs:140-146 | The least next due time. |
| Scheduler.StreamingScheduler.TakeDue | src-tauri/src/distributed/streaming_scheduler.rs:148-161 | Exactly the due tools are handed out, once each and in order: the list holds the tool of every count that grew, in its place, and nothing else. Each is then due again on its grid, after now and at most one interval after it, and over all ticks at most once for each interval begun. |
| RawHtmlFrontier.RawHtmlContainer.FreezeFrame | src/core/utils/astExecutor.ts:586-628 | Frozen children keep their identity, and the live one does exactly if it stays a text or an element of its tag; the count never falls unless the fresh list is empty, and the children look like the fresh ones if and only if the fresh list starts with what is frozen. |
| RawHtmlFrontier.RawHtmlContainer.Replace | src/core/utils/astExecutor.ts:918-962 | By either way the children look like the fresh ones, exactly unless the frontier was taken over a changed frozen prefix. |
| RawHtmlFrontier.RawHtmlContainer.Follow | src/core/utils/astExecutor.ts:586-633 | A stream of frames that each leave the closed children of the one before as they are ends in the last frame. |
| RawHtmlFrontier.PatchedRawHtml.Patch | src/core/utils/astExecutor.ts:701-782 | A patch is carried out exactly if a seed with an element came before and its count fits the children, and what the children are then is stated for every such count; with the right count they are all frozen segments in the order of arrival and at most one live child. |
| HtmlRenderer.EscapeOne | src/core/utils/astRenderer.ts:349-356 | The five replacement passes do not disturb each other. |
| HtmlRenderer.EscapeRoundTrip | src/core/utils/astRenderer.ts:349-356 | Escaped text reads back as the original. |
| HtmlRenderer.EscapedHasNoMarkup | src/core/utils/astRenderer.ts:349-356 | Escaped text holds no markup character, and every ampersand begins an entity. |
| HtmlRenderer.InlineAgrees | src/core/utils/astRenderer.ts:287-347 | For every inline node whose flagged URLs are not empty the static text is the serialized text of the streamed tree, if and only if no class name that comes with the syntax tree needs escaping. |
| HtmlRenderer.BlockAgrees | src/core/utils/astRenderer.ts:228-285 | The same for every block. |
| HtmlRenderer.RenderersAgree | src/core/utils/astRenderer.ts:228-347 | The static text of a document is the serialized text of the streamed tree if and only if no wrapper class or custom kind in it needs escaping, for every document that flags no empty URL for conversion. |
| HtmlRenderer.EmptyUrlDiffers | src/core/utils/astRenderer.ts:313-320 | For an image whose empty URL is flagged for conversion, with or without a title, the two texts agree if and only if the URL filter does not tell the empty URL from the converted one. |
| HtmlRenderer.EmptyLinkDiffers | src/core/utils/astRenderer.ts:304-311 | The same for a link, whatever children the renderers agree on. |
| Mention.Candidates | src/core/utils/mention.ts:40-45 | The candidates are the trimmed, non-empty names with their lower case, longest lower case first. |
| Mention.ScanMentionHits | src/core/utils/mention.ts:38-66 | Whatever lower case does to lengths: hits are in order and do not overlap, each is the longest name that passes the test at its trigger, and no trigger outside a hit passes it. |
| Mention.FollowsIffMentioned | src/core/utils/mention.ts:47-57 | Where no character up to the end of the name changes its length in lower case, the test holds if and only if the name follows the trigger in the text itself, whatever the case. |
| Mention.FollowsMeans | src/core/utils/mention.ts:47-57 | What the test looks at, for every name: what growing in lower case pushed behind the position of the trigger, and then what follows the trigger. |
| Mention.PlainFollowsMeans | src/core/utils/mention.ts:47-57 | For a name without a trigger that is what follows the trigger, if no character before it grows; otherwise only what was pushed, whatever follows. |
| Mention.FoundIffNothingAdded | src/core/utils/mention.ts:47-57 | A mention that is there passes the test if and only if no character before the trigger grows in lower case, or the name begins what was pushed, or, holding the trigger itself, goes beyond it and goes on with what follows. |
| Mention.DottedCapitalHidesMention | src/core/utils/mention.ts:47-57 | In the text of a dotted capital I and @ab the mention of ab is there and is missed. |
| Mention.DottedCapitalsMakeMention | src/core/utils/mention.ts:47-57 | In the text of three dotted capital I and @ nothing is mentioned, yet every scan for the name i has a hit at the trigger. |
| Mention.SplitMentionSegments | src/core/utils/mention.ts:104-125 | The segments join to the text, none is empty, and the mentions are the hits, cut at the end of the text. |
| Mention.MentionedIffNamed | src/core/utils/mention.ts:86-96 | A member is among the ids exactly if some hit names it, as the first member of that name; no id appears twice. |
| Mention.MemberNamedIs | src/core/utils/mention.ts:80-91 | A name stands for the first member with that trimmed name, whatever the case. |
| Mention.InvitedInOrder | src/core/utils/mention.ts:86-96 | The members named by the first hits come first. |
| Mention.KeysAre | src/core/utils/mention.ts:80-84 | Every member with a name, and nobody else, is looked for. |
| Mention.ExtractMentionedMemberIds | src/core/utils/mention.ts:76-97 | The loop over the hits of the name table collects those ids in the order of first mention. |

## Left out

- AstDiff: the highlighter, its caches and `patch_code` mutations; code blocks carry no highlighted HTML.
- AstPatch.DiffThenPatchIsRender: raw HTML blocks and inlines are not part of the tree model; their update is RawHtmlFrontier. Properties other than `level` are not part of the diff.
- AstExecutor.Executor.ExecuteMutation: a mutation that addresses a node left outside the sandbox by a tag-changing morph, that adds an id already in use, or that adds a child to a text node (an exception of the DOM), is not modelled; every other mutation fits the tree or fails. Morphing keeps the root and is taken to become structurally equal to its target; which identities it keeps below the root is not modelled.
- AstExecutor.Executor.ApplyFrame: a frame that stops at a mutation of a node left outside the sandbox, or of an unregistered id inside a table cell while there are stale entries, is not modelled; the backend addresses no cell.
- AstExecutor.Executor: parents are implicit in the tree; a node's identity is a number, not an object.
- StreamStore.MessageStream.Receive: the snapshot request at its end is the separate step RequestSnapshot. `tailOp` and `tailSnapshot` of the pending record are not modelled; what a newer stream discards is stated by Claim, not undone.
- StreamStore.MessageStream.Deliver: one message with its tombstone in force; the tombstone's 24-hour life, its bound of 1000, the delayed cleanup timer and thinking events are not modelled; compiling the blocks an end did not bring is foreign work whose result is handed in.
- StreamStore.MessageStream.RecoveryReply: compiling the recovered content, notifications and the session lists are not modelled.
- StreamStore.MessageStream.SnapshotReply: rebuilding is an uninterpreted function of the content.
- TextFragments.StreamText.ApplyFrame: only what mutations do to text nodes; block animation, reduced-motion listeners and the removal of detached trees are not modelled. A text node is named by one id all its life.
- ToolGate.ToolRequestGate.TryClaim: the hash is taken to be injective, so a digest is its input; serialisation errors and the 128 KB context check in front of the gate are not modelled.
- SessionProtocol.RunIsSafe: task panics, the overflow panic of debug builds at the last session id, validation of the address and the back-off durations are not modelled; the task tracker of a session is not modelled.
- HistoryWindow.History.CommitAround: the wait between selecting the conversation and showing the rows is any interval.
- HistoryWindow: the startup preload, optimistic messages, stream pushes into the window and the substitution of live messages for loaded ones are not modelled; the table is fixed.
- AvatarCache.AvatarStore: dominant colours and the temporary URLs of their computation are not modelled; decoding is foreign.
- SyncSession.SyncPanel: battery, listeners and stopping the backend are outcomes handed in; log texts are schematic and taken as trimmed, and an invalid completion is logged in the words of its error; counts are integers, not doubles.
- Scheduler.StreamingScheduler.TakeDue: ticks do not run backwards, as the monotonic clock guarantees; the timer loop around it is not modelled.
- RawHtmlFrontier.RawHtmlContainer.FreezeFrame: the guards that keep playing media and loaded images as they are; a morphed node is taken to look like its target.
- HtmlRenderer.RenderersAgree: raw and highlighted HTML, the HTML cache; agreement is of texts, and the text of a class such as `a'b` differs although the attribute read from it does not.
- AstPatch.ParagraphToTableIsLossy: the tree differs from the rendering in what is registered, not in what is shown.
- Mention.ScanMentionHits: lower-casing works on each character by itself; the Greek final sigma depends on its neighbours. Positions count characters, not UTF-16 units, which shifts text and lower case alike.
- Vue reactivity, requestAnimationFrame, Tauri calls, WebSocket frames, timers and wake locks: foreign; their completions are steps.
