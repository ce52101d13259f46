/** The synchronisation panel: a state machine over the events of one backend session, some of which may come
    before the session's number is known. */
module SyncSession {
  import opened Wrappers

  const MAX_BUFFERED_EVENTS: nat := 32
  const MAX_LOGS: nat := 200
  const MAX_SAFE_INTEGER: int := 0x1F_FFFF_FFFF_FFFF
  const PHASES: set<string> :=
    {"initialization", "owner_metadata", "topic_metadata", "topic_validation", "messages", "finalize"}
  const INDETERMINATE: set<string> := {"initialization", "owner_metadata", "topic_validation", "finalize"}

  datatype Status = Idle | Connecting | Connected | Error | Completed | CompletedWithWarnings

  datatype Summary = Summary(successful: int, total: int, failed: int, warnings: int, failedIds: seq<string>)

  datatype RetryAction = Automatic | AfterUserAction | Manual | Never

  datatype TerminalError = TerminalError(code: string, retry: RetryAction, message: string, failedIds: seq<string>)

  datatype Text = Message(text: string) | PhaseStarts(phase: string) | PhaseAt(phase: string, completed: int, total: int)

  datatype Log = Log(id: nat, level: string, text: Text)

  datatype Progress = Progress(phase: string, total: int, completed: int)

  // ---- What events carry; a field that is missing or of another type is None

  datatype RawSummary = RawSummary(successful: Option<int>, total: Option<int>, failed: Option<int>, warnings: Option<int>,
                                   failedIds: Option<seq<string>>)

  datatype Payload =
    | LogLine(operator: bool, level: Option<string>, message: string)
    | ProgressReport(phase: Option<string>, done: Option<int>, outOf: Option<int>, counts: RawSummary)
    | StatusReport(status: string, error: Option<TerminalError>, desktop: Option<string>)
    | Completion(status: string, summary: Option<RawSummary>)

  /** What the panel shows. */
  datatype View = View(status: Status, canDismiss: bool, summary: Summary, error: Option<TerminalError>, desktop: Option<string>,
                       needsReload: bool, progress: Progress, logs: seq<Log>, nextLog: nat, lastPhase: string,
                       lastConnection: string, progressLine: Option<nat>)

  const NoSummary := Summary(0, 0, 0, 0, [])
  const NoProgress := Progress("initialization", 0, 0)

  predicate Terminal(s: Status) { s == Error || s == Completed || s == CompletedWithWarnings }

  /** A count is a safe integer, not negative. */
  predicate IsCount(n: Option<int>) { n.Some? && 0 <= n.value <= MAX_SAFE_INTEGER }

  predicate NoneTwice(ids: seq<string>) { forall i, j :: 0 <= i < j < |ids| ==> ids[i] != ids[j] }

  /** readSummary */
  function ReadSummary(r: RawSummary): Option<Summary> {
    if !IsCount(r.successful) || !IsCount(r.total) || !IsCount(r.failed) || !IsCount(r.warnings) || r.failedIds.None?
       || "" in r.failedIds.value || !NoneTwice(r.failedIds.value) || |r.failedIds.value| > r.failed.value
       || r.successful.value + r.failed.value != r.total.value then None
    else Some(Summary(r.successful.value, r.total.value, r.failed.value, r.warnings.value, r.failedIds.value))
  }

  /** readProgressSummary, over what is known of the failed topics */
  function ReadProgressSummary(r: RawSummary, known: Summary): Option<Summary> {
    if !IsCount(r.successful) || !IsCount(r.total) || !IsCount(r.failed) || !IsCount(r.warnings)
       || r.successful.value + r.failed.value > r.total.value then None
    else Some(Summary(r.successful.value, r.total.value, r.failed.value, r.warnings.value, known.failedIds))
  }

  function Max(a: int, b: int): int { if a < b then b else a }

  function PushLog(v: View, level: string, text: Text): View {
    var logs := v.logs + [Log(v.nextLog, level, text)];
    v.(logs := if |logs| > MAX_LOGS then logs[1..] else logs, nextLog := v.nextLog + 1)
  }

  function LocalError(code: string, message: string): TerminalError {
    TerminalError(code, if code == "INVALID_COMPLETION_EVENT" then AfterUserAction else Manual, message, [])
  }

  function Failed(v: View, e: TerminalError): View { v.(error := Some(e), status := Error, canDismiss := true) }

  /** The log line that shows the progress of a phase is rewritten in place while it is still in the log. */
  function LiveLine(v: View, text: Text): View {
    if v.progressLine.Some? && exists i :: 0 <= i < |v.logs| && v.logs[i].id == v.progressLine.value
    then v.(logs := Rewritten(v.logs, v.progressLine.value, text))
    else PushLog(v, "info", text).(progressLine := Some(v.nextLog))
  }

  function Rewritten(logs: seq<Log>, id: nat, text: Text): seq<Log> {
    if logs == [] then [] else [if logs[0].id == id then logs[0].(text := text) else logs[0]] + Rewritten(logs[1..], id, text)
  }

  // ---- applySessionEvent

  /** The counts of a phase; a phase of unknown length counts nothing, and a count not reported is kept. */
  function ProgressIn(v: View, p: Payload, phase: string): Progress
    requires p.ProgressReport?
  {
    if phase in INDETERMINATE then Progress(phase, 0, 0)
    else Progress(phase, if IsCount(p.outOf) then p.outOf.value else v.progress.total,
                  if IsCount(p.done) then p.done.value else v.progress.completed)
  }

  /** A new phase is announced once. */
  function Announced(v: View, phase: string): View {
    if phase != v.lastPhase then PushLog(v.(progressLine := None), "info", PhaseStarts(phase)).(lastPhase := phase) else v
  }

  function ApplyProgress(v: View, p: Payload): View
    requires p.ProgressReport?
  {
    var phase := if p.phase.Some? then p.phase.value else v.progress.phase;
    if Terminal(v.status) || phase !in PHASES then v
    else
      var n := ProgressIn(v, p, phase);
      var v2 := Announced(v.(progress := n), phase);
      var v3 := if n.total > 0 then LiveLine(v2, PhaseAt(phase, n.completed, n.total)) else v2;
      var s := ReadProgressSummary(p.counts, v.summary);
      if s.Some? then v3.(summary := s.value) else v3
  }

  function ApplyError(v: View, e: Option<TerminalError>): View {
    if v.status == Completed || v.status == CompletedWithWarnings then v
    else
      var error := if e.Some? then e.value else LocalError("SYNC_ATTEMPT_FAILED", "");
      var failed := Max(v.summary.failed, |error.failedIds|);
      var total := Max(v.summary.total, v.summary.successful + failed);
      PushLog(v, "error", Message(error.message)).(
        error := Some(error), status := Error, canDismiss := true,
        summary := v.summary.(failed := failed, total := total, failedIds := error.failedIds))
  }

  function ApplyStatus(v: View, p: Payload): View
    requires p.StatusReport?
  {
    if p.status == "error" then ApplyError(v, p.error)
    else if Terminal(v.status) then v
    else if p.status == "open" then
      var w := v.(desktop := p.desktop, needsReload := true, status := Connected, canDismiss := false);
      if v.lastConnection != "open" then PushLog(w, "success", Message("open")).(lastConnection := "open") else w
    else if p.status == "connecting" then
      var w := v.(desktop := None, status := Connecting, canDismiss := false);
      if v.lastConnection != "connecting" then PushLog(w, "info", Message("connecting")).(lastConnection := "connecting") else w
    else v
  }

  function InvalidCompletion(v: View, message: string): View {
    Failed(PushLog(v, "error", Message(message)), LocalError("INVALID_COMPLETION_EVENT", message))
  }

  function ApplyCompletion(v: View, p: Payload): View
    requires p.Completion?
  {
    if v.status == Error then v
    else if p.status != "completed" && p.status != "completed_with_warnings" then InvalidCompletion(v, "status")
    else
      var s := if p.summary.Some? then ReadSummary(p.summary.value) else None;
      if s.None? then InvalidCompletion(v, "summary")
      else if s.value.failed != 0 || s.value.failedIds != [] || (p.status == "completed" && s.value.warnings != 0)
              || (p.status == "completed_with_warnings" && s.value.warnings == 0) then InvalidCompletion(v, "mismatch")
      else
        var warned := p.status == "completed_with_warnings";
        PushLog(v.(summary := s.value, status := if warned then CompletedWithWarnings else Completed, canDismiss := true,
                   needsReload := true),
                if warned then "warning" else "success", Message("completed"))
  }

  function Apply(v: View, p: Payload): View {
    match p
    case LogLine(operator, level, message) =>
      if operator && message != "" then PushLog(v, if level.Some? then level.value else "info", Message(message)) else v
    case ProgressReport(_, _, _, _) => ApplyProgress(v, p)
    case StatusReport(_, _, _) => ApplyStatus(v, p)
    case Completion(_, _) => ApplyCompletion(v, p)
  }

  function ApplyAll(v: View, ps: seq<Payload>): View
    decreases |ps|
  {
    if ps == [] then v else ApplyAll(Apply(v, ps[0]), ps[1..])
  }

  // ---- What one event shows

  /** One line is added at the end; the oldest goes when there are more than 200. */
  ghost predicate Adds(logs: seq<Log>, next: nat, after: seq<Log>, level: string, text: Text) {
    after == (if |logs| < 200 then logs else logs[1..]) + [Log(next, level, text)]
  }

  /** The lines are the same but for the text of the line with this number. */
  ghost predicate Rewrites(logs: seq<Log>, id: nat, after: seq<Log>, text: Text) {
    |after| == |logs| && forall i :: 0 <= i < |logs| ==> after[i] == if logs[i].id == id then logs[i].(text := text) else logs[i]
  }

  ghost predicate Shown(logs: seq<Log>, id: Option<nat>) { id.Some? && exists i :: 0 <= i < |logs| && logs[i].id == id.value }

  lemma {:induction false} RewrittenIs(logs: seq<Log>, id: nat, text: Text)
    ensures Rewrites(logs, id, Rewritten(logs, id, text), text)
  {
    if logs != [] { RewrittenIs(logs[1..], id, text); }
  }

  /** An operator's line is shown, anything else of the kind is not. */
  ghost predicate LineShows(v: View, p: Payload, r: View)
    requires p.LogLine?
  {
    if p.operator && p.message != "" then
      && Adds(v.logs, v.nextLog, r.logs, match p.level case Some(l) => l case None => "info", Message(p.message))
      && r == v.(logs := r.logs, nextLog := v.nextLog + 1)
    else r == v
  }

  /** The phase and its counts are shown unless the session is over; a count that is not one is passed over, and the phases
      of unknown length show none. The phase is announced when it begins, and its counts are one line that moves with
      them for as long as the log holds it. */
  ghost predicate ProgressShows(v: View, p: Payload, r: View)
    requires p.ProgressReport?
  {
    var phase := match p.phase case Some(name) => name case None => v.progress.phase;
    if v.status in {Error, Completed, CompletedWithWarnings}
       || phase !in {"initialization", "owner_metadata", "topic_metadata", "topic_validation", "messages", "finalize"} then r == v
    else
      && r.progress.phase == r.lastPhase == phase
      && PhaseCounts(v.progress, p, r.progress)
      && ProgressLines(v, r, PhaseAt(phase, r.progress.completed, r.progress.total))
      && SummaryShows(v.summary, p.counts, r.summary)
      && r == v.(progress := r.progress, lastPhase := r.lastPhase, logs := r.logs, nextLog := r.nextLog,
                 progressLine := r.progressLine, summary := r.summary)
  }

  /** A count that JavaScript holds exactly, below 2^53. */
  ghost predicate IsReported(n: Option<int>) { n.Some? && 0 <= n.value < 0x20_0000_0000_0000 }

  ghost predicate GoodCounts(r: RawSummary) {
    && IsReported(r.successful) && IsReported(r.total) && IsReported(r.failed) && IsReported(r.warnings)
    && r.successful.value + r.failed.value <= r.total.value
  }

  ghost predicate PhaseCounts(was: Progress, p: Payload, now: Progress)
    requires p.ProgressReport?
  {
    if now.phase in {"topic_metadata", "messages"} then
      && now.total == (if IsReported(p.outOf) then p.outOf.value else was.total)
      && now.completed == (if IsReported(p.done) then p.done.value else was.completed)
    else now.total == now.completed == 0
  }

  ghost predicate SummaryShows(was: Summary, r: RawSummary, now: Summary) {
    now == if GoodCounts(r)
           then Summary(r.successful.value, r.total.value, r.failed.value, r.warnings.value, was.failedIds)
           else was
  }

  ghost predicate ProgressLines(v: View, r: View, line: Text) {
    if r.lastPhase == v.lastPhase then
      if r.progress.total == 0 then
        r.logs == v.logs && r.nextLog == v.nextLog && r.progressLine == v.progressLine
      else if Shown(v.logs, v.progressLine) then
        Rewrites(v.logs, v.progressLine.value, r.logs, line) && r.nextLog == v.nextLog && r.progressLine == v.progressLine
      else
        Adds(v.logs, v.nextLog, r.logs, "info", line) && r.nextLog == v.nextLog + 1 && r.progressLine == Some(v.nextLog)
    else if r.progress.total == 0 then
      Adds(v.logs, v.nextLog, r.logs, "info", PhaseStarts(r.lastPhase)) && r.nextLog == v.nextLog + 1 && r.progressLine.None?
    else
      && (exists between :: Adds(v.logs, v.nextLog, between, "info", PhaseStarts(r.lastPhase))
                            && Adds(between, v.nextLog + 1, r.logs, "info", line))
      && r.nextLog == v.nextLog + 2 && r.progressLine == Some(v.nextLog + 1)
  }

  /** An error ends a session that has not succeeded. Its topics are the failed ones: there are no fewer of them than
      before, nor than it names, and the total covers them. */
  ghost predicate ErrorShows(v: View, p: Payload, r: View)
    requires p.StatusReport? && p.status == "error"
  {
    if v.status == Completed || v.status == CompletedWithWarnings then r == v
    else
      && r.status == Error && r.canDismiss
      && r.error == Some(match p.error case Some(e) => e case None => TerminalError("SYNC_ATTEMPT_FAILED", Manual, "", []))
      && Adds(v.logs, v.nextLog, r.logs, "error", Message(r.error.value.message)) && r.nextLog == v.nextLog + 1
      && r.summary.failedIds == r.error.value.failedIds
      && r.summary.failed >= v.summary.failed && r.summary.failed >= |r.summary.failedIds|
      && r.summary.failed in {v.summary.failed, |r.summary.failedIds|}
      && r.summary.total >= v.summary.total && r.summary.total >= r.summary.successful + r.summary.failed
      && r.summary.total in {v.summary.total, r.summary.successful + r.summary.failed}
      && r == v.(status := Error, canDismiss := true, error := r.error, logs := r.logs, nextLog := r.nextLog,
                 summary := v.summary.(failed := r.summary.failed, total := r.summary.total, failedIds := r.summary.failedIds))
  }

  /** The connection is shown while the session lasts, and logged when it changes. Once it was open, data must be
      reloaded. */
  ghost predicate ConnectionShows(v: View, p: Payload, r: View)
    requires p.StatusReport? && p.status != "error"
  {
    if v.status in {Error, Completed, CompletedWithWarnings} || (p.status != "open" && p.status != "connecting") then r == v
    else
      var open := p.status == "open";
      && r.status == (if open then Connected else Connecting) && !r.canDismiss
      && r.desktop == (if open then p.desktop else None) && r.needsReload == (open || v.needsReload)
      && r.lastConnection == p.status
      && (if v.lastConnection == p.status then r.logs == v.logs && r.nextLog == v.nextLog
          else && Adds(v.logs, v.nextLog, r.logs, if open then "success" else "info", Message(p.status))
               && r.nextLog == v.nextLog + 1)
      && r == v.(status := r.status, canDismiss := false, desktop := r.desktop, needsReload := r.needsReload,
                 lastConnection := r.lastConnection, logs := r.logs, nextLog := r.nextLog)
  }

  /** A completion that is in order: every topic succeeded, and it warns exactly if there are warnings. */
  ghost predicate InOrder(p: Payload)
    requires p.Completion?
  {
    p.summary.Some? &&
    var s := p.summary.value;
    && GoodCounts(s) && s.failedIds == Some([]) && s.failed == Some(0) && s.successful == s.total
    && p.status == if s.warnings == Some(0) then "completed" else "completed_with_warnings"
  }

  /** Such a completion ends the session well and is shown with its counts; any other is an error, to be retried by the
      user, and leaves the counts. After an error neither comes through. */
  ghost predicate CompletionShows(v: View, p: Payload, r: View)
    requires p.Completion?
  {
    if v.status == Error then r == v
    else if InOrder(p) then
      var s := p.summary.value;
      var warned := s.warnings != Some(0);
      && r.summary == Summary(s.successful.value, s.total.value, 0, s.warnings.value, [])
      && Adds(v.logs, v.nextLog, r.logs, if warned then "warning" else "success", Message("completed"))
      && r == v.(status := if warned then CompletedWithWarnings else Completed, canDismiss := true, needsReload := true,
                 summary := r.summary, logs := r.logs, nextLog := v.nextLog + 1)
    else RejectionShows(v, r)
  }

  ghost predicate RejectionShows(v: View, r: View) {
    && r.error.Some? && r.error.value.code == "INVALID_COMPLETION_EVENT" && r.error.value.retry == AfterUserAction
    && r.error.value.failedIds == []
    && Adds(v.logs, v.nextLog, r.logs, "error", Message(r.error.value.message))
    && r == v.(status := Error, canDismiss := true, error := r.error, logs := r.logs, nextLog := v.nextLog + 1)
  }

  ghost predicate EventShows(v: View, p: Payload, r: View) {
    match p
    case LogLine(_, _, _) => LineShows(v, p, r)
    case ProgressReport(_, _, _, _) => ProgressShows(v, p, r)
    case StatusReport(status, _, _) => if status == "error" then ErrorShows(v, p, r) else ConnectionShows(v, p, r)
    case Completion(_, _) => CompletionShows(v, p, r)
  }

  lemma LiveLineIs(v: View, text: Text)
    requires |v.logs| <= MAX_LOGS
    ensures var r := LiveLine(v, text);
            && r == v.(logs := r.logs, nextLog := r.nextLog, progressLine := r.progressLine)
            && if Shown(v.logs, v.progressLine) then
                 Rewrites(v.logs, v.progressLine.value, r.logs, text) && r.nextLog == v.nextLog && r.progressLine == v.progressLine
               else Adds(v.logs, v.nextLog, r.logs, "info", text) && r.nextLog == v.nextLog + 1 && r.progressLine == Some(v.nextLog)
  {
    if v.progressLine.Some? { RewrittenIs(v.logs, v.progressLine.value, text); }
  }

  lemma AnnouncedIs(v: View, phase: string)
    requires |v.logs| <= MAX_LOGS
    ensures var r := Announced(v, phase);
            && r == v.(logs := r.logs, nextLog := r.nextLog, progressLine := r.progressLine, lastPhase := phase)
            && |r.logs| <= MAX_LOGS
            && if phase == v.lastPhase then r == v
               else && Adds(v.logs, v.nextLog, r.logs, "info", PhaseStarts(phase))
                    && r.nextLog == v.nextLog + 1 && r.progressLine.None?
  {}

  lemma LinesAre(v: View, n: Progress)
    requires |v.logs| <= MAX_LOGS && n.total >= 0
    ensures var w, line := Announced(v.(progress := n), n.phase), PhaseAt(n.phase, n.completed, n.total);
            var r := if n.total > 0 then LiveLine(w, line) else w;
            && r == v.(progress := n, lastPhase := n.phase, logs := r.logs, nextLog := r.nextLog, progressLine := r.progressLine)
            && ProgressLines(v, r, line)
  {
    hide LiveLine, Announced, Adds, Rewrites;
    var w := Announced(v.(progress := n), n.phase);
    AnnouncedIs(v.(progress := n), n.phase);
    LiveLineIs(w, PhaseAt(n.phase, n.completed, n.total));
  }

  lemma ProgressInIs(v: View, p: Payload, phase: string)
    requires v.progress.total >= 0 && p.ProgressReport? && phase in PHASES
    ensures var n := ProgressIn(v, p, phase); n.phase == phase && n.total >= 0 && PhaseCounts(v.progress, p, n)
  {}

  lemma AppliedProgressShows(v: View, p: Payload)
    requires |v.logs| <= MAX_LOGS && v.progress.total >= 0 && p.ProgressReport?
    ensures ProgressShows(v, p, ApplyProgress(v, p))
  {
    hide LiveLine, Announced, ProgressIn, PhaseCounts, Adds, Rewrites, Shown;
    var phase := if p.phase.Some? then p.phase.value else v.progress.phase;
    if !Terminal(v.status) && phase in PHASES {
      ProgressInIs(v, p, phase);
      LinesAre(v, ProgressIn(v, p, phase));
    }
  }

  lemma AppliedStatusShows(v: View, p: Payload)
    requires |v.logs| <= MAX_LOGS && p.StatusReport?
    ensures EventShows(v, p, ApplyStatus(v, p))
  {}

  lemma InOrderIs(p: Payload)
    requires p.Completion?
    ensures var s := if p.summary.Some? then ReadSummary(p.summary.value) else None;
            InOrder(p) <==>
              s.Some? && s.value.failed == 0 && s.value.failedIds == []
              && p.status == if s.value.warnings == 0 then "completed" else "completed_with_warnings"
    ensures InOrder(p) ==> var r := p.summary.value;
              ReadSummary(r) == Some(Summary(r.successful.value, r.total.value, 0, r.warnings.value, [])) && r.warnings.Some?
  {}

  lemma InvalidCompletionShows(v: View, message: string)
    requires |v.logs| <= MAX_LOGS
    ensures RejectionShows(v, InvalidCompletion(v, message))
  {}

  lemma AppliedCompletionShows(v: View, p: Payload)
    requires |v.logs| <= MAX_LOGS && p.Completion?
    ensures CompletionShows(v, p, ApplyCompletion(v, p))
  {
    hide InOrder, ReadSummary, RejectionShows, InvalidCompletion;
    InOrderIs(p);
    InvalidCompletionShows(v, "status");
    InvalidCompletionShows(v, "summary");
    InvalidCompletionShows(v, "mismatch");
  }

  /** Each event shows what it should, whatever was shown before. */
  lemma AppliedShows(v: View, p: Payload)
    requires |v.logs| <= MAX_LOGS && v.progress.total >= 0
    ensures EventShows(v, p, Apply(v, p))
  {
    match p
    case LogLine(_, _, _) =>
    case ProgressReport(_, _, _, _) => AppliedProgressShows(v, p);
    case StatusReport(_, _, _) => AppliedStatusShows(v, p);
    case Completion(_, _) => AppliedCompletionShows(v, p);
  }

  // ---- What every event keeps

  predicate Counted(s: Summary) {
    0 <= s.successful && 0 <= s.failed && s.successful + s.failed <= s.total && |s.failedIds| <= s.failed
  }

  /** The counts add up; the panel cannot be dismissed while a connection is sought or open; failed topics are
      named only once the session is over. */
  predicate Proper(v: View) {
    && Counted(v.summary) && (v.canDismiss ==> v.status != Connecting && v.status != Connected)
    && (!Terminal(v.status) ==> v.summary.failedIds == []) && |v.logs| <= MAX_LOGS && v.progress.total >= 0
  }

  lemma {:induction false} RewrittenLength(logs: seq<Log>, id: nat, text: Text)
    ensures |Rewritten(logs, id, text)| == |logs|
  {
    if logs != [] { RewrittenLength(logs[1..], id, text); }
  }

  lemma LiveLineKeeps(v: View, text: Text)
    requires Proper(v)
    ensures Proper(LiveLine(v, text)) && LiveLine(v, text).status == v.status && LiveLine(v, text).summary == v.summary
  {
    if v.progressLine.Some? { RewrittenLength(v.logs, v.progressLine.value, text); }
  }

  lemma ProgressKeeps(v: View, p: Payload)
    requires Proper(v) && p.ProgressReport?
    ensures Proper(ApplyProgress(v, p))
  {
    var phase := if p.phase.Some? then p.phase.value else v.progress.phase;
    if !Terminal(v.status) && phase in PHASES {
      var n := ProgressIn(v, p, phase);
      LiveLineKeeps(Announced(v.(progress := n), phase), PhaseAt(phase, n.completed, n.total));
    }
  }

  lemma StatusKeeps(v: View, p: Payload)
    requires Proper(v) && p.StatusReport?
    ensures Proper(ApplyStatus(v, p))
  {
  }

  lemma CompletionKeeps(v: View, p: Payload)
    requires Proper(v) && p.Completion?
    ensures Proper(ApplyCompletion(v, p))
  {}

  lemma ApplyKeeps(v: View, p: Payload)
    requires Proper(v)
    ensures Proper(Apply(v, p))
  {
    match p
    case LogLine(_, _, _) =>
    case ProgressReport(_, _, _, _) => ProgressKeeps(v, p);
    case StatusReport(_, _, _) => StatusKeeps(v, p);
    case Completion(_, _) => CompletionKeeps(v, p);
  }

  lemma {:induction false} RunKeeps(v: View, ps: seq<Payload>)
    requires Proper(v)
    ensures Proper(ApplyAll(v, ps))
    decreases |ps|
  {
    if ps != [] {
      ApplyKeeps(v, ps[0]);
      RunKeeps(Apply(v, ps[0]), ps[1..]);
    }
  }

  /** No event leads out of the error state. */
  lemma {:induction false} ErrorIsAbsorbing(v: View, ps: seq<Payload>)
    requires v.status == Error
    ensures ApplyAll(v, ps).status == Error && (v.canDismiss ==> ApplyAll(v, ps).canDismiss)
    decreases |ps|
  {
    if ps != [] { ErrorIsAbsorbing(Apply(v, ps[0]), ps[1..]); }
  }

  /** Success is left only by a further completion event, and kept by it exactly if that event is valid too. */
  lemma SuccessIsLeftOnlyByCompletion(v: View, p: Payload)
    requires v.status == Completed || v.status == CompletedWithWarnings
    ensures !p.Completion? ==> Apply(v, p).status == v.status && Apply(v, p).summary == v.summary
    ensures p.Completion? ==>
              (Apply(v, p).status == Error <==>
                 !((p.status == "completed" || p.status == "completed_with_warnings") && p.summary.Some?
                   && ReadSummary(p.summary.value).Some?
                   && var s := ReadSummary(p.summary.value).value;
                      s.failed == 0 && s.failedIds == [] && (s.warnings == 0 <==> p.status == "completed")))
  {
    if p.ProgressReport? { assert Apply(v, p) == v; }
  }

  lemma ProgressKeepsStatus(v: View, p: Payload)
    requires p.ProgressReport?
    ensures ApplyProgress(v, p).status == v.status
  {}

  /** Only a completion event with a valid, matching summary makes a session a success, and then no topic failed. */
  lemma SuccessIsEarned(v: View, p: Payload)
    requires !Terminal(v.status) && Terminal(Apply(v, p).status) && Apply(v, p).status != Error
    ensures p.Completion? && p.summary.Some? && ReadSummary(p.summary.value) == Some(Apply(v, p).summary)
    ensures Apply(v, p).summary.failed == 0 && Apply(v, p).summary.successful == Apply(v, p).summary.total
    ensures Apply(v, p).status == Completed <==> Apply(v, p).summary.warnings == 0
  {
    if p.ProgressReport? { ProgressKeepsStatus(v, p); }
  }

  // ---- Events before the session's number is known

  datatype Arrival = Arrival(sessionId: Option<int>, payload: Payload)

  datatype Session = Session(view: View, active: Option<int>, awaiting: bool, buffer: seq<Arrival>, generation: nat, attempt: nat,
                             isOpen: bool, retrying: bool)

  predicate ValidId(id: Option<int>) { id.Some? && 0 < id.value <= MAX_SAFE_INTEGER }

  /** routeSessionEvent */
  function Route(s: Session, a: Arrival): Session {
    if !ValidId(a.sessionId) then s
    else if s.active == a.sessionId then s.(view := Apply(s.view, a.payload))
    else if s.active.None? && s.awaiting then
      var buffer := s.buffer + [a];
      s.(buffer := if |buffer| > MAX_BUFFERED_EVENTS then buffer[1..] else buffer)
    else s
  }

  function RouteAll(s: Session, es: seq<Arrival>): Session {
    if es == [] then s else Route(RouteAll(s, es[..|es| - 1]), es[|es| - 1])
  }

  /** The payloads of session id, in order. */
  function Of(es: seq<Arrival>, id: int): seq<Payload> {
    if es == [] then [] else (if es[0].sessionId == Some(id) then [es[0].payload] else []) + Of(es[1..], id)
  }

  /** The number comes: what was buffered for it is replayed. */
  function Learn(s: Session, id: int): Session {
    s.(active := Some(id), awaiting := false, buffer := [], view := ApplyAll(s.view, Of(s.buffer, id)))
  }

  function Valids(es: seq<Arrival>): seq<Arrival> {
    if es == [] then []
    else
      var n := |es| - 1;
      Valids(es[..n]) + if ValidId(es[n].sessionId) then [es[n]] else []
  }

  function Latest(es: seq<Arrival>): seq<Arrival> {
    if |es| > MAX_BUFFERED_EVENTS then es[|es| - MAX_BUFFERED_EVENTS..] else es
  }

  lemma {:induction false} BufferHoldsLatest(s: Session, es: seq<Arrival>)
    requires s.active.None? && s.awaiting && s.buffer == []
    ensures RouteAll(s, es) == s.(buffer := Latest(Valids(es)))
  {
    if es != [] { BufferHoldsLatest(s, es[..|es| - 1]); }
  }

  lemma {:induction false} ApplyAllSnoc(v: View, ps: seq<Payload>, p: Payload)
    ensures ApplyAll(v, ps + [p]) == Apply(ApplyAll(v, ps), p)
    decreases |ps|
  {
    if ps == [] {
      assert ps + [p] == [p];
      assert ApplyAll(Apply(v, p), []) == Apply(v, p);
    } else {
      assert (ps + [p])[1..] == ps[1..] + [p];
      ApplyAllSnoc(Apply(v, ps[0]), ps[1..], p);
    }
  }

  lemma {:induction false} OfSnoc(es: seq<Arrival>, e: Arrival, id: int)
    ensures Of(es + [e], id) == Of(es, id) + (if e.sessionId == Some(id) then [e.payload] else [])
  {
    if es == [] {
      assert es + [e] == [e];
    } else {
      assert (es + [e])[0] == es[0] && (es + [e])[1..] == es[1..] + [e];
      OfSnoc(es[1..], e, id);
      var first, last := if es[0].sessionId == Some(id) then [es[0].payload] else [], if e.sessionId == Some(id) then [e.payload] else [];
      assert first + (Of(es[1..], id) + last) == (first + Of(es[1..], id)) + last;
    }
  }

  /** Once the number is known, exactly its own events are applied. */
  lemma {:induction false} KnownAppliesOwn(s: Session, id: int, es: seq<Arrival>)
    requires s.active == Some(id) && ValidId(Some(id))
    ensures RouteAll(s, es) == s.(view := ApplyAll(s.view, Of(es, id)))
  {
    if es != [] {
      var n := |es| - 1;
      KnownAppliesOwn(s, id, es[..n]);
      assert es[..n] + [es[n]] == es;
      OfSnoc(es[..n], es[n], id);
      if es[n].sessionId == Some(id) {
        ApplyAllSnoc(s.view, Of(es[..n], id), es[n].payload);
      } else {
        assert Of(es, id) == Of(es[..n], id);
      }
    }
  }

  lemma {:induction false} ValidsKeepOwn(es: seq<Arrival>, id: int)
    requires ValidId(Some(id))
    ensures Of(Valids(es), id) == Of(es, id) && |Valids(es)| <= |es|
  {
    if es != [] {
      var n := |es| - 1;
      ValidsKeepOwn(es[..n], id);
      assert es[..n] + [es[n]] == es;
      OfSnoc(es[..n], es[n], id);
      OfSnoc(Valids(es[..n]), es[n], id);
      assert !ValidId(es[n].sessionId) ==> Valids(es) == Valids(es[..n]);
    }
  }

  /** Learning the number after the events ends where knowing it from the start would have ended, had only the
      last 32 events come; so with 32 events or fewer nothing is lost. */
  lemma BufferingIsKnowing(s: Session, id: int, es: seq<Arrival>)
    requires s.active.None? && s.awaiting && s.buffer == [] && ValidId(Some(id))
    ensures Learn(RouteAll(s, es), id) == RouteAll(Learn(s, id), Latest(Valids(es)))
    ensures |es| <= MAX_BUFFERED_EVENTS ==> Learn(RouteAll(s, es), id) == RouteAll(Learn(s, id), es)
  {
    BufferHoldsLatest(s, es);
    assert Learn(s, id).view == s.view;
    KnownAppliesOwn(Learn(s, id), id, Latest(Valids(es)));
    ValidsKeepOwn(es, id);
    if |es| <= MAX_BUFFERED_EVENTS { KnownAppliesOwn(Learn(s, id), id, es); }
  }

  // ---- The panel

  /** The continuation of attempt a in view g may still act. */
  predicate CurrentAttempt(s: Session, g: nat, a: nat) { s.isOpen && g == s.generation && a == s.attempt }

  /** The view shows this error, in a line of its own too; it may be dismissed, and what was shown stays. */
  ghost predicate ErrorIs(v: View, e: TerminalError, r: View) {
    && Adds(v.logs, v.nextLog, r.logs, "error", Message(e.message))
    && r == v.(status := Error, canDismiss := true, error := Some(e), logs := r.logs, nextLog := v.nextLog + 1)
  }

  /** start_manual_sync fails: the buffer is given up whoever's attempt it was. */
  function StartFails(s: Session, g: nat, a: nat, e: TerminalError): Session {
    var r := s.(awaiting := false, buffer := []);
    if CurrentAttempt(s, g, a) then r.(view := Failed(PushLog(s.view, "error", Message(e.message)), e)) else r
  }

  /** So the late failure of an abandoned attempt makes the present attempt deaf to the events that come before
      its number is known; without such a failure they are buffered. */
  lemma StaleFailureLosesEvents(s: Session, g: nat, a: nat, e: TerminalError, arrival: Arrival)
    requires s.active.None? && s.awaiting && !CurrentAttempt(s, g, a) && ValidId(arrival.sessionId)
    ensures Route(StartFails(s, g, a, e), arrival).buffer == [] && StartFails(s, g, a, e).view == s.view
    ensures arrival in Route(s, arrival).buffer
  {
    assert (s.buffer + [arrival])[|s.buffer|] == arrival;
    if |s.buffer| + 1 > MAX_BUFFERED_EVENTS { assert Route(s, arrival).buffer[|s.buffer| - 1] == arrival; }
  }

  /** While the number is awaited, an event arrives, or an abandoned attempt fails. */
  datatype Moment = Arrives(a: Arrival) | FailsLate(g: nat, attempt: nat, e: TerminalError)

  function Meanwhile(s: Session, ms: seq<Moment>): Session {
    if ms == [] then s
    else
      var r, m := Meanwhile(s, ms[..|ms| - 1]), ms[|ms| - 1];
      match m
      case Arrives(a) => Route(r, a)
      case FailsLate(g, attempt, e) => StartFails(r, g, attempt, e)
  }

  function Arrivals(ms: seq<Moment>): seq<Arrival> {
    if ms == [] then []
    else Arrivals(ms[..|ms| - 1]) + if ms[|ms| - 1].Arrives? then [ms[|ms| - 1].a] else []
  }

  predicate NoneFails(ms: seq<Moment>) { forall i :: 0 <= i < |ms| ==> ms[i].Arrives? }

  lemma {:induction false} MeanwhileIs(s: Session, ms: seq<Moment>)
    requires s.active.None? && s.awaiting && s.buffer == []
    requires forall i :: 0 <= i < |ms| && ms[i].FailsLate? ==> !CurrentAttempt(s, ms[i].g, ms[i].attempt)
    ensures Meanwhile(s, ms) == if NoneFails(ms) then RouteAll(s, Arrivals(ms)) else s.(awaiting := false)
  {
    if ms != [] {
      var n := |ms| - 1;
      MeanwhileIs(s, ms[..n]);
      if NoneFails(ms[..n]) {
        BufferHoldsLatest(s, Arrivals(ms[..n]));
        assert ms[n].Arrives? ==> NoneFails(ms) && Arrivals(ms)[..|Arrivals(ms)| - 1] == Arrivals(ms[..n]);
      }
    }
  }

  /** Over any run, which events are lost before the number is known: without a late failure all but the last 32;
      with one, wherever in the run, all of them. */
  lemma LateFailureLosesAll(s: Session, ms: seq<Moment>, id: int)
    requires s.active.None? && s.awaiting && s.buffer == [] && ValidId(Some(id))
    requires forall i :: 0 <= i < |ms| && ms[i].FailsLate? ==> !CurrentAttempt(s, ms[i].g, ms[i].attempt)
    ensures Learn(Meanwhile(s, ms), id)
            == if NoneFails(ms) then RouteAll(Learn(s, id), Latest(Valids(Arrivals(ms)))) else Learn(s, id)
  {
    MeanwhileIs(s, ms);
    if NoneFails(ms) { BufferingIsKnowing(s, id, Arrivals(ms)); }
  }

  const FreshView := View(Idle, true, NoSummary, None, None, false, NoProgress, [], 0, "", "", None)

  class SyncPanel {
    var session: Session

    ghost predicate Valid()
      reads this
    {
      && Proper(session.view) && |session.buffer| <= MAX_BUFFERED_EVENTS
      && (session.awaiting ==> session.active.None?) && (!session.awaiting ==> session.buffer == [])
    }

    constructor ()
      ensures Valid() && session.view == FreshView && !session.isOpen
    {
      session := Session(FreshView, None, false, [], 0, 0, false, false);
    }

    /** open: a new view, in which no earlier attempt may act. */
    method Open()
      requires Valid()
      modifies this
      ensures Valid() && session.isOpen && session.active.None? && !session.awaiting
      ensures session.view == FreshView.(needsReload := old(session).view.needsReload, nextLog := old(session).view.nextLog)
      ensures forall g: nat, a: nat :: a <= old(session).attempt ==> !CurrentAttempt(session, g, a)
    {
      session := Session(FreshView.(needsReload := session.view.needsReload, nextLog := session.view.nextLog), None, false, [],
                         session.generation + 1, session.attempt + 1, true, false);
    }

    /** An event arrives. */
    method Receive(a: Arrival)
      requires Valid()
      modifies this
      ensures Valid() && session == Route(old(session), a)
      ensures old(session).view.status == Error ==> session.view.status == Error
      ensures var s := old(session);
              if a.sessionId.None? || a.sessionId.value <= 0 || a.sessionId.value >= 0x20_0000_0000_0000 then session == s
              else if s.active == a.sessionId then
                EventShows(s.view, a.payload, session.view) && session == s.(view := session.view)
              else if s.active.Some? || !s.awaiting then session == s
              else session == s.(buffer := (if |s.buffer| == 32 then s.buffer[1..] else s.buffer) + [a])
    {
      hide EventShows;
      if !ValidId(a.sessionId) { return; }
      if session.active == a.sessionId {
        ApplyKeeps(session.view, a.payload);
        AppliedShows(session.view, a.payload);
        if session.view.status == Error { ErrorStays(session.view, a.payload); }
        session := session.(view := Apply(session.view, a.payload));
      } else if session.active.None? && session.awaiting {
        session := session.(buffer := session.buffer + [a]);
        if |session.buffer| > MAX_BUFFERED_EVENTS { session := session.(buffer := session.buffer[1..]); }
      }
    }

    /** beginSync, up to the first wait: the panel is locked before anything can happen behind it. */
    method Begin(preserveLogs: bool) returns (started: bool)
      requires Valid()
      modifies this
      ensures Valid() && started == (old(session).view.status == Idle)
      ensures started ==> session.view.status == Connecting && !session.view.canDismiss && session.attempt == old(session).attempt + 1
      ensures started ==> CurrentAttempt(session, session.generation, session.attempt) == session.isOpen
      ensures started ==> session.view.logs == (if preserveLogs then old(session).view.logs else [])
      ensures started ==> session.view.progress == Progress("initialization", 0, 0) && session.view.progressLine.None?
                          && session.view.lastPhase == ""
      ensures var v, w := old(session).view, session.view;
              w == v.(status := w.status, canDismiss := w.canDismiss, logs := w.logs, progress := w.progress, lastPhase := w.lastPhase,
                      progressLine := w.progressLine)
      ensures session == old(session).(attempt := session.attempt, view := session.view) && (!started ==> session == old(session))
    {
      if session.view.status != Idle { return false; }
      var v := session.view;
      session := session.(attempt := session.attempt + 1,
                          view := v.(logs := if preserveLogs then v.logs else [], progress := NoProgress, lastPhase := "",
                                     progressLine := None, status := Connecting, canDismiss := false));
      return true;
    }

    /** A step before the start command fails: stopping the old session, the listeners, or the battery check. */
    method PreflightFails(g: nat, a: nat, e: TerminalError)
      requires Valid()
      modifies this
      ensures Valid()
      ensures if CurrentAttempt(old(session), g, a)
              then ErrorIs(old(session).view, e, session.view) && session == old(session).(view := session.view)
              else session == old(session)
    {
      if CurrentAttempt(session, g, a) {
        session := session.(view := Failed(PushLog(session.view, "error", Message(e.message)), e));
      }
    }

    /** The start command is sent; events are buffered from now on. */
    method AskForSession(g: nat, a: nat)
      requires Valid() && session.active.None?
      modifies this
      ensures Valid()
      ensures if CurrentAttempt(old(session), g, a) then session == old(session).(awaiting := true, buffer := [])
              else session == old(session)
    {
      if CurrentAttempt(session, g, a) { session := session.(awaiting := true, buffer := []); }
    }

    /** The start command returns a number. */
    method Started(g: nat, a: nat, id: Option<int>, invalid: TerminalError)
      requires Valid()
      modifies this
      ensures Valid()
      ensures session == if !CurrentAttempt(old(session), g, a) then old(session)
                         else if ValidId(id) then Learn(old(session), id.value)
                         else StartFails(old(session), g, a, invalid)
    {
      if !CurrentAttempt(session, g, a) { return; }
      if !ValidId(id) {
        StartFailed(g, a, invalid);
        return;
      }
      var pending := session.buffer;
      session := session.(active := id, awaiting := false, buffer := []);
      ghost var v := session.view;
      for i := 0 to |pending|
        invariant Valid() && session == old(session).(active := id, awaiting := false, buffer := [], view := session.view)
        invariant ApplyAll(session.view, Of(pending[i..], id.value)) == ApplyAll(v, Of(pending, id.value))
      {
        assert pending[i..][1..] == pending[i + 1..];
        if pending[i].sessionId == id {
          ApplyKeeps(session.view, pending[i].payload);
          assert Of(pending[i..], id.value)[1..] == Of(pending[i + 1..], id.value);
          session := session.(view := Apply(session.view, pending[i].payload));
        } else {
          assert Of(pending[i..], id.value) == Of(pending[i + 1..], id.value);
        }
      }
    }

    method StartFailed(g: nat, a: nat, e: TerminalError)
      requires Valid()
      modifies this
      ensures Valid() && session == StartFails(old(session), g, a, e)
      ensures if CurrentAttempt(old(session), g, a) then ErrorIs(old(session).view, e, session.view)
              else session.view == old(session).view
    {
      session := StartFails(session, g, a, e);
    }

    /** retrySync, up to the wait for the old session to stop. */
    method Retry() returns (started: bool)
      requires Valid()
      modifies this
      ensures Valid()
      ensures started <==>
                && !old(session).retrying && Terminal(old(session).view.status)
                && (old(session).view.status == Error && old(session).view.error.Some? ==>
                      old(session).view.error.value.retry == Manual || old(session).view.error.value.retry == AfterUserAction)
      ensures started ==> session.active.None? && !session.awaiting && !session.view.canDismiss && session.attempt == old(session).attempt + 1
      ensures session.view == old(session).view.(canDismiss := !started && old(session).view.canDismiss)
      ensures started ==> session == old(session).(attempt := session.attempt, retrying := true, view := session.view,
                                                   active := None, awaiting := false, buffer := [])
      ensures !started ==> session == old(session)
    {
      var v := session.view;
      if session.retrying || !Terminal(v.status) { return false; }
      if v.status == Error && v.error.Some? && v.error.value.retry != Manual && v.error.value.retry != AfterUserAction { return false; }
      session := session.(attempt := session.attempt + 1, retrying := true, view := v.(canDismiss := false), active := None,
                          awaiting := false, buffer := []);
      return true;
    }

    /** The old session is stopped: everything it showed is forgotten but the log, and a new attempt begins. No other
        retry can start until RetryEnds says that its start has ended. */
    method RetryStopped(g: nat, a: nat) returns (started: bool)
      requires Valid()
      modifies this
      ensures Valid() && started == CurrentAttempt(old(session), g, a)
      ensures started ==>
                && session.view.status == Connecting && session.view.summary == Summary(0, 0, 0, 0, []) && session.view.error.None?
                && session.view.desktop.None? && session.view.lastConnection == "" && session.attempt == old(session).attempt + 1
                && Adds(old(session).view.logs, old(session).view.nextLog, session.view.logs, "info", Message("retry"))
      ensures !started ==> session == old(session).(retrying := session.retrying)
      ensures session.retrying == (old(session).retrying && (started || !(session.isOpen && g == session.generation)))
    {
      started := CurrentAttempt(session, g, a);
      if started {
        var v := PushLog(session.view, "info", Message("retry"));
        session := session.(view := v.(status := Idle, error := None, desktop := None, summary := NoSummary, lastPhase := "",
                                       lastConnection := "", progressLine := None, progress := NoProgress));
        started := Begin(true);
      } else {
        RetryEnds(g);
      }
    }

    /** The end of a retry, when all of its start has ended, or failed; a retry of an earlier view changes nothing. */
    method RetryEnds(g: nat)
      requires Valid()
      modifies this
      ensures Valid()
      ensures session == if old(session).isOpen && g == old(session).generation then old(session).(retrying := false) else old(session)
    {
      if session.isOpen && g == session.generation { session := session.(retrying := false); }
    }

    /** Stopping the old session fails: an error in any attempt of the view that asked for it, and a retry is possible
        again. */
    method RetryStopFails(g: nat, e: TerminalError)
      requires Valid()
      modifies this
      ensures Valid()
      ensures if old(session).isOpen && g == old(session).generation
              then ErrorIs(old(session).view, e, session.view) && session == old(session).(view := session.view, retrying := false)
              else session == old(session)
    {
      if session.isOpen && g == session.generation {
        session := session.(view := Failed(PushLog(session.view, "error", Message(e.message)), e), retrying := false);
      }
    }

    /** close: only a panel that may be dismissed. */
    method Close() returns (closed: bool)
      requires Valid()
      modifies this
      ensures Valid() && (closed <==> old(session).isOpen && old(session).view.canDismiss)
      ensures closed ==> !session.isOpen && session.active.None? && !session.awaiting
                         && old(session).view.status != Connecting && old(session).view.status != Connected
      ensures closed ==> session.generation == old(session).generation + 1 && session.attempt == old(session).attempt + 1
                         && !session.retrying && session.buffer == [] && session.view == old(session).view.(desktop := None)
      ensures !closed ==> session == old(session)
    {
      if !session.isOpen || !session.view.canDismiss { return false; }
      session := Session(session.view.(desktop := None), None, false, [], session.generation + 1, session.attempt + 1, false, false);
      return true;
    }
  }

  lemma ErrorStays(v: View, p: Payload)
    requires v.status == Error
    ensures Apply(v, p).status == Error
  {
    assert ApplyAll(v, [p]) == ApplyAll(Apply(v, p), []);
    ErrorIsAbsorbing(v, [p]);
  }
}
