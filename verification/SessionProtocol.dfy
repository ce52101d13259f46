/** The distributed node's connection: start, stop and the connection loop interleave against one status. */
module SessionProtocol {
  import opened Wrappers

  datatype ConnectionState = Disconnected | Connecting | Connected | Disconnecting

  datatype Status = Status(state: ConnectionState, connected: bool, serverId: Option<string>, clientId: Option<string>,
                           lastError: Option<string>, registeredTools: nat, sessionId: nat)

  /** Session ids are 64 bits wide and wrap around. */
  const IDS: nat := 0x1_0000_0000_0000_0000

  function Successor(id: nat): nat { (id + 1) % IDS }

  /** Where a connection loop stands. Closing: its last status update is behind it. */
  datatype LoopStep =
    | Head | Dialling | InSession | Publishing | Ended(reason: string, immediately: bool) | Failed | Pausing | Leaving
    | Closing | Gone

  datatype Loop = Loop(id: nat, cancelled: bool, step: LoopStep)

  /** Who holds the lifecycle lock, and where it stands. A loop is named by its position in loops. */
  datatype Holder =
    | Free
    | StartTakes(id: nat) | StartAwaits(id: nat, task: nat) | StartChecks(id: nat) | StartRechecks(id: nat)
    | StartSpawns(id: nat) | StartInstalls(id: nat, task: nat)
    | StopTakes(id: nat) | StopAwaits(id: nat, task: nat) | StopFinishes(id: nat)

  datatype Client = Client(status: Status, holder: Holder, session: Option<nat>, loops: seq<Loop>)

  const Idle := Client(Status(Disconnected, false, None, None, None, 0, 0), Free, None, [])

  /** The atomic steps. The lifecycle ones advance whoever holds the lock; the others advance loop h. */
  datatype Action =
    | StartRefused(error: string) | Start | Stop | Lifecycle
    | LoopStarts(h: nat)
    | Dialled(h: nat) | DialFailed(h: nat, error: string) | DialCancelled(h: nat)
    | Acknowledged(h: nat, server: string, client: string) | Published(h: nat, count: nat) | PublishFailed(h: nat)
    | SessionEnds(h: nat, reason: string, immediately: bool)
    | LoopReports(h: nat) | Pauses(h: nat) | Wakes(h: nat) | PauseCancelled(h: nat) | Exits(h: nat)

  function Emptied(s: Status, state: ConnectionState): Status {
    s.(state := state, connected := false, serverId := None, clientId := None, registeredTools := 0)
  }

  predicate Alive(s: Client, h: nat) { h < |s.loops| && s.loops[h].step != Gone }

  // ---- start and stop

  function DoStart(s: Client): Client {
    if s.holder != Free || s.status.state == Connected || s.status.state == Connecting then s
    else
      var id := Successor(s.status.sessionId);
      s.(status := Emptied(s.status, Connecting).(lastError := None, sessionId := id), holder := StartTakes(id))
  }

  function DoStop(s: Client): Client {
    if s.holder != Free then s
    else
      var running := s.status.state != Disconnected || s.status.connected;
      var id := Successor(s.status.sessionId);
      s.(status := Emptied(s.status, if running then Disconnecting else Disconnected).(sessionId := id), holder := StopTakes(id))
  }

  function Cancelled(s: Client, h: nat): Client {
    if h < |s.loops| then s.(loops := s.loops[h := s.loops[h].(cancelled := true)]) else s
  }

  /** The session handle is taken out and its loop told to end. */
  function Taken(s: Client, awaiting: Holder, without: Holder): Client {
    if s.session.Some? then Cancelled(s, s.session.value).(session := None, holder := awaiting)
    else s.(holder := without)
  }

  predicate OwnsStart(s: Client, id: nat) { s.status.state == Connecting && s.status.sessionId == id }

  function DoLifecycle(s: Client): Client {
    match s.holder
    case Free => s
    case StartTakes(id) => Taken(s, StartAwaits(id, if s.session.Some? then s.session.value else 0), StartChecks(id))
    case StartAwaits(id, task) => if Alive(s, task) then s else s.(holder := StartChecks(id))
    case StartChecks(id) => s.(holder := if OwnsStart(s, id) then StartRechecks(id) else Free)
    case StartRechecks(id) => s.(holder := if OwnsStart(s, id) then StartSpawns(id) else Free)
    case StartSpawns(id) => s.(loops := s.loops + [Loop(id, false, Head)], holder := StartInstalls(id, |s.loops|))
    case StartInstalls(id, task) => s.(session := Some(task), holder := Free)
    case StopTakes(id) => Taken(s, StopAwaits(id, if s.session.Some? then s.session.value else 0), StopFinishes(id))
    case StopAwaits(id, task) => if Alive(s, task) then s else s.(holder := StopFinishes(id))
    case StopFinishes(id) =>
      s.(status := if s.status.sessionId == id then Emptied(s.status, Disconnected) else s.status, holder := Free)
  }

  // ---- The connection loop

  function Moved(s: Client, h: nat, step: LoopStep): Client
    requires h < |s.loops|
  {
    s.(loops := s.loops[h := s.loops[h].(step := step)])
  }

  /** The loop still owns the status. */
  predicate Owns(s: Client, h: nat)
    requires h < |s.loops|
  {
    s.loops[h].id == s.status.sessionId
  }

  function Reconnecting(s: Status): ConnectionState { if s.state != Disconnecting then Connecting else Disconnecting }

  /** commit_connection_ack */
  function Committed(s: Client, h: nat, server: string, client: string): Client
    requires h < |s.loops|
  {
    if !Owns(s, h) then s
    else
      Moved(s, h, Publishing).(status := s.status.(state := Connected, connected := true, serverId := Some(server),
                                                   clientId := Some(client), lastError := None))
  }

  /** Before and while a connection is made. */
  function Connects(s: Client, h: nat, a: Action): Client
    requires h < |s.loops|
  {
    var l, st := s.loops[h], s.status;
    if l.step == Head && a.LoopStarts? then Moved(s, h, if l.cancelled then Leaving else Dialling)
    else if l.step == Dialling && a.Dialled? then Moved(s, h, InSession)
    else if l.step == Dialling && a.DialFailed? then
      Moved(s, h, Failed).(status := if Owns(s, h) then st.(state := Reconnecting(st), connected := false, registeredTools := 0,
                                                            lastError := Some(a.error))
                                     else st)
    else if l.step == Dialling && a.DialCancelled? && l.cancelled then Moved(s, h, Leaving)
    else s
  }

  /** While the session lasts. */
  function Talks(s: Client, h: nat, a: Action): Client
    requires h < |s.loops|
  {
    var l, st := s.loops[h], s.status;
    if l.step == InSession && a.Acknowledged? then Committed(s, h, a.server, a.client)
    else if l.step == InSession && a.SessionEnds? then Moved(s, h, Ended(a.reason, a.immediately))
    else if l.step == Publishing && a.Published? then
      Moved(s, h, InSession).(status := if Owns(s, h) then st.(registeredTools := a.count) else st)
    else if l.step == Publishing && a.PublishFailed? then Moved(s, h, InSession)
    else s
  }

  /** After a session or a failed connection. */
  function Resumes(s: Client, h: nat, a: Action): Client
    requires h < |s.loops|
  {
    var l, st := s.loops[h], s.status;
    if l.step.Ended? && a.LoopReports? then
      Moved(s, h, if l.step.immediately && !l.cancelled then Head else Failed).(
        status := if Owns(s, h)
                  then Emptied(st, Reconnecting(st)).(lastError := if l.step.immediately then None else Some(l.step.reason))
                  else st)
    else if l.step == Failed && a.Pauses? then Moved(s, h, if l.cancelled then Leaving else Pausing)
    else if l.step == Pausing && a.Wakes? then Moved(s, h, Head)
    else if l.step == Pausing && a.PauseCancelled? && l.cancelled then Moved(s, h, Leaving)
    else s
  }

  /** On the way out. */
  function Departs(s: Client, h: nat, a: Action): Client
    requires h < |s.loops|
  {
    if s.loops[h].step == Leaving && a.LoopReports? then
      Moved(s, h, Closing).(status := if Owns(s, h) then Emptied(s.status, Disconnected) else s.status)
    else if s.loops[h].step == Closing && a.Exits? then Moved(s, h, Gone)
    else s
  }

  function DoLoop(s: Client, h: nat, a: Action): Client
    requires h < |s.loops|
  {
    match s.loops[h].step
    case Head => Connects(s, h, a)
    case Dialling => Connects(s, h, a)
    case InSession => Talks(s, h, a)
    case Publishing => Talks(s, h, a)
    case Leaving => Departs(s, h, a)
    case Closing => Departs(s, h, a)
    case Gone => s
    case _ => Resumes(s, h, a)
  }

  /** One atomic step; a step that is not enabled changes nothing. */
  function Step(s: Client, a: Action): Client {
    match a
    case StartRefused(e) => if s.holder == Free then s.(status := s.status.(lastError := Some(e))) else s
    case Start => DoStart(s)
    case Stop => DoStop(s)
    case Lifecycle => DoLifecycle(s)
    case _ => if a.h < |s.loops| then DoLoop(s, a.h, a) else s
  }

  function Run(s: Client, actions: seq<Action>): Client {
    if actions == [] then s else Step(Run(s, actions[..|actions| - 1]), actions[|actions| - 1])
  }

  // ---- What every step keeps

  /** The one loop that may be alive. */
  function Current(s: Client): Option<nat> {
    match s.holder
    case StartAwaits(_, task) => Some(task)
    case StopAwaits(_, task) => Some(task)
    case StartInstalls(_, task) => Some(task)
    case _ => s.session
  }

  ghost predicate OneLoop(s: Client) {
    && (forall h: nat :: Alive(s, h) ==> Current(s) == Some(h))
    && (Current(s).Some? ==> Current(s).value < |s.loops|)
    && (s.holder.StartAwaits? || s.holder.StopAwaits? || s.holder.StartInstalls? ==> s.session.None?)
  }

  predicate InTouch(l: Loop) { l.step == InSession || l.step == Publishing || l.step.Ended? }

  predicate CurrentInTouch(s: Client) {
    Current(s).Some? && Current(s).value < |s.loops| && InTouch(s.loops[Current(s).value])
  }

  /** The parts of the status agree, and a connected status has its loop in touch with the server. */
  ghost predicate Consistent(s: Client) {
    var st := s.status;
    && st.sessionId < IDS
    && (st.connected <==> st.state == Connected) && (st.connected <==> st.serverId.Some?) && (st.connected <==> st.clientId.Some?)
    && (st.registeredTools > 0 ==> st.connected)
    && (st.connected ==> (s.holder.Free? || s.holder.StartInstalls?) && CurrentInTouch(s))
    && (forall h: nat :: Alive(s, h) && s.loops[h].step == Publishing && Owns(s, h) ==> st.connected)
  }

  /** Who holds the lock, what the status says, and whose loop runs. */
  predicate Orderly(s: Client) {
    match s.holder
    case Free => if s.session.Some? then Installed(s, s.session.value) else s.status.state == Disconnected
    case StartInstalls(id, task) => s.status.sessionId == id && Installed(s, task)
    case StartTakes(id) => OwnsStart(s, id) && s.session.None?
    case StartAwaits(_, _) => false
    case StartChecks(id) => OwnsStart(s, id) && s.session.None?
    case StartRechecks(id) => OwnsStart(s, id) && s.session.None?
    case StartSpawns(id) => OwnsStart(s, id) && s.session.None?
    case StopTakes(id) => ShuttingDown(s, id) && (s.session.Some? ==> Disowned(s, s.session.value))
    case StopAwaits(id, task) => ShuttingDown(s, id) && Disowned(s, task) && s.loops[task].cancelled
    case StopFinishes(id) => ShuttingDown(s, id) && s.session.None?
  }

  predicate ShuttingDown(s: Client, id: nat) {
    s.status.sessionId == id && (s.status.state == Disconnecting || s.status.state == Disconnected)
  }

  predicate Installed(s: Client, h: nat) {
    && h < |s.loops| && s.loops[h].id == s.status.sessionId && !s.loops[h].cancelled
    && (s.status.state == Connecting || s.status.state == Connected)
    && s.loops[h].step != Leaving && s.loops[h].step != LoopStep.Closing && s.loops[h].step != Gone
  }

  predicate Disowned(s: Client, h: nat) { h < |s.loops| && s.loops[h].id < IDS && Successor(s.loops[h].id) == s.status.sessionId }

  ghost predicate Safe(s: Client) {
    && OneLoop(s)
    && Consistent(s)
    && Orderly(s)
  }

  lemma LifecycleKeeps(s: Client)
    requires Safe(s)
    ensures Safe(DoLifecycle(s))
  {
    var r := DoLifecycle(s);
    forall h: nat | Alive(r, h) ensures Current(r) == Some(h) { if h < |s.loops| { assert Alive(s, h); } }
  }

  lemma StillOne(s: Client, h: nat, r: Client)
    requires OneLoop(s) && h < |s.loops| == |r.loops| && s.loops[h].step != Gone
    requires r.holder == s.holder && r.session == s.session && r.loops == s.loops[h := r.loops[h]]
    ensures OneLoop(r) && Current(r) == Current(s) == Some(h)
  {
    assert Alive(s, h);
    forall k: nat | Alive(r, k) ensures Current(r) == Some(k) { assert Alive(s, k); }
  }

  lemma ConnectsKeeps(s: Client, h: nat, a: Action)
    requires Safe(s) && h < |s.loops| && s.loops[h].step != Gone
    ensures Safe(Connects(s, h, a))
  {
    StillOne(s, h, Connects(s, h, a));
  }

  lemma TalksKeeps(s: Client, h: nat, a: Action)
    requires Safe(s) && h < |s.loops| && s.loops[h].step != Gone
    ensures Safe(Talks(s, h, a))
  {
    StillOne(s, h, Talks(s, h, a));
  }

  lemma ResumesKeeps(s: Client, h: nat, a: Action)
    requires Safe(s) && h < |s.loops| && s.loops[h].step != Gone
    ensures Safe(Resumes(s, h, a))
  {
    StillOne(s, h, Resumes(s, h, a));
  }

  lemma DepartsKeeps(s: Client, h: nat, a: Action)
    requires Safe(s) && h < |s.loops| && s.loops[h].step != Gone
    ensures Safe(Departs(s, h, a))
  {
    StillOne(s, h, Departs(s, h, a));
  }

  lemma LoopKeeps(s: Client, h: nat, a: Action)
    requires Safe(s) && h < |s.loops|
    ensures Safe(DoLoop(s, h, a))
  {
    if s.loops[h].step != Gone {
      ConnectsKeeps(s, h, a);
      TalksKeeps(s, h, a);
      ResumesKeeps(s, h, a);
      DepartsKeeps(s, h, a);
    }
  }

  /** Whatever the interleaving. */
  lemma {:induction false} RunIsSafe(actions: seq<Action>)
    ensures Safe(Run(Idle, actions))
  {
    if actions != [] {
      var n := |actions| - 1;
      RunIsSafe(actions[..n]);
      var s, a := Run(Idle, actions[..n]), actions[n];
      LifecycleKeeps(s);
      if !(a.StartRefused? || a.Start? || a.Stop? || a.Lifecycle?) && a.h < |s.loops| {
        LoopKeeps(s, a.h, a);
      }
    }
  }

  // ---- What that means

  /** At most one loop is alive; connected is the same as the state Connected, and holds only while that loop
      is in touch with the server; tools are registered only while connected. */
  lemma OneLoopOneStatus(actions: seq<Action>, h: nat, k: nat)
    ensures var s := Run(Idle, actions);
            && (Alive(s, h) && Alive(s, k) ==> h == k)
            && (s.status.connected <==> s.status.state == Connected)
            && (s.status.registeredTools > 0 ==> s.status.connected)
            && (s.status.connected ==> CurrentInTouch(s) && Owns(s, Current(s).value))
  {
    RunIsSafe(actions);
  }

  // ---- What the status tells

  /** The loop that tells it owns the status. */
  predicate Heard(s: Client, h: nat, step: LoopStep) {
    h < |s.loops| && s.loops[h].step == step && s.loops[h].id == s.status.sessionId
  }

  /** An acknowledgement, or a registration, that reaches the owning loop where it waits for one. */
  predicate Acknowledges(s: Client, a: Action) { a.Acknowledged? && Heard(s, a.h, InSession) }

  predicate Registers(s: Client, a: Action) { a.Published? && Heard(s, a.h, Publishing) }

  /** The last acknowledgement of the run that reached the owning loop. */
  function LastAck(actions: seq<Action>): Option<(string, string)> {
    if actions == [] then None
    else
      var n := |actions| - 1;
      if Acknowledges(Run(Idle, actions[..n]), actions[n]) then Some((actions[n].server, actions[n].client))
      else LastAck(actions[..n])
  }

  /** The tools published last, since the connection was made. */
  function LastCount(actions: seq<Action>): nat {
    if actions == [] then 0
    else
      var n := |actions| - 1;
      var s, a := Run(Idle, actions[..n]), actions[n];
      if Registers(s, a) then a.count
      else if Acknowledges(s, a) && s.status.state != Connected then 0
      else LastCount(actions[..n])
  }

  /** What the action says about errors, if it says anything: no error, or which. */
  function Told(s: Client, a: Action): Option<Option<string>> {
    match a
    case StartRefused(error) => if s.holder == Free then Some(Some(error)) else None
    case Start => if s.holder == Free && !(s.status.state == Connected || s.status.state == Connecting) then Some(None) else None
    case Acknowledged(_, _, _) => if Acknowledges(s, a) then Some(None) else None
    case DialFailed(h, error) => if Heard(s, h, Dialling) then Some(Some(error)) else None
    case LoopReports(h) =>
      if h < |s.loops| && s.loops[h].step.Ended? && s.loops[h].id == s.status.sessionId
      then Some(if s.loops[h].step.immediately then None else Some(s.loops[h].step.reason)) else None
    case _ => None
  }

  function LastTold(actions: seq<Action>): Option<string> {
    if actions == [] then None
    else
      var n := |actions| - 1;
      var told := Told(Run(Idle, actions[..n]), actions[n]);
      if told.Some? then told.value else LastTold(actions[..n])
  }

  /** An acknowledgement connects, to the server and as the client that it names; a registration brings its tools. */
  lemma StepLinks(s: Client, a: Action)
    requires Safe(s)
    ensures var st, r := s.status, Step(s, a).status;
            && (Acknowledges(s, a) ==>
                  r.state == Connected && r.serverId == Some(a.server) && r.clientId == Some(a.client) && r.lastError.None?
                  && r.registeredTools == st.registeredTools)
            && (Registers(s, a) ==> r == st.(registeredTools := a.count))
  {}

  /** Nothing else connects. */
  lemma OnlyAckConnects(s: Client, a: Action)
    requires !Acknowledges(s, a)
    ensures Step(s, a).status.state == Connected ==> s.status.state == Connected
  {}

  /** Nothing else changes the ids or the tools of a connection that stays. */
  lemma StepKeepsLink(s: Client, a: Action)
    requires s.status.state == Connected && !Acknowledges(s, a) && Step(s, a).status.state == Connected
    ensures var st, r := s.status, Step(s, a).status;
            r.serverId == st.serverId && r.clientId == st.clientId && (!Registers(s, a) ==> r.registeredTools == st.registeredTools)
  {}

  lemma StepTells(s: Client, a: Action)
    ensures Step(s, a).status.lastError == if Told(s, a).Some? then Told(s, a).value else s.status.lastError
  {}

  /** Whatever the interleaving: connected, the status names the server and the client of the last acknowledgement that
      reached the owning loop, and the tools published last since then; and its error is the last one told. */
  lemma {:induction false} StatusTellsLast(actions: seq<Action>)
    ensures var st := Run(Idle, actions).status;
            && st.lastError == LastTold(actions)
            && (st.connected ==> LastAck(actions).Some? && st.serverId == Some(LastAck(actions).value.0)
                                 && st.clientId == Some(LastAck(actions).value.1) && st.registeredTools == LastCount(actions))
            && (!st.connected ==> st.serverId.None? && st.clientId.None? && st.registeredTools == 0)
  {
    RunIsSafe(actions);
    if actions != [] {
      var n := |actions| - 1;
      StatusTellsLast(actions[..n]);
      RunIsSafe(actions[..n]);
      var s, a := Run(Idle, actions[..n]), actions[n];
      StepLinks(s, a);
      if !Acknowledges(s, a) { OnlyAckConnects(s, a); }
      if s.status.state == Connected && !Acknowledges(s, a) && Step(s, a).status.state == Connected { StepKeepsLink(s, a); }
      StepTells(Run(Idle, actions[..n]), actions[n]);
    }
  }

  /** Where a loop stands after an action of its own: it dials unless it is cancelled, talks once it has dialled, publishes
      once it is acknowledged, pauses after every end but one that asks for an immediate return, and leaves only when it
      is cancelled. Every other action leaves it where it is. */
  function NextStep(l: Loop, a: Action): LoopStep {
    match (l.step, a)
    case (Head, LoopStarts(_)) => if l.cancelled then Leaving else Dialling
    case (Dialling, Dialled(_)) => InSession
    case (Dialling, DialFailed(_, _)) => Failed
    case (Dialling, DialCancelled(_)) => if l.cancelled then Leaving else Dialling
    case (InSession, SessionEnds(_, reason, immediately)) => Ended(reason, immediately)
    case (Publishing, Published(_, _)) => InSession
    case (Publishing, PublishFailed(_)) => InSession
    case (Ended(_, immediately), LoopReports(_)) => if immediately && !l.cancelled then Head else Failed
    case (Failed, Pauses(_)) => if l.cancelled then Leaving else Pausing
    case (Pausing, Wakes(_)) => Head
    case (Pausing, PauseCancelled(_)) => if l.cancelled then Leaving else Pausing
    case (Leaving, LoopReports(_)) => LoopStep.Closing
    case (Closing, Exits(_)) => Gone
    case _ => l.step
  }

  /** Loop h takes this step; no other loop, and nothing of the lifecycle, moves. */
  predicate Goes(s: Client, h: nat, to: LoopStep, r: Client)
    requires h < |s.loops|
  {
    r == s.(status := r.status, loops := s.loops[h := s.loops[h].(step := to)])
  }

  lemma ConnectingGoes(s: Client, h: nat, a: Action)
    requires h < |s.loops| && (s.loops[h].step == Head || s.loops[h].step == Dialling)
    ensures Goes(s, h, NextStep(s.loops[h], a), Connects(s, h, a))
  {
    assert s.loops[h := s.loops[h]] == s.loops;
  }

  lemma TalkingGoes(s: Client, h: nat, a: Action)
    requires h < |s.loops| && (s.loops[h].step == InSession || s.loops[h].step == Publishing)
    requires a.Acknowledged? ==> a.h == h
    ensures Goes(s, h, if Acknowledges(s, a) then Publishing else NextStep(s.loops[h], a), Talks(s, h, a))
  {
    assert s.loops[h := s.loops[h]] == s.loops;
  }

  lemma ResumingGoes(s: Client, h: nat, a: Action)
    requires h < |s.loops| && (s.loops[h].step.Ended? || s.loops[h].step == Failed || s.loops[h].step == Pausing)
    ensures Goes(s, h, NextStep(s.loops[h], a), Resumes(s, h, a))
  {
    assert s.loops[h := s.loops[h]] == s.loops;
  }

  lemma DepartingGoes(s: Client, h: nat, a: Action)
    requires h < |s.loops| && (s.loops[h].step == Leaving || s.loops[h].step == LoopStep.Closing)
    ensures Goes(s, h, NextStep(s.loops[h], a), Departs(s, h, a))
  {
    assert s.loops[h := s.loops[h]] == s.loops;
  }

  /** After an acknowledgement the loop publishes only if it still owns the status; otherwise it goes where NextStep says,
      and it alone. */
  lemma LoopGoes(s: Client, a: Action)
    requires !a.Start? && !a.Stop? && !a.Lifecycle? && !a.StartRefused? && a.h < |s.loops|
    ensures Goes(s, a.h, if Acknowledges(s, a) then Publishing else NextStep(s.loops[a.h], a), Step(s, a))
  {
    hide Connects, Talks, Resumes, Departs;
    match s.loops[a.h].step
    case Head => ConnectingGoes(s, a.h, a);
    case Dialling => ConnectingGoes(s, a.h, a);
    case InSession => TalkingGoes(s, a.h, a);
    case Publishing => TalkingGoes(s, a.h, a);
    case Leaving => DepartingGoes(s, a.h, a);
    case Closing => DepartingGoes(s, a.h, a);
    case Gone => assert s.loops[a.h := s.loops[a.h]] == s.loops;
    case _ => ResumingGoes(s, a.h, a);
  }

  /** What the loop that owns the status tells: a failed connection and the end of a session that it is connecting again,
      unless it is being stopped, and its own end that it is disconnected. No other loop tells anything. */
  lemma LoopTells(s: Client, a: Action)
    requires !a.Start? && !a.Stop? && !a.Lifecycle? && !a.StartRefused? && a.h < |s.loops|
    ensures var l, st, r := s.loops[a.h], s.status, Step(s, a).status;
            if l.id != st.sessionId then r == st
            else
              && r.sessionId == st.sessionId
              && r.state == if Acknowledges(s, a) then Connected
                            else if (l.step.Dialling? && a.DialFailed?) || (l.step.Ended? && a.LoopReports?) then
                              if st.state == Disconnecting then Disconnecting else Connecting
                            else if l.step.Leaving? && a.LoopReports? then Disconnected
                            else st.state
  {}

  /** What start and stop tell at once: start that it is connecting, in a new session, unless it is already or the lock
      is taken; stop that it is disconnecting, unless nothing was connected. */
  lemma LifecycleTells(s: Client)
    requires Safe(s)
    ensures var st, r := s.status, Step(s, Start);
            if s.holder.Free? && (st.state == Disconnected || st.state == Disconnecting)
            then r.status.state == Connecting && r.status.lastError.None? && r.status.sessionId == (st.sessionId + 1) % 0x1_0000_0000_0000_0000
                 && r.holder == StartTakes(r.status.sessionId) && r.loops == s.loops
            else r == s
    ensures var st, r := s.status, Step(s, Stop);
            if s.holder.Free?
            then r.status.state == (if st.state == Disconnected then Disconnected else Disconnecting)
                 && r.status.sessionId == (st.sessionId + 1) % 0x1_0000_0000_0000_0000 && r.status.lastError == st.lastError
                 && r.holder == StopTakes(r.status.sessionId) && r.loops == s.loops
            else r == s
  {}

  /** An acknowledgement of a loop that lost the status to a newer generation changes nothing. */
  lemma StaleAckIgnored(s: Client, a: Action)
    requires a.Acknowledged? && !Acknowledges(s, a)
    ensures Step(s, a).status == s.status && (a.h < |s.loops| && s.loops[a.h].step == InSession ==> Step(s, a) == s)
  {}

  /** When stop is done, no loop is alive and nothing is left of the connection. */
  lemma StopLeavesNothing(actions: seq<Action>, h: nat)
    requires Run(Idle, actions).holder.StopFinishes?
    ensures var r := Step(Run(Idle, actions), Lifecycle);
            && r.holder == Free && r.session == None && !Alive(r, h)
            && r.status.state == Disconnected && !r.status.connected && r.status.registeredTools == 0
            && r.status.serverId.None? && r.status.clientId.None?
  {
    RunIsSafe(actions);
    var s := Run(Idle, actions);
    assert Alive(s, h) ==> Current(s) == Some(h);
  }

  /** From the moment stop has taken the generation, no loop can write the status: an acknowledgement or a
      registration that comes late is ignored. */
  lemma StoppingIsUndisturbed(actions: seq<Action>, h: nat, a: Action)
    requires var s := Run(Idle, actions); s.holder.StopTakes? || s.holder.StopAwaits? || s.holder.StopFinishes?
    requires h < |Run(Idle, actions).loops|
    ensures DoLoop(Run(Idle, actions), h, a).status == Run(Idle, actions).status
  {
    RunIsSafe(actions);
    LoopsLeaveStatus(Run(Idle, actions), h, a);
  }

  lemma LoopsLeaveStatus(s: Client, h: nat, a: Action)
    requires Safe(s) && (s.holder.StopTakes? || s.holder.StopAwaits? || s.holder.StopFinishes?) && h < |s.loops|
    ensures DoLoop(s, h, a).status == s.status
  {
    if Alive(s, h) {
    }
  }

  /** Under the lifecycle lock start never finds an old session to wait for, and neither of its two checks
      can fail. */
  lemma StartIsUndisturbed(actions: seq<Action>)
    ensures var s := Run(Idle, actions);
            && !s.holder.StartAwaits?
            && (s.holder.StartTakes? ==> Step(s, Lifecycle).holder == StartChecks(s.holder.id))
            && (s.holder.StartChecks? ==> Step(s, Lifecycle).holder == StartRechecks(s.holder.id))
            && (s.holder.StartRechecks? ==> Step(s, Lifecycle).holder == StartSpawns(s.holder.id))
  {
    RunIsSafe(actions);
  }

  lemma SuccessorIsNext(id: nat)
    requires id + 1 < IDS
    ensures Successor(id) == id + 1
  {}

  lemma LoopKeepsId(s: Client, h: nat, a: Action)
    requires h < |s.loops|
    ensures DoLoop(s, h, a).status.sessionId == s.status.sessionId
  {}

  lemma StepId(s: Client, a: Action)
    ensures var id := Step(s, a).status.sessionId; id == s.status.sessionId || id == Successor(s.status.sessionId)
  {
    if !(a.StartRefused? || a.Start? || a.Stop? || a.Lifecycle?) && a.h < |s.loops| { LoopKeepsId(s, a.h, a); }
  }

  /** Session ids only grow, for as long as 64 bits last. */
  lemma {:induction false} IdsOnlyGrow(s: Client, actions: seq<Action>)
    requires s.status.sessionId + |actions| < IDS
    ensures s.status.sessionId <= Run(s, actions).status.sessionId <= s.status.sessionId + |actions|
  {
    if actions != [] {
      var n := |actions| - 1;
      IdsOnlyGrow(s, actions[..n]);
      StepId(Run(s, actions[..n]), actions[n]);
      SuccessorIsNext(Run(s, actions[..n]).status.sessionId);
    }
  }

  // ---- A cancelled loop can always leave

  function WayOut(h: nat, step: LoopStep): Action {
    match step
    case Head => LoopStarts(h)
    case Dialling => DialCancelled(h)
    case InSession => SessionEnds(h, "shutdown", false)
    case Publishing => PublishFailed(h)
    case Ended(_, _) => LoopReports(h)
    case Failed => Pauses(h)
    case Pausing => PauseCancelled(h)
    case Leaving => LoopReports(h)
    case _ => Exits(h)
  }

  function StepsLeft(step: LoopStep): nat {
    match step
    case Gone => 0
    case Closing => 1
    case Leaving => 2
    case Head => 3
    case Dialling => 3
    case Failed => 3
    case Pausing => 3
    case Ended(_, _) => 4
    case InSession => 5
    case Publishing => 6
  }

  lemma {:induction false} RunCons(s: Client, a: Action, rest: seq<Action>)
    ensures Run(s, [a] + rest) == Run(Step(s, a), rest)
    decreases |rest|
  {
    var all := [a] + rest;
    if rest == [] {
      assert all[..0] == [] && all[0] == a;
    } else {
      var n := |rest| - 1;
      assert all[..n + 1] == [a] + rest[..n];
      RunCons(s, a, rest[..n]);
    }
  }

  /** Wherever it stands, and whatever else went on before, at most six steps of its own end a cancelled loop;
      so what stop waits for can come. */
  lemma {:induction false} CancelledLoopCanLeave(s: Client, h: nat) returns (way: seq<Action>)
    requires h < |s.loops| && s.loops[h].cancelled
    ensures |way| <= StepsLeft(s.loops[h].step) <= 6 && !Alive(Run(s, way), h)
    decreases StepsLeft(s.loops[h].step)
  {
    if !Alive(s, h) {
      way := [];
    } else {
      var a := WayOut(h, s.loops[h].step);
      var rest := CancelledLoopCanLeave(Step(s, a), h);
      way := [a] + rest;
      RunCons(s, a, rest);
    }
  }
}
