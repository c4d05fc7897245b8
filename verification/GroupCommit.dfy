// The whole coordinator (internal/groupcommit/coordinator.go): callers inside Submit, one
// worker per boundary and Close, in any interleaving.
module GroupCommit {
  import opened Common
  import opened Ordering
  import opened GroupCommitLane

  // Where a Submit call stands: past the early checks, holding the registry lock, past the
  // check under the lock, waiting for room in the queue, admitted, or returned unadmitted.
  datatype Caller = Arrived | Locking | Checked | Sending | Admitted | Left

  // Where Close stands: not called, closed signalled, queues collected under the lock,
  // closing the queues of `names`, waiting for the workers, returned.
  datatype Closer = Open | Signalled | Collected(names: set<string>) | Shutting(names: set<string>) | Joining | Done

  datatype State = State(
    closer: Closer,
    lock: Option<Request>,
    callers: map<Request, Caller>,
    cancelled: set<Request>,
    lanes: map<string, Lane>)

  const INITIAL := State(Open, None, map[], {}, map[])

  predicate Closed(s: State) {
    !s.closer.Open?
  }

  predicate At(s: State, r: Request, stage: Caller) {
    r in s.callers && s.callers[r] == stage
  }

  predicate NoSenders(s: State) {
    forall r :: r in s.callers ==> s.callers[r] != Sending
  }

  datatype Step =
    | Begin(r: Request)
    | Cancel(r: Request)
    | Lock(r: Request)
    | FindClosed(r: Request)
    | PassCheck(r: Request)
    | Register(r: Request)
    | Enqueue(r: Request)
    | GiveUp(r: Request)
    | Work(name: string, step: LaneStep)
    | Signal
    | Collect
    | AwaitSenders
    | ShutQueue(name: string)
    | FinishShutting
    | Join

  predicate Enabled(c: Config, s: State, step: Step) {
    match step
    case Begin(r) => r !in s.callers && !Closed(s) && r !in s.cancelled && r.events > 0
    case Cancel(_) => true
    case Lock(r) => At(s, r, Arrived) && s.lock == None
    case FindClosed(r) => At(s, r, Locking) && Closed(s)
    case PassCheck(r) => At(s, r, Locking) && !Closed(s)
    case Register(r) => At(s, r, Checked)
    // Sending on a queue that Close has shut would panic; nothing here prevents it.
    case Enqueue(r) => At(s, r, Sending) && r.boundary in s.lanes && |s.lanes[r.boundary].queue| < c.maxPending
    case GiveUp(r) => At(s, r, Sending) && (r in s.cancelled || Closed(s))
    case Work(name, step) => name in s.lanes && LaneEnabled(c, Closed(s), s.cancelled, s.lanes[name], step)
    case Signal => s.closer == Open
    case Collect => s.closer == Signalled && s.lock == None
    case AwaitSenders => s.closer.Collected? && NoSenders(s)
    case ShutQueue(name) => s.closer.Shutting? && name in s.closer.names && name in s.lanes
    case FinishShutting => s.closer == Shutting({})
    case Join => s.closer == Joining && forall name :: name in s.lanes ==> s.lanes[name].worker == Exited
  }

  function Moved(s: State, r: Request, stage: Caller): State {
    s.(callers := s.callers[r := stage])
  }

  function Admit(lane: Lane, r: Request): Lane {
    lane.(queue := lane.queue + [r], admitted := lane.admitted + [r])
  }

  function WithLane(s: State, name: string, lane: Lane): State {
    s.(lanes := s.lanes[name := lane])
  }

  function Apply(c: Config, s: State, step: Step): State
    requires Enabled(c, s, step)
  {
    match step
    case Begin(r) => Moved(s, r, Arrived)
    case Cancel(r) => s.(cancelled := s.cancelled + {r})
    case Lock(r) => Moved(s, r, Locking).(lock := Some(r))
    case FindClosed(r) => Moved(s, r, Left).(lock := None)
    case PassCheck(r) => Moved(s, r, Checked)
    case Register(r) =>
      var t := Moved(s, r, Sending).(lock := None);
      if r.boundary in s.lanes then t else WithLane(t, r.boundary, NEW_LANE)
    case Enqueue(r) => WithLane(Moved(s, r, Admitted), r.boundary, Admit(s.lanes[r.boundary], r))
    case GiveUp(r) => Moved(s, r, Left)
    case Work(name, step) => WithLane(s, name, LaneApply(c, Closed(s), s.cancelled, s.lanes[name], step))
    case Signal => s.(closer := Signalled)
    case Collect => s.(closer := Collected(s.lanes.Keys))
    case AwaitSenders => s.(closer := Shutting(s.closer.names))
    case ShutQueue(name) =>
      WithLane(s.(closer := Shutting(s.closer.names - {name})), name, s.lanes[name].(shut := true))
    case FinishShutting => s.(closer := Joining)
    case Join => s.(closer := Done)
  }

  // A run takes each step that is possible when its turn comes.
  function Run(c: Config, steps: seq<Step>): State {
    if steps == [] then INITIAL
    else
      var s, step := Run(c, steps[..|steps| - 1]), steps[|steps| - 1];
      if Enabled(c, s, step) then Apply(c, s, step) else s
  }

  // ---- The invariant ----

  ghost predicate LanesKept(c: Config, s: State) {
    forall name :: name in s.lanes ==> LaneInv(c, Closed(s), s.cancelled, s.lanes[name])
  }

  // A boundary's admitted requests are its own, and past Sending.
  ghost predicate OwnRequests(s: State, name: string)
    requires name in s.lanes
  {
    forall r :: r in s.lanes[name].admitted ==> r.boundary == name && At(s, r, Admitted)
  }

  ghost predicate LockHeld(s: State) {
    && (s.lock.Some? ==> s.lock.value in s.callers)
    && forall r :: r in s.callers ==> ((s.callers[r] == Locking || s.callers[r] == Checked) <==> s.lock == Some(r))
  }

  ghost predicate SendersKnown(s: State) {
    forall r :: r in s.callers && s.callers[r] == Sending ==> r.boundary in s.lanes
  }

  // Close has shut this queue already.
  predicate ShutBy(closer: Closer, name: string) {
    (closer.Shutting? && name !in closer.names) || closer.Joining? || closer.Done?
  }

  // Nobody registers once Close has collected the queues, and nobody sends once it shuts them.
  ghost predicate ClosingInOrder(s: State) {
    && (forall r :: r in s.callers && s.callers[r] == Checked ==> s.closer.Open? || s.closer.Signalled?)
    && (s.closer.Shutting? || s.closer.Joining? || s.closer.Done? ==> NoSenders(s))
    && (s.closer.Collected? ==> s.closer.names == s.lanes.Keys)
    && (s.closer.Shutting? ==> s.closer.names <= s.lanes.Keys)
    && (forall name :: name in s.lanes ==> (s.lanes[name].shut <==> ShutBy(s.closer, name)))
    && (s.closer.Done? ==> forall name :: name in s.lanes ==> s.lanes[name].worker == Exited)
  }

  ghost predicate Inv(c: Config, s: State) {
    && LanesKept(c, s) && LockHeld(s) && SendersKnown(s) && ClosingInOrder(s)
    && forall name :: name in s.lanes ==> OwnRequests(s, name)
  }

  // ---- Every step keeps it ----

  lemma JustifiedGrows(closed: bool, cancelled: set<Request>, closed': bool, cancelled': set<Request>, c: Config, lane: Lane)
    requires LaneInv(c, closed, cancelled, lane) && (closed ==> closed') && cancelled <= cancelled'
    ensures LaneInv(c, closed', cancelled', lane)
  {
    hide Accounted, InOrder, Bounded, Sorted, Answered;
  }

  // A caller moving between stages other than Sending and Admitted, or Close moving on,
  // leaves the boundaries as they were.
  lemma SameLanesKept(c: Config, s: State, t: State)
    requires LanesKept(c, s) && t.lanes == s.lanes && (Closed(s) ==> Closed(t)) && s.cancelled <= t.cancelled
    ensures LanesKept(c, t)
  {
    hide LaneInv;
    forall name | name in t.lanes ensures LaneInv(c, Closed(t), t.cancelled, t.lanes[name]) {
      JustifiedGrows(Closed(s), s.cancelled, Closed(t), t.cancelled, c, s.lanes[name]);
    }
  }

  // `r` moves to another stage, perhaps taking or freeing the lock.
  function Stage(s: State, r: Request, stage: Caller, lock: Option<Request>): State {
    s.(callers := s.callers[r := stage], lock := lock)
  }

  lemma StageKeepsLock(s: State, r: Request, stage: Caller, lock: Option<Request>)
    requires LockHeld(s)
    requires (stage == Locking || stage == Checked) <==> lock == Some(r)
    requires lock == s.lock || (s.lock in {None, Some(r)} && lock in {None, Some(r)})
    ensures LockHeld(Stage(s, r, stage, lock))
  {
  }

  lemma StageKeepsClosing(s: State, r: Request, stage: Caller, lock: Option<Request>)
    requires ClosingInOrder(s)
    requires stage == Checked || stage == Sending ==> s.closer.Open? || s.closer.Signalled?
    ensures ClosingInOrder(Stage(s, r, stage, lock))
  {
  }

  lemma StageKeepsOwn(s: State, r: Request, stage: Caller, lock: Option<Request>)
    requires forall name :: name in s.lanes ==> OwnRequests(s, name)
    requires !At(s, r, Admitted)
    ensures forall name :: name in s.lanes ==> OwnRequests(Stage(s, r, stage, lock), name)
  {
    forall name | name in s.lanes ensures OwnRequests(Stage(s, r, stage, lock), name) {
      assert OwnRequests(s, name);
    }
  }

  lemma StageKeepsInv(c: Config, s: State, r: Request, stage: Caller, lock: Option<Request>)
    requires Inv(c, s) && !At(s, r, Admitted)
    requires (stage == Locking || stage == Checked) <==> lock == Some(r)
    requires lock == s.lock || (s.lock in {None, Some(r)} && lock in {None, Some(r)})
    requires stage == Checked || stage == Sending ==> s.closer.Open? || s.closer.Signalled?
    requires stage == Sending ==> r.boundary in s.lanes
    ensures Inv(c, Stage(s, r, stage, lock))
  {
    hide LanesKept, LockHeld, ClosingInOrder, OwnRequests, At;
    StageKeepsLock(s, r, stage, lock);
    StageKeepsClosing(s, r, stage, lock);
    StageKeepsOwn(s, r, stage, lock);
    SameLanesKept(c, s, Stage(s, r, stage, lock));
  }

  lemma NewLaneIsSound(c: Config, closed: bool, cancelled: set<Request>)
    ensures LaneInv(c, closed, cancelled, NEW_LANE)
  {
  }

  lemma LaneKeepsLanes(c: Config, s: State, name: string, lane: Lane)
    requires LanesKept(c, s) && LaneInv(c, Closed(s), s.cancelled, lane)
    ensures LanesKept(c, WithLane(s, name, lane))
  {
    hide LaneInv;
  }

  lemma LaneKeepsClosing(s: State, name: string, lane: Lane)
    requires ClosingInOrder(s)
    requires if name in s.lanes then lane.shut == s.lanes[name].shut else !lane.shut && (s.closer.Open? || s.closer.Signalled?)
    requires s.closer.Done? ==> lane.worker == Exited
    ensures ClosingInOrder(WithLane(s, name, lane))
  {
  }

  lemma LaneKeepsOwn(s: State, name: string, lane: Lane)
    requires forall other :: other in s.lanes ==> OwnRequests(s, other)
    requires forall r :: r in lane.admitted ==> r.boundary == name && At(s, r, Admitted)
    ensures var t := WithLane(s, name, lane); forall other :: other in t.lanes ==> OwnRequests(t, other)
  {
    var t := WithLane(s, name, lane);
    forall other | other in t.lanes ensures OwnRequests(t, other) {
      assert other != name ==> OwnRequests(s, other);
    }
  }

  // A boundary changes; its new account must hold.
  lemma LaneKeepsInv(c: Config, s: State, name: string, lane: Lane)
    requires Inv(c, s) && LaneInv(c, Closed(s), s.cancelled, lane)
    requires if name in s.lanes then lane.shut == s.lanes[name].shut else !lane.shut && (s.closer.Open? || s.closer.Signalled?)
    requires forall r :: r in lane.admitted ==> r.boundary == name && At(s, r, Admitted)
    requires s.closer.Done? ==> lane.worker == Exited
    ensures Inv(c, WithLane(s, name, lane))
  {
    hide LaneInv, LanesKept, ClosingInOrder, OwnRequests;
    LaneKeepsLanes(c, s, name, lane);
    LaneKeepsClosing(s, name, lane);
    LaneKeepsOwn(s, name, lane);
  }

  lemma RegisterLaneKeepsInv(c: Config, s: State, r: Request)
    requires Inv(c, s) && At(s, r, Checked)
    ensures Inv(c, if r.boundary in s.lanes then s else WithLane(s, r.boundary, NEW_LANE))
    ensures s.lock == Some(r) && (s.closer.Open? || s.closer.Signalled?)
  {
    hide LaneInv, LanesKept, OwnRequests;
    if r.boundary !in s.lanes {
      NewLaneIsSound(c, Closed(s), s.cancelled);
      LaneKeepsInv(c, s, r.boundary, NEW_LANE);
    }
  }

  lemma RegisterKeepsInv(c: Config, s: State, r: Request)
    requires Inv(c, s) && At(s, r, Checked)
    ensures Inv(c, Apply(c, s, Register(r)))
  {
    hide Inv;
    RegisterLaneKeepsInv(c, s, r);
    StageKeepsInv(c, if r.boundary in s.lanes then s else WithLane(s, r.boundary, NEW_LANE), r, Sending, None);
  }

  // ---- Enqueueing ----

  lemma AdmitKeepsLane(c: Config, closed: bool, cancelled: set<Request>, lane: Lane, r: Request)
    requires LaneInv(c, closed, cancelled, lane) && r !in lane.admitted
    requires |lane.queue| < c.maxPending && !lane.shut
    ensures LaneInv(c, closed, cancelled, Admit(lane, r))
  {
    hide InOrder, Answered, Sorted, Requests, InHand;
    var t := Admit(lane, r);
    Associative(InHand(lane.worker), lane.queue, [r]);
    Associative(Requests(lane.settled), InHand(lane.worker) + lane.queue, [r]);
    assert InOrder(t) && Answered(t) && Sorted(t) by {
      AdmitKeepsAnswers(lane, r);
    }
    assert Distinct(t.admitted);
  }

  lemma AdmitKeepsAnswers(lane: Lane, r: Request)
    requires InOrder(lane) && Answered(lane) && Sorted(lane)
    ensures InOrder(Admit(lane, r)) && Answered(Admit(lane, r)) && Sorted(Admit(lane, r))
  {
    var t := Admit(lane, r);
    forall i | 0 <= i < |t.settled| ensures FateTold(t, t.settled[i]) {
      assert FateTold(lane, lane.settled[i]);
    }
    forall i, j | 0 <= i < |t.endings| && i < |t.calls| && 0 <= j < |t.calls[i]| ensures OutcomeTold(t, i, j) {
      assert OutcomeTold(lane, i, j);
    }
  }

  // A sender still holds the coordinator open: its queue exists and is not shut.
  lemma SenderSeesOpenQueue(c: Config, s: State, r: Request)
    requires Inv(c, s) && At(s, r, Sending)
    ensures r.boundary in s.lanes && !s.lanes[r.boundary].shut && r !in s.lanes[r.boundary].admitted
    ensures s.closer.Open? || s.closer.Signalled? || s.closer.Collected?
  {
    hide LanesKept, LockHeld;
    assert OwnRequests(s, r.boundary);
  }

  lemma AdmittingKeepsInv(c: Config, s: State, r: Request)
    requires Inv(c, s) && At(s, r, Sending)
    ensures Inv(c, Stage(s, r, Admitted, s.lock))
  {
    hide LanesKept, ClosingInOrder, OwnRequests;
    StageKeepsInv(c, s, r, Admitted, s.lock);
  }

  lemma AdmittedAreOwn(c: Config, s: State, r: Request)
    requires Inv(c, s) && At(s, r, Sending) && r.boundary in s.lanes
    ensures forall q :: q in Admit(s.lanes[r.boundary], r).admitted ==> q.boundary == r.boundary && At(Stage(s, r, Admitted, s.lock), q, Admitted)
  {
    hide LanesKept, ClosingInOrder, LockHeld;
    assert OwnRequests(s, r.boundary);
  }

  lemma EnqueueKeepsInv(c: Config, s: State, r: Request)
    requires Inv(c, s) && Enabled(c, s, Enqueue(r))
    ensures Inv(c, Apply(c, s, Enqueue(r)))
  {
    SenderSeesOpenQueue(c, s, r);
    AdmittingKeepsInv(c, s, r);
    AdmittedAreOwn(c, s, r);
    AdmitKeepsLane(c, Closed(s), s.cancelled, s.lanes[r.boundary], r);
    hide Inv, LaneInv, LaneEnabled, LaneApply;
    LaneKeepsInv(c, Stage(s, r, Admitted, s.lock), r.boundary, Admit(s.lanes[r.boundary], r));
  }

  // ---- Closing ----

  lemma ShutKeepsLane(c: Config, closed: bool, cancelled: set<Request>, lane: Lane)
    requires LaneInv(c, closed, cancelled, lane)
    ensures LaneInv(c, closed, cancelled, lane.(shut := true))
  {
    var t := lane.(shut := true);
    forall i | 0 <= i < |t.settled| ensures FateTold(t, t.settled[i]) {
      assert FateTold(lane, lane.settled[i]);
    }
    forall i, j | 0 <= i < |t.endings| && i < |t.calls| && 0 <= j < |t.calls[i]| ensures OutcomeTold(t, i, j) {
      assert OutcomeTold(lane, i, j);
    }
  }

  lemma ShuttingKeepsClosing(s: State, name: string)
    requires ClosingInOrder(s) && s.closer.Shutting? && name in s.closer.names && name in s.lanes
    ensures ClosingInOrder(WithLane(s.(closer := Shutting(s.closer.names - {name})), name, s.lanes[name].(shut := true)))
  {
  }

  lemma ShutQueueKeepsInv(c: Config, s: State, name: string)
    requires Inv(c, s) && Enabled(c, s, ShutQueue(name))
    ensures Inv(c, Apply(c, s, ShutQueue(name)))
  {
    hide LanesKept, ClosingInOrder, OwnRequests, LaneInv, LaneEnabled, LaneApply, LockHeld;
    var t := s.(closer := Shutting(s.closer.names - {name}));
    assert LaneInv(c, Closed(s), s.cancelled, s.lanes[name].(shut := true)) by {
      KeptLane(c, s, name);
      ShutKeepsLane(c, Closed(s), s.cancelled, s.lanes[name]);
    }
    ShuttingKeepsClosing(s, name);
    SameLanesKept(c, s, t);
    LaneKeepsLanes(c, t, name, s.lanes[name].(shut := true));
    SameOwn(s, t);
    OwnAre(s, name);
    LaneKeepsOwn(t, name, s.lanes[name].(shut := true));
    SameLock(s, Apply(c, s, ShutQueue(name)));
  }

  lemma KeptLane(c: Config, s: State, name: string)
    requires LanesKept(c, s) && name in s.lanes
    ensures LaneInv(c, Closed(s), s.cancelled, s.lanes[name])
  {
  }

  lemma OwnAre(s: State, name: string)
    requires name in s.lanes && OwnRequests(s, name)
    ensures forall r :: r in s.lanes[name].admitted ==> r.boundary == name && At(s, r, Admitted)
  {
  }

  lemma SameOwn(s: State, t: State)
    requires t.lanes == s.lanes && t.callers == s.callers && forall name :: name in s.lanes ==> OwnRequests(s, name)
    ensures forall name :: name in t.lanes ==> OwnRequests(t, name)
  {
    forall name | name in t.lanes ensures OwnRequests(t, name) {
      assert OwnRequests(s, name);
    }
  }

  lemma SameLock(s: State, t: State)
    requires LockHeld(s) && t.lock == s.lock && t.callers == s.callers
    ensures LockHeld(t)
  {
  }

  predicate OfClose(step: Step) {
    step.Signal? || step.Collect? || step.AwaitSenders? || step.FinishShutting? || step.Join?
  }

  lemma CloseKeepsClosing(c: Config, s: State, step: Step)
    requires ClosingInOrder(s) && LockHeld(s) && Enabled(c, s, step) && OfClose(step)
    ensures ClosingInOrder(Apply(c, s, step))
  {
    hide LaneEnabled, LaneApply;
    assert step.Collect? ==> forall r :: r in s.callers ==> s.callers[r] != Checked;
  }

  // A step that changes neither the boundaries, the callers nor the lock.
  lemma RestKeepsInv(c: Config, s: State, t: State)
    requires Inv(c, s) && ClosingInOrder(t) && (Closed(s) ==> Closed(t)) && s.cancelled <= t.cancelled
    requires t.lanes == s.lanes && t.callers == s.callers && t.lock == s.lock
    ensures Inv(c, t)
  {
    hide LanesKept, ClosingInOrder, OwnRequests, LockHeld;
    SameLanesKept(c, s, t);
    SameOwn(s, t);
    SameLock(s, t);
  }

  lemma CloseStepKeepsInv(c: Config, s: State, step: Step)
    requires Inv(c, s) && Enabled(c, s, step) && OfClose(step)
    ensures Inv(c, Apply(c, s, step))
  {
    hide LanesKept, ClosingInOrder, OwnRequests, LockHeld, SendersKnown, LaneEnabled, LaneApply;
    CloseKeepsClosing(c, s, step);
    RestKeepsInv(c, s, Apply(c, s, step));
  }

  lemma CancelKeepsInv(c: Config, s: State, r: Request)
    requires Inv(c, s)
    ensures Inv(c, s.(cancelled := s.cancelled + {r}))
  {
    hide LanesKept, OwnRequests, LockHeld, SendersKnown;
    RestKeepsInv(c, s, s.(cancelled := s.cancelled + {r}));
  }

  lemma WorkKeepsInv(c: Config, s: State, name: string, step: LaneStep)
    requires ValidConfig(c) && Inv(c, s) && Enabled(c, s, Work(name, step))
    ensures Inv(c, Apply(c, s, Work(name, step)))
  {
    hide LanesKept, OwnRequests, LockHeld, SendersKnown, LaneInv, LaneApply;
    assert s.lanes[name].worker != Exited;
    hide LaneEnabled;
    KeptLane(c, s, name);
    OwnAre(s, name);
    LaneStepKeepsInv(c, Closed(s), s.cancelled, s.lanes[name], step);
    SettlingAdmitsNone(c, Closed(s), s.cancelled, s.lanes[name], step);
    LaneKeepsInv(c, s, name, LaneApply(c, Closed(s), s.cancelled, s.lanes[name], step));
  }

  lemma CallerStepKeepsInv(c: Config, s: State, step: Step)
    requires Inv(c, s) && Enabled(c, s, step)
    requires step.Begin? || step.Lock? || step.FindClosed? || step.PassCheck? || step.GiveUp?
    ensures Inv(c, Apply(c, s, step))
  {
    hide LanesKept, OwnRequests, ClosingInOrder, SendersKnown, LaneEnabled, LaneApply;
    match step
    case Begin(r) => StageKeepsInv(c, s, r, Arrived, s.lock);
    case Lock(r) => StageKeepsInv(c, s, r, Locking, Some(r));
    case FindClosed(r) => StageKeepsInv(c, s, r, Left, None);
    case PassCheck(r) => StageKeepsInv(c, s, r, Checked, s.lock);
    case GiveUp(r) => StageKeepsInv(c, s, r, Left, s.lock);
  }

  lemma {:induction false} StepKeepsInv(c: Config, s: State, step: Step)
    requires ValidConfig(c) && Inv(c, s) && Enabled(c, s, step)
    ensures Inv(c, Apply(c, s, step))
  {
    hide Inv, LaneApply, LaneEnabled;
    match step
    case Cancel(r) => CancelKeepsInv(c, s, r);
    case Register(r) => RegisterKeepsInv(c, s, r);
    case Enqueue(r) => EnqueueKeepsInv(c, s, r);
    case Work(name, laneStep) => WorkKeepsInv(c, s, name, laneStep);
    case ShutQueue(name) => ShutQueueKeepsInv(c, s, name);
    case _ =>
      if OfClose(step) {
        CloseStepKeepsInv(c, s, step);
      } else {
        CallerStepKeepsInv(c, s, step);
      }
  }

  lemma {:induction false} RunKeepsInv(c: Config, steps: seq<Step>)
    requires ValidConfig(c)
    ensures Inv(c, Run(c, steps))
  {
    if steps != [] {
      var s, step := Run(c, steps[..|steps| - 1]), steps[|steps| - 1];
      RunKeepsInv(c, steps[..|steps| - 1]);
      if Enabled(c, s, step) {
        StepKeepsInv(c, s, step);
      }
    }
  }

  // ---- What every run guarantees ----

  // A request waiting to be queued finds its queue there and not shut, at any moment of any
  // run: no send ever hits a closed queue.
  lemma {:induction false} NoSendOnShutQueue(c: Config, steps: seq<Step>, r: Request)
    requires ValidConfig(c) && At(Run(c, steps), r, Sending)
    ensures r.boundary in Run(c, steps).lanes && !Run(c, steps).lanes[r.boundary].shut
  {
    RunKeepsInv(c, steps);
    hide Inv, Run;
    SenderSeesOpenQueue(c, Run(c, steps), r);
  }

  // No queue is shut twice.
  lemma {:induction false} NoQueueShutTwice(c: Config, steps: seq<Step>, name: string)
    requires ValidConfig(c) && Enabled(c, Run(c, steps), ShutQueue(name))
    ensures !Run(c, steps).lanes[name].shut
  {
    RunKeepsInv(c, steps);
  }

  lemma {:induction false} KeptIsSettled(settled: seq<Settled>, i: nat)
    requires i < |settled| && settled[i].fate == Live
    ensures settled[i].request in Kept(settled)
  {
    var last := |settled| - 1;
    if i < last {
      KeptIsSettled(settled[..last], i);
    }
  }

  // Once no call is running and nothing is in hand, everything settled has been answered.
  lemma SettledIsAnswered(lane: Lane, r: Request)
    requires InOrder(lane) && Answered(lane) && !lane.worker.Executing? && !lane.worker.Filtering?
    requires r in Requests(lane.settled)
    ensures r in lane.answers
  {
    var i :| 0 <= i < |lane.settled| && Requests(lane.settled)[i] == r;
    assert FateTold(lane, lane.settled[i]);
    if lane.settled[i].fate == Live {
      KeptIsSettled(lane.settled, i);
      var k, j := InFlattened(lane.calls, r);
      assert OutcomeTold(lane, k, j);
    }
  }

  lemma ExitedIsAnswered(c: Config, closed: bool, cancelled: set<Request>, lane: Lane)
    requires LaneInv(c, closed, cancelled, lane) && lane.worker == Exited
    ensures lane.queue == [] && forall r :: r in lane.admitted ==> r in lane.answers
  {
    hide InOrder, Answered, Requests, Bounded, Sorted;
    forall r | r in lane.admitted ensures r in lane.answers {
      SettledIsAnswered(lane, r);
    }
  }

  // When Close returns, whenever it was called: every queue is empty and shut, every worker
  // gone, nobody is still sending, and every admitted request has been answered.
  lemma {:induction false} CloseDrains(c: Config, steps: seq<Step>, name: string)
    requires ValidConfig(c) && Run(c, steps).closer == Done && name in Run(c, steps).lanes
    ensures var lane := Run(c, steps).lanes[name];
      && lane.queue == [] && lane.shut && lane.worker == Exited
      && NoSenders(Run(c, steps))
      && forall r :: r in lane.admitted ==> r in lane.answers
  {
    var s := Run(c, steps);
    RunKeepsInv(c, steps);
    hide Run, LaneInv, LanesKept, LockHeld, SendersKnown, OwnRequests;
    KeptLane(c, s, name);
    ExitedIsAnswered(c, Closed(s), s.cancelled, s.lanes[name]);
  }

  ghost predicate AnswersGrow(before: Lane, after: Lane) {
    forall r :: r in before.answers ==> r in after.answers && after.answers[r] == before.answers[r]
  }

  lemma WorkKeepsGiven(c: Config, closed: bool, cancelled: set<Request>, lane: Lane, step: LaneStep)
    requires LaneEnabled(c, closed, cancelled, lane, step)
    ensures AnswersGrow(lane, LaneApply(c, closed, cancelled, lane, step))
  {
    hide DeliverAll;
    if step.FinishExecution? {
      var (told, given) := Told(lane.worker.batch, lane.worker.live, step.ending);
      DeliversAll(lane.answers, told, given);
    }
  }

  lemma StepKeepsGiven(c: Config, s: State, step: Step, name: string)
    requires Enabled(c, s, step) && name in s.lanes
    ensures name in Apply(c, s, step).lanes && AnswersGrow(s.lanes[name], Apply(c, s, step).lanes[name])
  {
    hide LaneApply, LaneEnabled;
    if step.Work? {
      WorkKeepsGiven(c, Closed(s), s.cancelled, s.lanes[step.name], step.step);
    }
  }

  // At most once: an answer given is never changed or given again, however the run goes on.
  lemma {:induction false} AnswersAreFinal(c: Config, steps: seq<Step>, more: seq<Step>, name: string)
    requires name in Run(c, steps).lanes
    ensures name in Run(c, steps + more).lanes && AnswersGrow(Run(c, steps).lanes[name], Run(c, steps + more).lanes[name])
  {
    if more == [] {
      assert steps + more == steps;
    } else {
      var init := more[..|more| - 1];
      var s := Run(c, steps + init);
      assert (steps + more)[..|steps + more| - 1] == steps + init;
      AnswersAreFinal(c, steps, init, name);
      if Enabled(c, s, more[|more| - 1]) {
        StepKeepsGiven(c, s, more[|more| - 1], name);
      }
    }
  }

  // Per boundary, at any moment of any run: everything admitted is settled, in hand or
  // queued, in order; the executor's inputs end to end, with those being gathered, are the
  // settled requests that were neither dropped nor refused, and those were dropped because
  // their caller had gone or refused because of Close; calls never overlap; and every batch
  // keeps to the limits.
  lemma {:induction false} OrderedBoundedBatches(c: Config, steps: seq<Step>, name: string)
    requires ValidConfig(c) && name in Run(c, steps).lanes
    ensures var s := Run(c, steps);
      var lane := s.lanes[name];
      && lane.admitted == Requests(lane.settled) + (InHand(lane.worker) + lane.queue)
      && Distinct(lane.admitted)
      && Kept(lane.settled) == Flatten(lane.calls) + Gathering(lane.worker)
      && (forall x :: x in lane.settled && x.fate == Dropped ==> x.request in s.cancelled)
      && (forall x :: x in lane.settled && x.fate == Refused ==> Closed(s))
      && |lane.calls| == |lane.endings| + (if lane.worker.Executing? then 1 else 0)
      && (forall i :: 0 <= i < |lane.calls| ==> 0 < |lane.calls[i]| <= c.maxBatchRequests)
      && (forall i :: 0 <= i < |lane.calls| && |lane.calls[i]| > 1 ==> Events(lane.calls[i]) <= c.maxBatchEvents)
  {
    var s := Run(c, steps);
    RunKeepsInv(c, steps);
    hide Run;
    assert LaneInv(c, Closed(s), s.cancelled, s.lanes[name]);
    hide Requests, InHand, Kept, Flatten, Gathering, Events, Answered, Sorted;
  }

  // A caller whose request reached the executor hears how the call it was part of ended for it;
  // a dropped or refused one is told so.
  lemma {:induction false} EachGetsItsOwnAnswer(c: Config, steps: seq<Step>, name: string)
    requires ValidConfig(c) && name in Run(c, steps).lanes
    ensures var lane := Run(c, steps).lanes[name];
      && (forall i, j :: 0 <= i < |lane.endings| && i < |lane.calls| && 0 <= j < |lane.calls[i]| ==> OutcomeTold(lane, i, j))
      && (forall i :: 0 <= i < |lane.settled| ==> FateTold(lane, lane.settled[i]))
      && (forall r :: r in lane.answers ==> r in lane.admitted)
  {
    var s := Run(c, steps);
    RunKeepsInv(c, steps);
    hide Run;
    assert LaneInv(c, Closed(s), s.cancelled, s.lanes[name]);
    hide InHand, Kept, Flatten, Gathering, Events, Sorted, OutcomeTold, FateTold;
  }

  // ---- Close is never stuck ----

  // A worker of a shut queue always has a step to take, until it exits.
  lemma WorkerMovesOn(c: Config, cancelled: set<Request>, lane: Lane) returns (step: LaneStep)
    requires lane.shut && lane.worker != Exited && WorkerBounded(c, lane.worker)
    ensures LaneEnabled(c, true, cancelled, lane, step)
  {
    var w := lane.worker;
    match w
    case Waiting(carry) => step := if carry.Some? then TakeCarry else SeeClosedWaiting;
    case Holding(_) => step := RefuseFirst;
    case Draining(batch, events) =>
      step := if !Room(c, batch, events) || lane.queue == [] then EndBatch
              else if events + lane.queue[0].events <= c.maxBatchEvents then AddToBatch else CarryOver;
    case Drained(_, _) => step := RefuseBatch;
    case Filtering(batch, next, live, _) =>
      step := if next < |batch| then (if batch[next] in cancelled then DropCancelled else KeepLive)
              else if live == [] then FlushNothing else Execute;
    case Executing(_, _, _) => step := FinishExecution(Errored);
    case Flushed(_) => step := RefuseCarry;
    case Refusing(held) => step := if held != [] then RefuseHeld else if lane.queue != [] then RefuseQueued else Exit;
  }

  predicate FromOutside(step: Step) {
    step.Begin? || step.Cancel?
  }

  lemma SignalledMovesOn(c: Config, s: State) returns (step: Step)
    requires LockHeld(s) && s.closer == Signalled
    ensures Enabled(c, s, step) && !FromOutside(step)
  {
    if s.lock == None {
      step := Collect;
    } else {
      step := if At(s, s.lock.value, Locking) then FindClosed(s.lock.value) else Register(s.lock.value);
    }
  }

  lemma CollectedMovesOn(c: Config, s: State) returns (step: Step)
    requires s.closer.Collected?
    ensures Enabled(c, s, step) && !FromOutside(step)
  {
    if NoSenders(s) {
      step := AwaitSenders;
    } else {
      var r :| r in s.callers && s.callers[r] == Sending;
      step := GiveUp(r);
    }
  }

  lemma ShuttingMovesOn(c: Config, s: State) returns (step: Step)
    requires ClosingInOrder(s) && s.closer.Shutting?
    ensures Enabled(c, s, step) && !FromOutside(step)
  {
    if s.closer.names == {} {
      step := FinishShutting;
    } else {
      var name :| name in s.closer.names;
      step := ShutQueue(name);
    }
  }

  lemma JoiningMovesOn(c: Config, s: State) returns (step: Step)
    requires ClosingInOrder(s) && LanesKept(c, s) && s.closer == Joining
    ensures Enabled(c, s, step) && !FromOutside(step)
  {
    hide LanesKept, LaneEnabled;
    if forall name :: name in s.lanes ==> s.lanes[name].worker == Exited {
      step := Join;
    } else {
      var name :| name in s.lanes && s.lanes[name].worker != Exited;
      KeptLaneBounded(c, s, name);
      var work := WorkerMovesOn(c, s.cancelled, s.lanes[name]);
      step := Work(name, work);
    }
  }

  lemma KeptLaneBounded(c: Config, s: State, name: string)
    requires LanesKept(c, s) && name in s.lanes
    ensures WorkerBounded(c, s.lanes[name].worker)
  {
  }

  // After Close is called and until it returns, some step of the coordinator itself can be
  // taken: no deadlock between senders, workers and Close.
  lemma {:induction false} CloseNeverStuck(c: Config, steps: seq<Step>) returns (step: Step)
    requires ValidConfig(c) && Closed(Run(c, steps)) && Run(c, steps).closer != Done
    ensures Enabled(c, Run(c, steps), step) && !FromOutside(step)
  {
    var s := Run(c, steps);
    RunKeepsInv(c, steps);
    hide Run, Enabled, LanesKept, LockHeld, ClosingInOrder, SendersKnown, OwnRequests;
    match s.closer
    case Signalled => step := SignalledMovesOn(c, s);
    case Collected(_) => step := CollectedMovesOn(c, s);
    case Shutting(_) => step := ShuttingMovesOn(c, s);
    case Joining => step := JoiningMovesOn(c, s);
  }
}
