// Why a caller of the coordinator (internal/groupcommit/coordinator.go) hears what it hears,
// that it can get in and be served, and what a cancellation and Close amount to.
module GroupCommitAnswers {
  import opened Common
  import opened Ordering
  import opened GroupCommitLane
  import opened GroupCommit
  import opened GroupCommitProgress
  import opened GroupCommitClose

  // ---- Every answer has its reason ----

  // The request was the j-th of the i-th call, which has ended.
  predicate ServedIn(lane: Lane, i: nat, j: nat, r: Request) {
    i < |lane.endings| && i < |lane.calls| && j < |lane.calls[i]| && lane.calls[i][j] == r
  }

  // A call the request was part of, and how it ended, for each answer an executor call can
  // cause; a cancellation or Close for the other two.
  ghost predicate Reason(closed: bool, cancelled: set<Request>, lane: Lane, r: Request, answer: Answer) {
    match answer
    case CallerGone => r in cancelled
    case ShutDown => closed
    case FlushFailed => exists i: nat, j: nat :: ServedIn(lane, i, j, r) && lane.endings[i] == Errored
    case FlushPanicked => exists i: nat, j: nat :: ServedIn(lane, i, j, r) && lane.endings[i] == Panicked
    case WrongCount =>
      exists i: nat, j: nat :: ServedIn(lane, i, j, r) && lane.endings[i].Returned? && |lane.endings[i].outcomes| != |lane.calls[i]|
    case Outcome(value) =>
      exists i: nat, j: nat :: ServedIn(lane, i, j, r) && lane.endings[i].Returned?
        && |lane.endings[i].outcomes| == |lane.calls[i]| && lane.endings[i].outcomes[j] == value
  }

  lemma ServedHasReason(closed: bool, cancelled: set<Request>, lane: Lane, r: Request, i: nat, j: nat)
    requires ServedIn(lane, i, j, r) && OutcomeTold(lane, i, j)
    ensures r in lane.answers && Reason(closed, cancelled, lane, r, lane.answers[r])
  {
  }

  // A settled request that went to the executor, and has an answer, was part of a call that has
  // ended.
  lemma LiveWasServed(lane: Lane, k: nat) returns (i: nat, j: nat)
    requires InOrder(lane) && Answered(lane) && k < |lane.settled| && lane.settled[k].fate == Live
    requires lane.settled[k].request in lane.answers
    ensures ServedIn(lane, i, j, lane.settled[k].request)
  {
    var r := lane.settled[k].request;
    KeptIsSettled(lane.settled, k);
    hide Kept, FateTold, OutcomeTold;
    assert r !in Gathering(lane.worker);
    i, j := InFlattened(lane.calls, r);
  }

  lemma AnswerHasReason(c: Config, closed: bool, cancelled: set<Request>, lane: Lane, r: Request)
    requires LaneInv(c, closed, cancelled, lane) && r in lane.answers
    ensures Reason(closed, cancelled, lane, r, lane.answers[r])
  {
    hide InOrder, Accounted, Bounded, Sorted, Reason, OutcomeTold;
    var k :| 0 <= k < |lane.settled| && Requests(lane.settled)[k] == r;
    assert FateTold(lane, lane.settled[k]);
    match lane.settled[k].fate
    case Live =>
      var i, j := LiveWasServed(lane, k);
      assert OutcomeTold(lane, i, j);
      ServedHasReason(closed, cancelled, lane, r, i, j);
    case Dropped => GoneHasReason(closed, cancelled, lane, r);
    case Refused => GoneHasReason(closed, cancelled, lane, r);
  }

  lemma GoneHasReason(closed: bool, cancelled: set<Request>, lane: Lane, r: Request)
    requires r in lane.answers
    requires (lane.answers[r] == CallerGone && r in cancelled) || (lane.answers[r] == ShutDown && closed)
    ensures Reason(closed, cancelled, lane, r, lane.answers[r])
  {
  }

  lemma GoneMeans(closed: bool, cancelled: set<Request>, lane: Lane, r: Request)
    ensures Reason(closed, cancelled, lane, r, CallerGone) ==> r in cancelled
    ensures Reason(closed, cancelled, lane, r, ShutDown) ==> closed
  {
  }

  lemma {:induction false} CancelledByCaller(c: Config, steps: seq<Step>, r: Request)
    requires r in Run(c, steps).cancelled
    ensures Cancel(r) in steps
  {
    hide LaneApply, LaneEnabled;
    var init, last := steps[..|steps| - 1], steps[|steps| - 1];
    if r in Run(c, init).cancelled {
      CancelledByCaller(c, init, r);
    } else {
      assert last == Cancel(r);
    }
  }

  lemma {:induction false} ClosedByClose(c: Config, steps: seq<Step>)
    requires Closed(Run(c, steps))
    ensures Signal in steps
  {
    hide LaneApply, LaneEnabled;
    var init, last := steps[..|steps| - 1], steps[|steps| - 1];
    if Closed(Run(c, init)) {
      ClosedByClose(c, init);
    } else {
      assert last == Signal;
    }
  }

  // In every run each answer has its reason: a caller is told that it left only if it did, that
  // the coordinator is closed only if Close was called, and of a failure, a panic, a wrong count
  // or an outcome only if the very call it was part of ended so.
  lemma {:induction false} EveryAnswerHasItsReason(c: Config, steps: seq<Step>, name: string, r: Request)
    requires ValidConfig(c) && name in Run(c, steps).lanes && r in Run(c, steps).lanes[name].answers
    ensures var s := Run(c, steps); Reason(Closed(s), s.cancelled, s.lanes[name], r, s.lanes[name].answers[r])
    ensures Run(c, steps).lanes[name].answers[r] == CallerGone ==> Cancel(r) in steps
    ensures Run(c, steps).lanes[name].answers[r] == ShutDown ==> Signal in steps
  {
    hide Run, LaneInv, LockHeld, SendersKnown, ClosingInOrder, OwnRequests, Reason;
    var s := Run(c, steps);
    RunKeepsInv(c, steps);
    KeptLane(c, s, name);
    GoneMeans(Closed(s), s.cancelled, s.lanes[name], r);
    AnswerHasReason(c, Closed(s), s.cancelled, s.lanes[name], r);
    if s.lanes[name].answers[r] == CallerGone {
      CancelledByCaller(c, steps, r);
    } else if s.lanes[name].answers[r] == ShutDown {
      ClosedByClose(c, steps);
    }
  }

  // Nobody leaves the queue's door unless it cancelled or Close was called.
  lemma {:induction false} NobodyLeavesForNothing(c: Config, steps: seq<Step>, r: Request)
    requires At(Run(c, steps), r, Left)
    ensures Cancel(r) in steps || Signal in steps
  {
    hide LaneApply, LaneEnabled;
    var init, last := steps[..|steps| - 1], steps[|steps| - 1];
    if At(Run(c, init), r, Left) {
      NobodyLeavesForNothing(c, init, r);
    } else if Closed(Run(c, init)) {
      ClosedByClose(c, init);
    } else {
      CancelledByCaller(c, init, r);
    }
  }

  // ---- Cancelled in time ----

  ghost predicate NeverLive(lane: Lane, r: Request) {
    forall i :: 0 <= i < |lane.settled| ==> lane.settled[i] != Settled(r, Live)
  }

  ghost predicate Spared(s: State, name: string, r: Request) {
    r in s.cancelled && (name in s.lanes ==> NeverLive(s.lanes[name], r))
  }

  lemma LaneStepSpares(c: Config, closed: bool, cancelled: set<Request>, lane: Lane, step: LaneStep, r: Request)
    requires r in cancelled && NeverLive(lane, r) && LaneEnabled(c, closed, cancelled, lane, step)
    ensures NeverLive(LaneApply(c, closed, cancelled, lane, step), r)
  {
    hide Deliver, DeliverAll, Told;
  }

  lemma StepSpares(c: Config, s: State, step: Step, name: string, r: Request)
    requires Enabled(c, s, step) && Spared(s, name, r)
    ensures Spared(Apply(c, s, step), name, r)
  {
    if step.Work? {
      hide LaneApply, LaneEnabled, NeverLive;
      if step.name == name {
        LaneStepSpares(c, Closed(s), s.cancelled, s.lanes[name], step.step, r);
      }
    } else {
      hide LaneApply, LaneEnabled;
    }
  }

  lemma {:induction false} RunSpares(c: Config, steps: seq<Step>, more: seq<Step>, name: string, r: Request)
    requires Spared(Run(c, steps), name, r)
    ensures Spared(Run(c, steps + more), name, r)
  {
    hide Spared, Apply, Enabled;
    if more == [] {
      assert steps + more == steps;
    } else {
      var init, last := more[..|more| - 1], more[|more| - 1];
      assert (steps + more)[..|steps + more| - 1] == steps + init && (steps + more)[|steps + more| - 1] == last;
      RunSpares(c, steps, init, name, r);
      if Enabled(c, Run(c, steps + init), last) {
        StepSpares(c, Run(c, steps + init), last, name, r);
      }
    }
  }

  lemma {:induction false} KeptWasLive(settled: seq<Settled>, r: Request)
    requires r in Kept(settled)
    ensures Settled(r, Live) in settled
  {
    var last := settled[|settled| - 1];
    if last != Settled(r, Live) {
      KeptWasLive(settled[..|settled| - 1], r);
    }
  }

  lemma {:induction false} CalledIsFlattened<T>(batches: seq<seq<T>>, i: nat, j: nat)
    requires i < |batches| && j < |batches[i]|
    ensures batches[i][j] in Flatten(batches)
  {
    if i < |batches| - 1 {
      CalledIsFlattened(batches[..|batches| - 1], i, j);
    }
  }

  lemma SparedIsNotCalled(c: Config, closed: bool, cancelled: set<Request>, lane: Lane, r: Request)
    requires LaneInv(c, closed, cancelled, lane) && NeverLive(lane, r)
    ensures r !in Flatten(lane.calls)
    ensures r in lane.answers ==> lane.answers[r] == CallerGone || lane.answers[r] == ShutDown
  {
    hide Accounted, Bounded, Sorted, Answered, Kept, Flatten, Justified;
    if r in Kept(lane.settled) {
      KeptWasLive(lane.settled, r);
    }
    if r in lane.answers {
      AnswerHasReason(c, closed, cancelled, lane, r);
      forall i: nat, j: nat ensures !ServedIn(lane, i, j, r) {
        if ServedIn(lane, i, j, r) {
          CalledIsFlattened(lane.calls, i, j);
        }
      }
    }
  }

  lemma NotSettledYet(lane: Lane, r: Request)
    requires r !in Requests(lane.settled)
    ensures NeverLive(lane, r)
  {
    assert forall i :: 0 <= i < |lane.settled| ==> Requests(lane.settled)[i] == lane.settled[i].request;
  }

  // A request whose caller leaves before its turn in a flush never reaches the executor, and
  // hears of nothing but its own leaving, or Close.
  lemma {:induction false} CancelledInTime(c: Config, steps: seq<Step>, more: seq<Step>, name: string, r: Request)
    requires ValidConfig(c) && (name in Run(c, steps).lanes ==> r !in Requests(Run(c, steps).lanes[name].settled))
    ensures var t := Run(c, steps + [Cancel(r)] + more);
      name in t.lanes ==>
        var lane := t.lanes[name];
        r !in Flatten(lane.calls) && (r in lane.answers ==> lane.answers[r] == CallerGone || lane.answers[r] == ShutDown)
  {
    var s, t := Run(c, steps), Run(c, steps + [Cancel(r)] + more);
    RunStep(c, steps, Cancel(r));
    hide Run, LaneInv, LockHeld, SendersKnown, ClosingInOrder, OwnRequests, Flatten, NeverLive, Requests;
    if name in s.lanes {
      NotSettledYet(s.lanes[name], r);
    }
    RunSpares(c, steps + [Cancel(r)], more, name, r);
    if name in t.lanes {
      RunKeepsInv(c, steps + [Cancel(r)] + more);
      KeptLane(c, t, name);
      SparedIsNotCalled(c, Closed(t), t.cancelled, t.lanes[name], r);
    }
  }

  // ---- Getting in and being served ----

  // The steps of a Submit call up to its place in the queue.
  function Submitting(r: Request): seq<Step> {
    [Begin(r), Lock(r), PassCheck(r), Register(r), Enqueue(r)]
  }

  predicate HasRoom(c: Config, s: State, name: string) {
    name in s.lanes ==> |s.lanes[name].queue| < c.maxPending
  }

  function LaneIn(s: State, name: string): Lane {
    if name in s.lanes then s.lanes[name] else NEW_LANE
  }

  // The coordinator is open, the registry lock free, the request new and its queue not full.
  predicate MayEnter(c: Config, s: State, r: Request) {
    s.closer == Open && s.lock == None && r !in s.callers && r !in s.cancelled && r.events > 0 && HasRoom(c, s, r.boundary)
  }

  // Up to the registration of its queue, and then into it.
  function Registered(s: State, r: Request): State {
    State(Open, None, s.callers[r := Sending], s.cancelled, s.lanes[r.boundary := LaneIn(s, r.boundary)])
  }

  function Entered(s: State, r: Request): State {
    State(Open, None, s.callers[r := Admitted], s.cancelled, s.lanes[r.boundary := Admit(LaneIn(s, r.boundary), r)])
  }

  function AtStage(s: State, r: Request, stage: Caller): State {
    s.(callers := s.callers[r := stage], lock := if stage == Locking || stage == Checked then Some(r) else None)
  }

  lemma Registers(c: Config, s: State, r: Request)
    requires MayEnter(c, s, r)
    ensures Enabled(c, s, Begin(r)) && Apply(c, s, Begin(r)) == AtStage(s, r, Arrived)
    ensures Enabled(c, AtStage(s, r, Arrived), Lock(r)) && Apply(c, AtStage(s, r, Arrived), Lock(r)) == AtStage(s, r, Locking)
    ensures Enabled(c, AtStage(s, r, Locking), PassCheck(r)) && Apply(c, AtStage(s, r, Locking), PassCheck(r)) == AtStage(s, r, Checked)
    ensures Enabled(c, AtStage(s, r, Checked), Register(r)) && Apply(c, AtStage(s, r, Checked), Register(r)) == Registered(s, r)
  {
    hide LaneApply, LaneEnabled;
    assert s.callers[r := Arrived][r := Locking] == s.callers[r := Locking];
    assert s.callers[r := Locking][r := Checked] == s.callers[r := Checked];
    assert s.callers[r := Checked][r := Sending] == s.callers[r := Sending];
    assert r.boundary in s.lanes ==> s.lanes[r.boundary := s.lanes[r.boundary]] == s.lanes;
  }

  lemma Enters(c: Config, s: State, r: Request)
    requires ValidConfig(c) && MayEnter(c, s, r)
    ensures Enabled(c, Registered(s, r), Enqueue(r)) && Apply(c, Registered(s, r), Enqueue(r)) == Entered(s, r)
  {
    hide LaneApply, LaneEnabled;
    var t := Registered(s, r);
    assert t.callers[r := Admitted] == s.callers[r := Admitted];
    assert t.lanes[r.boundary := Admit(LaneIn(s, r.boundary), r)] == s.lanes[r.boundary := Admit(LaneIn(s, r.boundary), r)];
  }

  // Such a request gets in, behind everybody admitted before it.
  lemma {:induction false} GetsIn(c: Config, steps: seq<Step>, r: Request)
    requires ValidConfig(c) && MayEnter(c, Run(c, steps), r)
    ensures Run(c, steps + Submitting(r)) == Entered(Run(c, steps), r)
  {
    hide Run, Enabled, Apply, MayEnter, Entered, Registered, AtStage;
    var s := Run(c, steps);
    Registers(c, s, r);
    Enters(c, s, r);
    var a, b, d := steps + [Begin(r)], steps + [Begin(r)] + [Lock(r)], steps + [Begin(r)] + [Lock(r)] + [PassCheck(r)];
    RunStep(c, steps, Begin(r));
    RunStep(c, a, Lock(r));
    RunStep(c, b, PassCheck(r));
    RunStep(c, d, Register(r));
    RunStep(c, d + [Register(r)], Enqueue(r));
    assert steps + Submitting(r) == d + [Register(r)] + [Enqueue(r)];
  }

  lemma {:induction false} WorkKeepsOutside(c: Config, steps: seq<Step>, more: seq<Step>)
    requires forall step :: step in more ==> step.Work?
    ensures var s, t := Run(c, steps), Run(c, steps + more); t.closer == s.closer && t.cancelled == s.cancelled
  {
    hide LaneApply, LaneEnabled;
    if more == [] {
      assert steps + more == steps;
    } else {
      var init, last := more[..|more| - 1], more[|more| - 1];
      assert last in more && forall step :: step in init ==> step in more;
      assert (steps + more)[..|steps + more| - 1] == steps + init && (steps + more)[|steps + more| - 1] == last;
      WorkKeepsOutside(c, steps, init);
    }
  }

  // From any moment of an open run, and however executor calls end, finitely many steps of its
  // worker take an admitted request whose caller stays through an executor call, and it hears
  // how that call ended for it.
  lemma {:induction false} StayingCallerIsServed(c: Config, steps: seq<Step>, name: string, r: Request, ends: Lane -> Ending)
    returns (more: seq<Step>, i: nat, j: nat)
    requires ValidConfig(c) && name in Run(c, steps).lanes && r in Run(c, steps).lanes[name].admitted
    requires Run(c, steps).closer == Open && r !in Run(c, steps).cancelled
    ensures forall step :: step in more ==> step.Work? && step.name == name
    ensures name in Run(c, steps + more).lanes
    ensures var lane := Run(c, steps + more).lanes[name];
      && ServedIn(lane, i, j, r) && r in lane.answers
      && Hears(lane.answers[r], lane.endings[i], |lane.calls[i]|, j)
  {
    more := AdmittedIsAnswered(c, steps, name, ends);
    hide Run, LaneInv, LockHeld, SendersKnown, ClosingInOrder, OwnRequests;
    WorkKeepsOutside(c, steps, more);
    var t := Run(c, steps + more);
    RunKeepsInv(c, steps + more);
    KeptLane(c, t, name);
    i, j := WasServed(c, Closed(t), t.cancelled, t.lanes[name], r);
  }

  lemma WasServed(c: Config, closed: bool, cancelled: set<Request>, lane: Lane, r: Request) returns (i: nat, j: nat)
    requires LaneInv(c, closed, cancelled, lane) && r in lane.answers && !closed && r !in cancelled
    ensures ServedIn(lane, i, j, r) && Hears(lane.answers[r], lane.endings[i], |lane.calls[i]|, j)
  {
    hide InOrder, Accounted, Bounded, Sorted, Hears;
    var k :| 0 <= k < |lane.settled| && Requests(lane.settled)[k] == r;
    i, j := LiveWasServed(lane, k);
    assert OutcomeTold(lane, i, j);
  }

  // ---- Filling a batch ----

  // A batch is closed only because it holds as many requests or events as it may, nobody else is
  // waiting, the next request does not fit or, when batches wait for company, the wait is over.
  lemma {:induction false} BatchEndsForAReason(c: Config, steps: seq<Step>, name: string, step: LaneStep)
    requires ValidConfig(c) && Enabled(c, Run(c, steps), Work(name, step))
    requires Run(c, steps).lanes[name].worker.Draining?
    requires !Apply(c, Run(c, steps), Work(name, step)).lanes[name].worker.Draining?
    ensures var lane := Run(c, steps).lanes[name];
      var batch := lane.worker.batch;
      && (|| |batch| == c.maxBatchRequests || Events(batch) >= c.maxBatchEvents || c.delayed
          || lane.queue == [] || Events(batch) + lane.queue[0].events > c.maxBatchEvents)
      && var after := Apply(c, Run(c, steps), Work(name, step)).lanes[name].worker;
         after == Drained(batch, None) || (lane.queue != [] && after == Drained(batch, Some(lane.queue[0])))
  {
    hide Run, Deliver, DeliverAll, Told, Events, LaneInv, LockHeld, SendersKnown, ClosingInOrder, OwnRequests;
    var s := Run(c, steps);
    RunKeepsInv(c, steps);
    KeptLane(c, s, name);
    LaneFacts(c, Closed(s), s.cancelled, s.lanes[name]);
  }

  // ---- Close ----

  // Close can be called at any moment of any run and then returns.
  lemma {:induction false} CloseCompletes(c: Config, steps: seq<Step>) returns (more: seq<Step>)
    requires ValidConfig(c)
    ensures Run(c, steps + more).closer == Done
  {
    hide Run, Remaining;
    if Run(c, steps).closer == Open {
      RunStep(c, steps, Signal);
      var rest := CloseReturns(c, steps + [Signal]);
      more := [Signal] + rest;
      assert steps + more == steps + [Signal] + rest;
    } else {
      more := CloseReturns(c, steps);
    }
  }
}
