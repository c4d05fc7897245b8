// Every admitted request is answered (internal/groupcommit/coordinator.go): a worker always has
// a step to take until it has answered everybody, and no request waits for more than a bounded
// number of its worker's steps, whatever else goes on and however executor calls end.
module GroupCommitProgress {
  import opened Common
  import opened Ordering
  import opened GroupCommitLane
  import opened GroupCommit

  // ---- The work a lane has left ----

  function WorkerWork(w: Worker): nat {
    match w
    case Waiting(carry) => 11 * |Optional(carry)| + 2
    case Holding(_) => 12
    case Draining(batch, _) => 4 * |batch| + 7
    case Drained(batch, carry) => 4 * |batch| + 11 * |Optional(carry)| + 6
    case Filtering(batch, next, _, carry) => (if next <= |batch| then |batch| - next else 0) + 11 * |Optional(carry)| + 5
    case Executing(_, _, carry) => 11 * |Optional(carry)| + 4
    case Flushed(carry) => 11 * |Optional(carry)| + 3
    case Refusing(held) => 3 * |held| + 1
    case Exited => 0
  }

  function LaneWork(lane: Lane): nat {
    12 * |lane.queue| + WorkerWork(lane.worker)
  }

  // Every step of a worker uses some of it up, before and after Close.
  lemma WorkerStepCounts(c: Config, closed: bool, cancelled: set<Request>, lane: Lane, step: LaneStep)
    requires LaneEnabled(c, closed, cancelled, lane, step) && WorkerBounded(c, lane.worker)
    ensures LaneWork(LaneApply(c, closed, cancelled, lane, step)) < LaneWork(lane)
  {
    hide DeliverAll, Told, Deliver, Events, WithinBounds, Room;
  }

  // Nothing queued, nothing in hand, and no flush under way.
  predicate Quiet(lane: Lane) {
    lane.queue == [] && InHand(lane.worker) == [] && (lane.worker.Waiting? || lane.worker.Refusing? || lane.worker.Exited?)
  }

  // Until it is quiet a worker has a step to take. `ending` is how a running call ends.
  lemma WorkerMovesOn(c: Config, closed: bool, cancelled: set<Request>, lane: Lane, ending: Ending) returns (step: LaneStep)
    requires !Quiet(lane) && WorkerBounded(c, lane.worker) && (lane.worker.Exited? ==> lane.queue == [])
    ensures LaneEnabled(c, closed, cancelled, lane, step)
    ensures lane.worker.Executing? ==> step == FinishExecution(ending)
  {
    var w := lane.worker;
    match w
    case Waiting(carry) => step := if carry.Some? then TakeCarry else TakeQueued;
    case Holding(_) => step := if closed then RefuseFirst else StartBatch;
    case Draining(batch, events) =>
      step := if !Room(c, batch, events) || lane.queue == [] then EndBatch
              else if events + lane.queue[0].events <= c.maxBatchEvents then AddToBatch else CarryOver;
    case Drained(_, _) => step := if closed then RefuseBatch else StartFlush;
    case Filtering(batch, next, live, _) =>
      step := if next < |batch| then (if batch[next] in cancelled then DropCancelled else KeepLive)
              else if live == [] then FlushNothing else Execute;
    case Executing(_, _, _) => step := FinishExecution(ending);
    case Flushed(_) => step := if closed then RefuseCarry else Continue;
    case Refusing(held) => step := if held != [] then RefuseHeld else RefuseQueued;
  }

  // A quiet lane has answered everybody it admitted.
  lemma QuietIsAnswered(c: Config, closed: bool, cancelled: set<Request>, lane: Lane)
    requires LaneInv(c, closed, cancelled, lane) && Quiet(lane)
    ensures forall r :: r in lane.admitted ==> r in lane.answers
  {
    hide InOrder, Answered, Requests, Bounded, Sorted, Justified;
    forall r | r in lane.admitted ensures r in lane.answers {
      SettledIsAnswered(lane, r);
    }
  }

  // ---- From any moment, the worker alone answers everybody ----

  lemma RunStep(c: Config, steps: seq<Step>, step: Step)
    requires Enabled(c, Run(c, steps), step)
    ensures Run(c, steps + [step]) == Apply(c, Run(c, steps), step)
  {
    assert (steps + [step])[..|steps|] == steps;
  }

  lemma WorkStep(c: Config, steps: seq<Step>, name: string, ends: Lane -> Ending) returns (step: LaneStep)
    requires ValidConfig(c) && name in Run(c, steps).lanes && !Quiet(Run(c, steps).lanes[name])
    ensures var s, t := Run(c, steps), Run(c, steps + [Work(name, step)]);
      && Enabled(c, s, Work(name, step))
      && (s.lanes[name].worker.Executing? ==> step == FinishExecution(ends(s.lanes[name])))
      && name in t.lanes && t.lanes[name].admitted == s.lanes[name].admitted
      && LaneWork(t.lanes[name]) < LaneWork(s.lanes[name])
  {
    var s := Run(c, steps);
    RunKeepsInv(c, steps);
    hide Run, LaneApply, LaneEnabled, LaneInv, LaneWork, Quiet;
    KeptLane(c, s, name);
    LaneFacts(c, Closed(s), s.cancelled, s.lanes[name]);
    step := WorkerMovesOn(c, Closed(s), s.cancelled, s.lanes[name], ends(s.lanes[name]));
    WorkerStepCounts(c, Closed(s), s.cancelled, s.lanes[name], step);
    SettlingAdmitsNone(c, Closed(s), s.cancelled, s.lanes[name], step);
    RunStep(c, steps, Work(name, step));
  }

  lemma LaneFacts(c: Config, closed: bool, cancelled: set<Request>, lane: Lane)
    requires LaneInv(c, closed, cancelled, lane)
    ensures WorkerBounded(c, lane.worker) && (lane.worker.Exited? ==> lane.queue == [])
  {
    hide Accounted, InOrder, Sorted, Answered, WorkerBounded;
  }

  lemma QuietRunIsAnswered(c: Config, steps: seq<Step>, name: string)
    requires ValidConfig(c) && name in Run(c, steps).lanes && Quiet(Run(c, steps).lanes[name])
    ensures forall r :: r in Run(c, steps).lanes[name].admitted ==> r in Run(c, steps).lanes[name].answers
  {
    hide Run, LaneInv, Quiet, OwnRequests, LockHeld, SendersKnown, ClosingInOrder;
    var s := Run(c, steps);
    RunKeepsInv(c, steps);
    KeptLane(c, s, name);
    QuietIsAnswered(c, Closed(s), s.cancelled, s.lanes[name]);
  }

  // From any moment of any run, open or closed, and however executor calls end, finitely many
  // steps of a boundary's own worker answer every request admitted so far.
  lemma {:induction false} AdmittedIsAnswered(c: Config, steps: seq<Step>, name: string, ends: Lane -> Ending) returns (more: seq<Step>)
    requires ValidConfig(c) && name in Run(c, steps).lanes
    ensures forall step :: step in more ==> step.Work? && step.name == name
    ensures |more| <= LaneWork(Run(c, steps).lanes[name])
    ensures var t := Run(c, steps + more);
      name in t.lanes && forall r :: r in Run(c, steps).lanes[name].admitted ==> r in t.lanes[name].answers
    decreases LaneWork(Run(c, steps).lanes[name])
  {
    hide Run, Enabled, LaneWork, Quiet;
    if Quiet(Run(c, steps).lanes[name]) {
      more := [];
      assert steps + more == steps;
      QuietRunIsAnswered(c, steps, name);
    } else {
      var step := WorkStep(c, steps, name, ends);
      var rest := AdmittedIsAnswered(c, steps + [Work(name, step)], name, ends);
      more := [Work(name, step)] + rest;
      assert steps + more == steps + [Work(name, step)] + rest;
    }
  }

  // ---- Nobody waits for ever ----

  // How far a worker is from settling its next request, for batches of at most `limit`.
  function Phase(limit: nat, w: Worker): nat {
    match w
    case Waiting(_) => limit + 4
    case Holding(_) => limit + 3
    case Draining(batch, _) => 2 + (if |batch| <= limit then limit - |batch| else 0)
    case Drained(_, _) => 1
    case Filtering(batch, next, _, _) => if next < |batch| then 0 else limit + 7
    case Executing(_, _, _) => limit + 6
    case Flushed(_) => limit + 5
    case Refusing(_) => 0
    case Exited => 0
  }

  // How far a worker is from answering the live requests of its current batch.
  function ToAnswer(w: Worker): nat {
    match w
    case Filtering(batch, next, _, _) => (if next <= |batch| then |batch| - next else 0) + 2
    case _ => 1
  }

  // `cost` for each of a number of requests.
  function Rounds(requests: nat, cost: nat): nat {
    if requests == 0 then 0 else Rounds(requests - 1, cost) + cost
  }

  // A bound on the worker's steps before the i-th admitted request is answered.
  function Wait(c: Config, lane: Lane, i: nat): nat
    requires i < |lane.admitted|
  {
    var limit := c.maxBatchRequests;
    if lane.admitted[i] in lane.answers then 0
    else if i < |lane.settled| then ToAnswer(lane.worker)
    else Rounds(i + 1 - |lane.settled|, limit + 8) + Phase(limit, lane.worker) + limit + 3
  }

  // A step that settles nothing brings the worker closer to settling its next request.
  lemma PhaseFalls(c: Config, closed: bool, cancelled: set<Request>, lane: Lane, step: LaneStep)
    requires ValidConfig(c) && LaneEnabled(c, closed, cancelled, lane, step) && WorkerBounded(c, lane.worker) && !Settles(step) && !step.Exit?
    ensures Phase(c.maxBatchRequests, LaneApply(c, closed, cancelled, lane, step).worker) < Phase(c.maxBatchRequests, lane.worker)
  {
    hide DeliverAll, Told, Events, Deliver;
  }

  lemma MovingSettlesNone(c: Config, closed: bool, cancelled: set<Request>, lane: Lane, step: LaneStep)
    requires LaneEnabled(c, closed, cancelled, lane, step) && !Settles(step)
    ensures LaneApply(c, closed, cancelled, lane, step).settled == lane.settled
    ensures step.Exit? ==> InHand(lane.worker) + lane.queue == []
  {
    hide DeliverAll, Told;
  }

  lemma NotSettledMeansMore(lane: Lane, i: nat)
    requires Accounted(lane) && |lane.settled| <= i < |lane.admitted|
    ensures InHand(lane.worker) + lane.queue != []
  {
    hide InHand;
  }

  // What is settled waits at most for the current flush.
  lemma SettledWaitFalls(c: Config, closed: bool, cancelled: set<Request>, lane: Lane, step: LaneStep, i: nat)
    requires LaneInv(c, closed, cancelled, lane) && LaneEnabled(c, closed, cancelled, lane, step)
    requires i < |lane.settled| && i < |lane.admitted| && lane.admitted[i] !in lane.answers
    ensures lane.worker.Filtering? || lane.worker.Executing?
    ensures var t := LaneApply(c, closed, cancelled, lane, step);
      t.worker.Filtering? || t.worker.Executing? ==> ToAnswer(t.worker) < ToAnswer(lane.worker)
  {
    assert lane.admitted[i] == Requests(lane.settled)[i];
    if !lane.worker.Filtering? && !lane.worker.Executing? {
      SettledIsAnswered(lane, lane.admitted[i]);
    }
    hide DeliverAll, Told, Answered, InOrder, Sorted, Accounted;
  }

  lemma OnceSettledAnswered(c: Config, closed: bool, cancelled: set<Request>, lane: Lane, i: nat)
    requires LaneInv(c, closed, cancelled, lane) && !lane.worker.Filtering? && !lane.worker.Executing?
    requires i < |lane.settled| && i < |lane.admitted|
    ensures lane.admitted[i] in lane.answers
  {
    assert lane.admitted[i] == Requests(lane.settled)[i];
    hide Bounded, Sorted, Justified, Answered, InOrder;
    SettledIsAnswered(lane, lane.admitted[i]);
  }

  lemma PhaseBounded(limit: nat, w: Worker)
    ensures Phase(limit, w) <= limit + 7
  {
  }

  lemma ToAnswerBounded(c: Config, w: Worker)
    requires WorkerBounded(c, w)
    ensures ToAnswer(w) <= c.maxBatchRequests + 2
  {
  }

  lemma WaitAfterSettling(c: Config, lane: Lane, t: Lane, i: nat)
    requires i < |lane.admitted| && t.admitted == lane.admitted && lane.admitted[i] !in lane.answers
    requires |t.settled| == |lane.settled| + 1 && i >= |lane.settled|
    requires Phase(c.maxBatchRequests, t.worker) <= c.maxBatchRequests + 7 && ToAnswer(t.worker) <= c.maxBatchRequests + 2
    ensures Wait(c, t, i) < Wait(c, lane, i)
  {
    hide Phase, ToAnswer;
  }

  lemma WaitAfterMoving(c: Config, lane: Lane, t: Lane, i: nat)
    requires i < |lane.admitted| && t.admitted == lane.admitted && lane.admitted[i] !in lane.answers
    requires t.settled == lane.settled && i >= |lane.settled|
    requires Phase(c.maxBatchRequests, t.worker) < Phase(c.maxBatchRequests, lane.worker)
    ensures Wait(c, t, i) < Wait(c, lane, i)
  {
    hide Phase, ToAnswer, Rounds;
  }

  // A settling step settles the next request in line.
  lemma SettlingWaitFalls(c: Config, closed: bool, cancelled: set<Request>, lane: Lane, step: LaneStep, i: nat)
    requires ValidConfig(c) && LaneInv(c, closed, cancelled, lane) && LaneEnabled(c, closed, cancelled, lane, step) && Settles(step)
    requires |lane.settled| <= i < |lane.admitted| && lane.admitted[i] !in lane.answers
    ensures var t := LaneApply(c, closed, cancelled, lane, step);
      i < |t.admitted| && Wait(c, t, i) < Wait(c, lane, i)
  {
    hide LaneInv, LaneEnabled, LaneApply, WorkerBounded, Phase, ToAnswer, Wait, InHand;
    var t := LaneApply(c, closed, cancelled, lane, step);
    LaneStepKeepsInv(c, closed, cancelled, lane, step);
    SettlesOldest(c, closed, cancelled, lane, step);
    SettlingAdmitsNone(c, closed, cancelled, lane, step);
    LaneFacts(c, closed, cancelled, t);
    PhaseBounded(c.maxBatchRequests, t.worker);
    ToAnswerBounded(c, t.worker);
    WaitAfterSettling(c, lane, t, i);
  }

  lemma MovingWaitFalls(c: Config, closed: bool, cancelled: set<Request>, lane: Lane, step: LaneStep, i: nat)
    requires ValidConfig(c) && LaneInv(c, closed, cancelled, lane) && LaneEnabled(c, closed, cancelled, lane, step) && !Settles(step)
    requires |lane.settled| <= i < |lane.admitted| && lane.admitted[i] !in lane.answers
    ensures var t := LaneApply(c, closed, cancelled, lane, step);
      i < |t.admitted| && Wait(c, t, i) < Wait(c, lane, i)
  {
    assert Accounted(lane);
    hide LaneInv, LaneEnabled, LaneApply, WorkerBounded, Phase, ToAnswer, Wait, InHand, Accounted, Settles;
    LaneFacts(c, closed, cancelled, lane);
    NotSettledMeansMore(lane, i);
    SettlingAdmitsNone(c, closed, cancelled, lane, step);
    MovingSettlesNone(c, closed, cancelled, lane, step);
    PhaseFalls(c, closed, cancelled, lane, step);
    WaitAfterMoving(c, lane, LaneApply(c, closed, cancelled, lane, step), i);
  }

  lemma SettledFalls(c: Config, closed: bool, cancelled: set<Request>, lane: Lane, step: LaneStep, i: nat)
    requires ValidConfig(c) && LaneInv(c, closed, cancelled, lane) && LaneEnabled(c, closed, cancelled, lane, step)
    requires i < |lane.settled| && i < |lane.admitted| && lane.admitted[i] !in lane.answers
    ensures var t := LaneApply(c, closed, cancelled, lane, step);
      i < |t.admitted| && Wait(c, t, i) < Wait(c, lane, i)
  {
    var t := LaneApply(c, closed, cancelled, lane, step);
    hide LaneInv, LaneEnabled, LaneApply, ToAnswer, Phase;
    LaneStepKeepsInv(c, closed, cancelled, lane, step);
    SettlingAdmitsNone(c, closed, cancelled, lane, step);
    SettledOnlyGrows(c, closed, cancelled, lane, step);
    SettledWaitFalls(c, closed, cancelled, lane, step, i);
    if !t.worker.Filtering? && !t.worker.Executing? {
      OnceSettledAnswered(c, closed, cancelled, t, i);
      ToAnswerPositive(lane.worker);
    }
  }

  lemma ToAnswerPositive(w: Worker)
    ensures ToAnswer(w) > 0
  {
  }

  lemma SettledOnlyGrows(c: Config, closed: bool, cancelled: set<Request>, lane: Lane, step: LaneStep)
    requires LaneEnabled(c, closed, cancelled, lane, step)
    ensures |LaneApply(c, closed, cancelled, lane, step).settled| >= |lane.settled|
  {
    hide DeliverAll, Told, Deliver;
  }

  // Every step of its worker brings an unanswered request closer to its answer.
  lemma {:induction false} WaitFalls(c: Config, closed: bool, cancelled: set<Request>, lane: Lane, step: LaneStep, i: nat)
    requires ValidConfig(c) && LaneInv(c, closed, cancelled, lane) && LaneEnabled(c, closed, cancelled, lane, step)
    requires i < |lane.admitted| && lane.admitted[i] !in lane.answers
    ensures var t := LaneApply(c, closed, cancelled, lane, step);
      i < |t.admitted| && t.admitted[i] == lane.admitted[i] && Wait(c, t, i) < Wait(c, lane, i)
  {
    hide LaneInv, LaneEnabled, LaneApply, Wait, Settles;
    SettlingAdmitsNone(c, closed, cancelled, lane, step);
    if i < |lane.settled| {
      SettledFalls(c, closed, cancelled, lane, step, i);
    } else if Settles(step) {
      SettlingWaitFalls(c, closed, cancelled, lane, step, i);
    } else {
      MovingWaitFalls(c, closed, cancelled, lane, step, i);
    }
  }

  // ---- Over whole runs ----

  // No step of anybody takes a request further from its answer, and each of its worker's own
  // brings it closer.
  ghost predicate WaitsLess(c: Config, s: State, t: State, name: string, i: nat, own: bool)
    requires name in s.lanes && i < |s.lanes[name].admitted|
  {
    && name in t.lanes && i < |t.lanes[name].admitted| && t.lanes[name].admitted[i] == s.lanes[name].admitted[i]
    && var before, after := Wait(c, s.lanes[name], i), Wait(c, t.lanes[name], i);
       after <= before && (own && before > 0 ==> after < before)
  }

  lemma OwnStepWaitsLess(c: Config, s: State, name: string, step: LaneStep, i: nat)
    requires ValidConfig(c) && Inv(c, s) && Enabled(c, s, Work(name, step)) && i < |s.lanes[name].admitted|
    ensures WaitsLess(c, s, Apply(c, s, Work(name, step)), name, i, true)
  {
    hide LaneInv, LaneEnabled, LaneApply, OwnRequests, LockHeld, SendersKnown, ClosingInOrder;
    KeptLane(c, s, name);
    var lane := s.lanes[name];
    if lane.admitted[i] in lane.answers {
      WorkKeepsGiven(c, Closed(s), s.cancelled, lane, step);
      SettlingAdmitsNone(c, Closed(s), s.cancelled, lane, step);
    } else {
      hide Wait;
      WaitFalls(c, Closed(s), s.cancelled, lane, step, i);
    }
  }

  lemma OtherStepWaitsNoMore(c: Config, s: State, step: Step, name: string, i: nat)
    requires Enabled(c, s, step) && name in s.lanes && i < |s.lanes[name].admitted| && !(step.Work? && step.name == name)
    ensures WaitsLess(c, s, Apply(c, s, step), name, i, false)
  {
    hide LaneApply, LaneEnabled, Phase, ToAnswer;
  }

  predicate IsOwn(step: Step, name: string) {
    step.Work? && step.name == name
  }

  // How many steps the worker of `name` takes in the rest of a run.
  function OwnSteps(c: Config, steps: seq<Step>, more: seq<Step>, name: string): nat {
    if more == [] then 0
    else
      var init, last := more[..|more| - 1], more[|more| - 1];
      OwnSteps(c, steps, init, name) + (if Enabled(c, Run(c, steps + init), last) && IsOwn(last, name) then 1 else 0)
  }

  lemma StepWaitsLess(c: Config, s: State, step: Step, name: string, i: nat)
    requires ValidConfig(c) && Inv(c, s) && Enabled(c, s, step) && name in s.lanes && i < |s.lanes[name].admitted|
    ensures WaitsLess(c, s, Apply(c, s, step), name, i, IsOwn(step, name))
  {
    hide Inv, LaneEnabled, LaneApply, Apply, WaitsLess;
    if IsOwn(step, name) {
      OwnStepWaitsLess(c, s, name, step.step, i);
    } else {
      OtherStepWaitsNoMore(c, s, step, name, i);
    }
  }

  lemma {:induction false} WaitShrinks(c: Config, steps: seq<Step>, more: seq<Step>, name: string, i: nat)
    requires ValidConfig(c) && name in Run(c, steps).lanes && i < |Run(c, steps).lanes[name].admitted|
    ensures var s, t := Run(c, steps), Run(c, steps + more);
      && name in t.lanes && i < |t.lanes[name].admitted| && t.lanes[name].admitted[i] == s.lanes[name].admitted[i]
      && (Wait(c, t.lanes[name], i) == 0 || Wait(c, t.lanes[name], i) + OwnSteps(c, steps, more, name) <= Wait(c, s.lanes[name], i))
  {
    hide Wait, Inv, Apply, Enabled;
    if more == [] {
      assert steps + more == steps;
    } else {
      var init, last := more[..|more| - 1], more[|more| - 1];
      assert (steps + more)[..|steps + more| - 1] == steps + init && (steps + more)[|steps + more| - 1] == last;
      WaitShrinks(c, steps, init, name, i);
      RunKeepsInv(c, steps + init);
      if Enabled(c, Run(c, steps + init), last) {
        StepWaitsLess(c, Run(c, steps + init), last, name, i);
      }
    }
  }

  // No starvation: in every run, open or closed, with requests arriving and callers leaving at
  // any rate and executor calls ending in any way, an admitted request has been answered by the
  // time its worker has taken as many steps as it had to wait for when we looked.
  lemma {:induction false} NobodyStarves(c: Config, steps: seq<Step>, more: seq<Step>, name: string, i: nat)
    requires ValidConfig(c) && name in Run(c, steps).lanes && i < |Run(c, steps).lanes[name].admitted|
    requires OwnSteps(c, steps, more, name) >= Wait(c, Run(c, steps).lanes[name], i)
    ensures name in Run(c, steps + more).lanes
    ensures Run(c, steps).lanes[name].admitted[i] in Run(c, steps + more).lanes[name].answers
  {
    hide Run, OwnSteps, Phase, ToAnswer;
    WaitShrinks(c, steps, more, name, i);
    WaitIsOver(c, Run(c, steps + more).lanes[name], i);
  }

  lemma WaitIsOver(c: Config, lane: Lane, i: nat)
    requires i < |lane.admitted|
    ensures Wait(c, lane, i) == 0 <==> lane.admitted[i] in lane.answers
  {
    hide Phase;
  }

  // And as long as it is unanswered its worker can take a step, so any fair schedule gets there.
  lemma {:induction false} UnansweredCanMove(c: Config, steps: seq<Step>, name: string, i: nat, ends: Lane -> Ending) returns (step: LaneStep)
    requires ValidConfig(c) && name in Run(c, steps).lanes && i < |Run(c, steps).lanes[name].admitted|
    requires Run(c, steps).lanes[name].admitted[i] !in Run(c, steps).lanes[name].answers
    ensures Enabled(c, Run(c, steps), Work(name, step))
  {
    hide Run, Quiet, Enabled;
    if Quiet(Run(c, steps).lanes[name]) {
      QuietRunIsAnswered(c, steps, name);
      assert false;
    }
    step := WorkStep(c, steps, name, ends);
  }
}
