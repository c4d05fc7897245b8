// A save submitted to the coordinator (internal/groupcommit/coordinator.go) with the SQLite engine
// behind it (sqlite/group_commit_executor.go) gets in, is served and answered.
module GroupCommitService {
  import opened Ordering
  import opened GroupCommitLane
  import opened GroupCommit
  import opened GroupCommitProgress
  import opened GroupCommitAnswers
  import opened GroupCommitStore
  import Store = SqliteStore

  lemma MoveOne(c: Config, save: Saves, moves: seq<Move>, move: Move)
    requires MoveEnabled(c, RunSystem(c, save, moves), move)
    ensures RunSystem(c, save, moves + [move]) == GroupCommitStore.After(c, RunSystem(c, save, moves), save, move)
  {
    hide MoveEnabled, GroupCommitStore.After;
    assert (moves + [move])[..|moves|] == moves;
  }

  lemma PlainMove(c: Config, save: Saves, moves: seq<Move>, step: Step)
    requires Enabled(c, RunSystem(c, save, moves).coordinator, step) && !step.Work?
    ensures var sys := RunSystem(c, save, moves);
      RunSystem(c, save, moves + [Plain(step)]) == System(Apply(c, sys.coordinator, step), sys.backends)
  {
    hide RunSystem, Enabled, Apply;
    MoveOne(c, save, moves, Plain(step));
  }

  // ---- Getting in ----

  function Submission(r: Request): seq<Move> {
    [Plain(Begin(r)), Plain(Lock(r)), Plain(PassCheck(r)), Plain(Register(r)), Plain(Enqueue(r))]
  }

  lemma SubmissionEnters(c: Config, save: Saves, moves: seq<Move>, r: Request)
    requires ValidConfig(c) && MayEnter(c, RunSystem(c, save, moves).coordinator, r)
    ensures var sys := RunSystem(c, save, moves);
      RunSystem(c, save, moves + Submission(r)) == System(Entered(sys.coordinator, r), sys.backends)
  {
    hide RunSystem, Enabled, Apply, MayEnter, Entered, Registered, AtStage;
    var s := RunSystem(c, save, moves).coordinator;
    Registers(c, s, r);
    Enters(c, s, r);
    var a := moves + [Plain(Begin(r))];
    var b := a + [Plain(Lock(r))];
    var d := b + [Plain(PassCheck(r))];
    var e := d + [Plain(Register(r))];
    PlainMove(c, save, moves, Begin(r));
    PlainMove(c, save, a, Lock(r));
    PlainMove(c, save, b, PassCheck(r));
    PlainMove(c, save, d, Register(r));
    PlainMove(c, save, e, Enqueue(r));
    assert moves + Submission(r) == e + [Plain(Enqueue(r))];
  }

  // ---- Being served ----

  // The worker of `name` moves, and its calls commit.
  predicate Serving(name: string, move: Move) {
    match move
    case Plain(step) => step.Work? && step.name == name
    case Finish(other, how) => other == name && how == Commits
  }

  // A lane that has gone on, with every call that has ended since returning.
  ghost predicate GoneOn(before: Lane, after: Lane) {
    && after.admitted == before.admitted && before.calls <= after.calls && before.endings <= after.endings
    && forall i :: |before.endings| <= i < |after.endings| ==> after.endings[i].Returned?
  }

  lemma GoneOnTwice(a: Lane, b: Lane, d: Lane)
    requires GoneOn(a, b) && GoneOn(b, d)
    ensures GoneOn(a, d)
  {
    assert forall i :: |a.endings| <= i < |b.endings| ==> d.endings[i] == b.endings[i];
  }

  lemma LaneGoesOn(c: Config, closed: bool, cancelled: set<Request>, lane: Lane, step: LaneStep)
    requires LaneEnabled(c, closed, cancelled, lane, step) && (step.FinishExecution? ==> step.ending.Returned?)
    ensures GoneOn(lane, LaneApply(c, closed, cancelled, lane, step))
  {
    hide Deliver, DeliverAll, Told;
  }

  lemma ServingMove(c: Config, save: Saves, moves: seq<Move>, name: string) returns (move: Move)
    requires ValidConfig(c) && name in RunSystem(c, save, moves).coordinator.lanes
    requires !Quiet(RunSystem(c, save, moves).coordinator.lanes[name])
    ensures Serving(name, move)
    ensures var s, t := RunSystem(c, save, moves).coordinator, RunSystem(c, save, moves + [move]).coordinator;
      && name in t.lanes && GoneOn(s.lanes[name], t.lanes[name]) && LaneWork(t.lanes[name]) < LaneWork(s.lanes[name])
      && t.closer == s.closer && t.cancelled == s.cancelled
  {
    hide RunSystem, LaneApply, LaneEnabled, LaneInv, LaneWork, Quiet, AllBacked, GoneOn, LockHeld, SendersKnown, ClosingInOrder, OwnRequests;
    var sys := RunSystem(c, save, moves);
    var s, lane := sys.coordinator, sys.coordinator.lanes[name];
    SystemKeepsInv(c, save, moves);
    KeptLane(c, s, name);
    LaneFacts(c, Closed(s), s.cancelled, lane);
    var ending := if lane.worker.Executing? then EndingOf(sys, save, name, Commits) else Returned([]);
    var step := GroupCommitProgress.WorkerMovesOn(c, Closed(s), s.cancelled, lane, ending);
    OnlyExecutingFinishes(c, Closed(s), s.cancelled, lane, step);
    WorkerStepCounts(c, Closed(s), s.cancelled, lane, step);
    LaneGoesOn(c, Closed(s), s.cancelled, lane, step);
    move := if lane.worker.Executing? then Finish(name, Commits) else Plain(Work(name, step));
    MoveOne(c, save, moves, move);
  }

  lemma OnlyExecutingFinishes(c: Config, closed: bool, cancelled: set<Request>, lane: Lane, step: LaneStep)
    requires LaneEnabled(c, closed, cancelled, lane, step)
    ensures step.FinishExecution? <==> lane.worker.Executing?
  {
  }

  // While its calls commit, a bounded number of moves of a boundary's worker and engine answers
  // everybody admitted so far.
  lemma {:induction false} AllAreServed(c: Config, save: Saves, moves: seq<Move>, name: string) returns (more: seq<Move>)
    requires ValidConfig(c) && name in RunSystem(c, save, moves).coordinator.lanes
    ensures forall move :: move in more ==> Serving(name, move)
    ensures |more| <= LaneWork(RunSystem(c, save, moves).coordinator.lanes[name])
    ensures var s, t := RunSystem(c, save, moves).coordinator, RunSystem(c, save, moves + more).coordinator;
      && name in t.lanes && GoneOn(s.lanes[name], t.lanes[name]) && t.closer == s.closer && t.cancelled == s.cancelled
      && forall r :: r in s.lanes[name].admitted ==> r in t.lanes[name].answers
    decreases LaneWork(RunSystem(c, save, moves).coordinator.lanes[name])
  {
    hide RunSystem, LaneWork, Quiet, Serving;
    var lane := RunSystem(c, save, moves).coordinator.lanes[name];
    if Quiet(lane) {
      more := [];
      assert moves + more == moves;
      QuietIsServed(c, save, moves, name);
    } else {
      hide GoneOn;
      var move := ServingMove(c, save, moves, name);
      var rest := AllAreServed(c, save, moves + [move], name);
      more := [move] + rest;
      assert moves + more == moves + [move] + rest;
      GoneOnTwice(lane, RunSystem(c, save, moves + [move]).coordinator.lanes[name], RunSystem(c, save, moves + more).coordinator.lanes[name]);
      assert lane.admitted == RunSystem(c, save, moves + [move]).coordinator.lanes[name].admitted by {
        SameAdmitted(lane, RunSystem(c, save, moves + [move]).coordinator.lanes[name]);
      }
    }
  }

  lemma SameAdmitted(before: Lane, after: Lane)
    requires GoneOn(before, after)
    ensures after.admitted == before.admitted
  {
  }

  lemma QuietIsServed(c: Config, save: Saves, moves: seq<Move>, name: string)
    requires ValidConfig(c) && name in RunSystem(c, save, moves).coordinator.lanes && Quiet(RunSystem(c, save, moves).coordinator.lanes[name])
    ensures var lane := RunSystem(c, save, moves).coordinator.lanes[name]; forall r :: r in lane.admitted ==> r in lane.answers
  {
    hide RunSystem, LaneInv, Quiet, AllBacked, LockHeld, SendersKnown, ClosingInOrder, OwnRequests;
    var s := RunSystem(c, save, moves).coordinator;
    SystemKeepsInv(c, save, moves);
    KeptLane(c, s, name);
    QuietIsAnswered(c, Closed(s), s.cancelled, s.lanes[name]);
  }

  // A call in which somebody unanswered before was served has ended since.
  lemma ServedSince(before: Lane, after: Lane, i: nat, j: nat, r: Request)
    requires Answered(before) && GoneOn(before, after) && r !in before.answers && ServedIn(after, i, j, r) && |before.endings| <= |before.calls|
    ensures after.endings[i].Returned?
  {
    if i < |before.endings| {
      EarlierIsAnswered(before, i, j, r);
      assert false;
    }
  }

  lemma EarlierIsAnswered(lane: Lane, i: nat, j: nat, r: Request)
    requires Answered(lane) && ServedIn(lane, i, j, r)
    ensures r in lane.answers
  {
    assert OutcomeTold(lane, i, j);
  }

  // From any moment of an open run of coordinator and engine, an admitted request whose caller
  // stays and whose calls commit is told, after a bounded number of its worker's moves, the
  // outcome of its own save, served at its own turn.
  lemma {:induction false} AdmittedSaveIsServed(c: Config, save: Saves, moves: seq<Move>, name: string, r: Request)
    returns (more: seq<Move>, i: nat, j: nat)
    requires ValidConfig(c) && name in RunSystem(c, save, moves).coordinator.lanes
    requires var s := RunSystem(c, save, moves).coordinator;
      s.closer == Open && r !in s.cancelled && r in s.lanes[name].admitted && r !in s.lanes[name].answers
    ensures forall move :: move in more ==> Serving(name, move)
    ensures var sys := RunSystem(c, save, moves + more);
      && name in sys.coordinator.lanes
      && var lane, b := sys.coordinator.lanes[name], BackendOf(sys, name);
         && ServedIn(lane, i, j, r) && i < |b.fails| && r in lane.answers
         && lane.answers[r] == Outcome(TurnOutcome(lane, b, save, i, j))
  {
    more := AllAreServed(c, save, moves, name);
    hide RunSystem, Backed, TurnOutcome, Serving, LaneInv, LockHeld, SendersKnown, ClosingInOrder, OwnRequests, AllBacked, InOrder, Accounted;
    BackedInRun(c, save, moves, name);
    var before, after := RunSystem(c, save, moves).coordinator, RunSystem(c, save, moves + more).coordinator;
    BackedCounts(before.lanes[name], BackendOf(RunSystem(c, save, moves), name), save);
    SystemKeepsInv(c, save, moves + more);
    KeptLane(c, after, name);
    i, j := WasServed(c, Closed(after), after.cancelled, after.lanes[name], r);
    ServedSince(before.lanes[name], after.lanes[name], i, j, r);
    CallerHearsOwnTurn(c, save, moves + more, name, i, j);
  }

  // So a save submitted to an open coordinator with room for it gets in, is served and answered.
  lemma {:induction false} SubmittedSaveIsServed(c: Config, save: Saves, moves: seq<Move>, r: Request)
    returns (more: seq<Move>, i: nat, j: nat)
    requires ValidConfig(c) && MayEnter(c, RunSystem(c, save, moves).coordinator, r)
    ensures forall move :: move in more ==> Serving(r.boundary, move)
    ensures var sys := RunSystem(c, save, moves + Submission(r) + more);
      && r.boundary in sys.coordinator.lanes
      && var lane, b := sys.coordinator.lanes[r.boundary], BackendOf(sys, r.boundary);
         && ServedIn(lane, i, j, r) && i < |b.fails| && r in lane.answers
         && lane.answers[r] == Outcome(TurnOutcome(lane, b, save, i, j))
  {
    hide RunSystem, TurnOutcome, Serving, LaneInv, LockHeld, ClosingInOrder, AllBacked;
    SubmissionEnters(c, save, moves, r);
    SystemKeepsInv(c, save, moves);
    NewcomerIsUnanswered(c, RunSystem(c, save, moves).coordinator, r);
    more, i, j := AdmittedSaveIsServed(c, save, moves + Submission(r), r.boundary, r);
  }

  lemma NewcomerIsUnanswered(c: Config, s: State, r: Request)
    requires Inv(c, s) && r !in s.callers
    ensures r !in LaneIn(s, r.boundary).answers
  {
    if r.boundary in s.lanes {
      var lane := s.lanes[r.boundary];
      hide InOrder, Bounded, Sorted, Justified, LockHeld, SendersKnown, ClosingInOrder, FateTold, OutcomeTold;
      KeptLane(c, s, r.boundary);
      assert OwnRequests(s, r.boundary);
      assert forall q :: q in Requests(lane.settled) ==> q in lane.admitted;
    }
  }

  // ---- However a call goes ----

  // What the j-th of the requests of a call is told of how it went.
  ghost predicate ToldOf(answer: Answer, how: Execution, outcomes: seq<Store.Outcome>, j: nat) {
    match how
    case Commits => j < |outcomes| && answer == Outcome(outcomes[j])
    case Fails => answer == FlushFailed
    case Panics(_) => answer == FlushPanicked
  }

  // A call that commits leaves the tables as serving its requests does and tells each its own
  // outcome; one that fails leaves them as they were and tells each that it failed; one that
  // panics tells each so, and its commit, if it came to that, stands.
  lemma {:induction false} EveryCallIsTold(c: Config, save: Saves, moves: seq<Move>, name: string, how: Execution, j: nat)
    requires ValidConfig(c) && MoveEnabled(c, RunSystem(c, save, moves), Finish(name, how))
    requires j < |RunSystem(c, save, moves).coordinator.lanes[name].worker.live|
    ensures var sys, t := RunSystem(c, save, moves), RunSystem(c, save, moves + [Finish(name, how)]);
      var live := sys.coordinator.lanes[name].worker.live;
      var (tables, outcomes) := Store.ServeAll(BackendOf(sys, name).tables, GroupCommitStore.SavesOf(live, save));
      && BackendOf(t, name).tables == (if how == Fails || how == Panics(false) then BackendOf(sys, name).tables else tables)
      && name in t.coordinator.lanes && live[j] in t.coordinator.lanes[name].answers
      && ToldOf(t.coordinator.lanes[name].answers[live[j]], how, outcomes, j)
  {
    hide RunSystem, Store.ServeAll, LaneInv, LockHeld, SendersKnown, ClosingInOrder, OwnRequests, AllBacked;
    var sys := RunSystem(c, save, moves);
    var lane := sys.coordinator.lanes[name];
    SystemKeepsInv(c, save, moves);
    KeptLane(c, sys.coordinator, name);
    MoveOne(c, save, moves, Finish(name, how));
    ServedCount(sys, save, name);
    FinishTells(c, Closed(sys.coordinator), sys.coordinator.cancelled, lane, EndingOf(sys, save, name, how), j);
  }

  lemma ServedCount(sys: System, save: Saves, name: string)
    requires name in sys.coordinator.lanes && sys.coordinator.lanes[name].worker.Executing?
    ensures |Served(sys, save, name).1| == |sys.coordinator.lanes[name].worker.live|
  {
    hide Store.ServeAll;
    var saves := GroupCommitStore.SavesOf(sys.coordinator.lanes[name].worker.live, save);
    OutcomesCount(BackendOf(sys, name).tables, saves);
  }

  lemma {:induction false} OutcomesCount(s: Store.State, saves: seq<Store.Save>)
    ensures |Store.ServeAll(s, saves).1| == |saves|
  {
    hide Store.Serve;
    if saves != [] {
      OutcomesCount(s, saves[..|saves| - 1]);
    }
  }

  lemma FinishTells(c: Config, closed: bool, cancelled: set<Request>, lane: Lane, ending: Ending, j: nat)
    requires LaneInv(c, closed, cancelled, lane) && lane.worker.Executing? && j < |lane.worker.live|
    ensures var t := LaneApply(c, closed, cancelled, lane, FinishExecution(ending));
      lane.worker.live[j] in t.answers && Hears(t.answers[lane.worker.live[j]], ending, |lane.worker.live|, j)
  {
    hide Accounted, InOrder, Bounded, Justified, Hears, Requests, DeliverAll, Told, FateTold, OutcomeTold;
    var w := lane.worker;
    TellingLive(lane.answers, w.batch, w.live, ending);
  }
}
