// The coordinator (internal/groupcommit/coordinator.go) with the SQLite engine as its executor
// (sqlite/group_commit_executor.go): every executor call is one transaction, which commits and
// returns its outcomes, fails and leaves no trace, or panics before or after its commit.
module GroupCommitStore {
  import opened Common
  import opened Ordering
  import opened GroupCommitLane
  import opened GroupCommit
  import opened EventLog
  import opened ConsistencyQueries
  import Store = SqliteStore
  import opened SqliteTransactions
  import CCC = CommandContextConsistency

  // How an executor call goes in the engine.
  datatype Execution = Commits | Fails | Panics(committed: bool)

  // A boundary's tables, and for each call that has ended whether it left them alone.
  datatype Backend = Backend(tables: Store.State, fails: seq<bool>)

  const NEW_BACKEND := Backend(Store.EMPTY, [])

  datatype System = System(coordinator: State, backends: map<string, Backend>)

  const START := System(INITIAL, map[])

  function BackendIn(backends: map<string, Backend>, name: string): Backend {
    if name in backends then backends[name] else NEW_BACKEND
  }

  function BackendOf(sys: System, name: string): Backend {
    BackendIn(sys.backends, name)
  }

  // A step of the coordinator, or the end of an executor call.
  datatype Move = Plain(step: Step) | Finish(name: string, how: Execution)

  // What each request asks of the engine. A request is executed at most once, so whether its
  // caller has gone by then and the time it is inserted at are part of this too.
  type Saves = Request -> Store.Save

  function SavesOf(requests: seq<Request>, save: Saves): seq<Store.Save> {
    seq(|requests|, i requires 0 <= i < |requests| => save(requests[i]))
  }

  function Batches(calls: seq<seq<Request>>, save: Saves): seq<seq<Store.Save>> {
    seq(|calls|, i requires 0 <= i < |calls| => SavesOf(calls[i], save))
  }

  predicate MoveEnabled(c: Config, sys: System, move: Move) {
    match move
    case Plain(step) => Enabled(c, sys.coordinator, step) && !(step.Work? && step.step.FinishExecution?)
    case Finish(name, _) => name in sys.coordinator.lanes && sys.coordinator.lanes[name].worker.Executing?
  }

  ghost function Served(sys: System, save: Saves, name: string): (Store.State, seq<Store.Outcome>)
    requires name in sys.coordinator.lanes && sys.coordinator.lanes[name].worker.Executing?
  {
    Store.ServeAll(BackendOf(sys, name).tables, SavesOf(sys.coordinator.lanes[name].worker.live, save))
  }

  ghost function EndingOf(sys: System, save: Saves, name: string, how: Execution): Ending
    requires name in sys.coordinator.lanes && sys.coordinator.lanes[name].worker.Executing?
  {
    match how
    case Commits => Returned(Served(sys, save, name).1)
    case Fails => Errored
    case Panics(_) => Panicked
  }

  predicate LeavesTrace(how: Execution) {
    how.Commits? || (how.Panics? && how.committed)
  }

  ghost function BackendAfter(sys: System, save: Saves, name: string, how: Execution): Backend
    requires name in sys.coordinator.lanes && sys.coordinator.lanes[name].worker.Executing?
  {
    var b := BackendOf(sys, name);
    Backend(if LeavesTrace(how) then Served(sys, save, name).0 else b.tables, b.fails + [!LeavesTrace(how)])
  }

  // The coordinator's part of a move.
  ghost function StepOf(sys: System, save: Saves, move: Move): Step
    requires move.Finish? ==> move.name in sys.coordinator.lanes && sys.coordinator.lanes[move.name].worker.Executing?
  {
    match move
    case Plain(step) => step
    case Finish(name, how) => Work(name, FinishExecution(EndingOf(sys, save, name, how)))
  }

  ghost function After(c: Config, sys: System, save: Saves, move: Move): System
    requires MoveEnabled(c, sys, move)
  {
    System(Apply(c, sys.coordinator, StepOf(sys, save, move)),
           if move.Plain? then sys.backends else sys.backends[move.name := BackendAfter(sys, save, move.name, move.how)])
  }

  // A run takes each move that is possible when its turn comes.
  ghost function RunSystem(c: Config, save: Saves, moves: seq<Move>): System {
    if moves == [] then START
    else
      var sys, move := RunSystem(c, save, moves[..|moves| - 1]), moves[|moves| - 1];
      if MoveEnabled(c, sys, move) then After(c, sys, save, move) else sys
  }

  // executeBatch: what the engine's transaction gives the coordinator is a committed call with
  // the engine's outcomes, or a failed one.
  method ExecuteBatch(db: Store.Database, live: seq<Store.PreparedSave>, transactionFails: bool) returns (ending: Ending)
    requires forall i :: 0 <= i < |live| ==> Store.Prepared(live[i])
    modifies db
    ensures ending == if transactionFails || old(db.nextId) < 1 then Errored
                      else Returned(Store.ServeAll(old(db.Contents()), Store.SavesOf(live)).1)
    ensures db.Contents() == if ending.Errored? then old(db.Contents()) else Store.ServeAll(old(db.Contents()), Store.SavesOf(live)).0
  {
    hide Store.Prepared, Store.ServeAll;
    var outcomes := db.ExecuteTransaction(live, transactionFails);
    ending := if outcomes.Ok? then Returned(outcomes.value) else Errored;
  }

  // ---- The tables and the answers ----

  // The calls that have ended.
  function EndedCalls(lane: Lane): seq<seq<Request>> {
    if |lane.endings| <= |lane.calls| then lane.calls[..|lane.endings|] else lane.calls
  }

  // A call returns exactly its transaction's outcomes, and an error means it left no trace.
  predicate EndedAs(ending: Ending, answer: Reply, fails: bool) {
    match ending
    case Returned(outcomes) => !fails && answer == Ok(outcomes)
    case Errored => fails
    case Panicked => true
  }

  ghost predicate Backed(lane: Lane, b: Backend, save: Saves) {
    && |b.fails| == |lane.endings| <= |lane.calls|
    && var (tables, answers) := RunTransactions(Store.EMPTY, Batches(EndedCalls(lane), save), b.fails);
      && b.tables == tables && |answers| == |b.fails|
      && forall i :: 0 <= i < |b.fails| ==> EndedAs(lane.endings[i], answers[i], b.fails[i])
  }

  // Every lane is backed, and every backend is a lane's.
  ghost predicate AllBacked(lanes: map<string, Lane>, backends: map<string, Backend>, save: Saves) {
    && (forall name :: name in lanes ==> Backed(lanes[name], BackendIn(backends, name), save))
    && (forall name :: name in backends ==> name in lanes)
  }

  ghost predicate SystemInv(c: Config, save: Saves, sys: System) {
    Inv(c, sys.coordinator) && AllBacked(sys.coordinator.lanes, sys.backends, save)
  }

  // A step that ends no call keeps what a lane's ended calls are backed by.
  lemma BackedStays(before: Lane, after: Lane, b: Backend, save: Saves)
    requires Backed(before, b, save) && after.endings == before.endings && before.calls <= after.calls
    ensures Backed(after, b, save)
  {
    hide RunTransactions;
    assert EndedCalls(after) == EndedCalls(before);
  }

  lemma NewIsBacked(save: Saves)
    ensures Backed(NEW_LANE, NEW_BACKEND, save)
  {
    assert Batches([], save) == [];
  }

  lemma LaneStepExtends(c: Config, closed: bool, cancelled: set<Request>, lane: Lane, step: LaneStep)
    requires LaneEnabled(c, closed, cancelled, lane, step) && !step.FinishExecution?
    ensures var t := LaneApply(c, closed, cancelled, lane, step); t.endings == lane.endings && lane.calls <= t.calls
  {
    hide Deliver;
  }

  lemma PlainExtends(c: Config, s: State, step: Step, name: string)
    requires Enabled(c, s, step) && !(step.Work? && step.step.FinishExecution?) && name in s.lanes
    ensures name in Apply(c, s, step).lanes
    ensures var t := Apply(c, s, step).lanes[name]; t.endings == s.lanes[name].endings && s.lanes[name].calls <= t.calls
  {
    hide LaneApply, LaneEnabled;
    if step.Work? {
      LaneStepExtends(c, Closed(s), s.cancelled, s.lanes[step.name], step.step);
    }
  }

  lemma PlainAdds(c: Config, s: State, step: Step, name: string)
    requires Enabled(c, s, step) && name !in s.lanes && name in Apply(c, s, step).lanes
    ensures Apply(c, s, step).lanes[name] == NEW_LANE
  {
    hide LaneApply, LaneEnabled;
  }

  lemma PlainKeepsLane(c: Config, save: Saves, s: State, backends: map<string, Backend>, step: Step, name: string)
    requires Enabled(c, s, step) && !(step.Work? && step.step.FinishExecution?) && name in Apply(c, s, step).lanes
    requires name in s.lanes ==> Backed(s.lanes[name], BackendIn(backends, name), save)
    requires name in backends ==> name in s.lanes
    ensures Backed(Apply(c, s, step).lanes[name], BackendIn(backends, name), save)
  {
    hide Backed, LaneApply, LaneEnabled, Apply, Enabled;
    if name in s.lanes {
      PlainExtends(c, s, step, name);
      BackedStays(s.lanes[name], Apply(c, s, step).lanes[name], BackendIn(backends, name), save);
    } else {
      PlainAdds(c, s, step, name);
      NewIsBacked(save);
    }
  }

  lemma PlainKeepsBacked(c: Config, save: Saves, s: State, backends: map<string, Backend>, step: Step)
    requires AllBacked(s.lanes, backends, save) && Enabled(c, s, step) && !(step.Work? && step.step.FinishExecution?)
    ensures AllBacked(Apply(c, s, step).lanes, backends, save)
  {
    hide Backed, Apply, Enabled, BackendIn;
    var t := Apply(c, s, step);
    forall name | name in t.lanes ensures Backed(t.lanes[name], BackendIn(backends, name), save) {
      PlainKeepsLane(c, save, s, backends, step, name);
    }
    forall name | name in backends ensures name in t.lanes {
      PlainExtends(c, s, step, name);
    }
  }

  lemma PlainKeepsInv(c: Config, save: Saves, sys: System, step: Step)
    requires ValidConfig(c) && SystemInv(c, save, sys) && MoveEnabled(c, sys, Plain(step))
    ensures SystemInv(c, save, After(c, sys, save, Plain(step)))
  {
    hide Inv, AllBacked, Apply, Enabled;
    StepKeepsInv(c, sys.coordinator, step);
    PlainKeepsBacked(c, save, sys.coordinator, sys.backends, step);
  }

  // One more transaction.
  lemma TransactionsExtend(s: Store.State, batches: seq<seq<Store.Save>>, fails: seq<bool>, batch: seq<Store.Save>, fail: bool)
    requires |fails| == |batches|
    ensures var (before, answers) := RunTransactions(s, batches, fails);
      RunTransactions(s, batches + [batch], fails + [fail]) ==
        if fail then (before, answers + [Err(Internal)])
        else (Store.ServeAll(before, batch).0, answers + [Ok(Store.ServeAll(before, batch).1)])
  {
    hide Store.ServeAll;
    assert (batches + [batch])[..|batches|] == batches && (fails + [fail])[..|fails|] == fails;
  }

  lemma EndingIsBacked(lane: Lane, t: Lane, b: Backend, save: Saves, how: Execution)
    requires Backed(lane, b, save) && InOrder(lane) && lane.worker.Executing?
    requires var served := Store.ServeAll(b.tables, SavesOf(lane.worker.live, save));
      var ending := (match how case Commits => Returned(served.1) case Fails => Errored case Panics(_) => Panicked);
      t.calls == lane.calls && t.endings == lane.endings + [ending]
    ensures var served := Store.ServeAll(b.tables, SavesOf(lane.worker.live, save));
      Backed(t, Backend(if LeavesTrace(how) then served.0 else b.tables, b.fails + [!LeavesTrace(how)]), save)
  {
    hide Store.ServeAll, RunTransactions, SavesOf, Kept, Flatten;
    var batches, batch := Batches(EndedCalls(lane), save), SavesOf(lane.worker.live, save);
    assert EndedCalls(t) == EndedCalls(lane) + [lane.worker.live];
    assert Batches(EndedCalls(t), save) == batches + [batch];
    TransactionsExtend(Store.EMPTY, batches, b.fails, batch, !LeavesTrace(how));
  }

  lemma FinishChangesLane(c: Config, s: State, name: string, ending: Ending)
    requires name in s.lanes && s.lanes[name].worker.Executing?
    ensures Enabled(c, s, Work(name, FinishExecution(ending)))
    ensures var t := Apply(c, s, Work(name, FinishExecution(ending)));
      && t.lanes.Keys == s.lanes.Keys
      && (forall other :: other in s.lanes && other != name ==> t.lanes[other] == s.lanes[other])
      && t.lanes[name].calls == s.lanes[name].calls && t.lanes[name].endings == s.lanes[name].endings + [ending]
  {
    hide DeliverAll, Told;
  }

  lemma LaneInOrder(c: Config, s: State, name: string)
    requires Inv(c, s) && name in s.lanes
    ensures InOrder(s.lanes[name]) && Accounted(s.lanes[name]) && Answered(s.lanes[name])
  {
    hide InOrder, Accounted, Answered, Bounded, Sorted, Justified, OwnRequests, LockHeld, SendersKnown, ClosingInOrder;
  }

  lemma OneLaneChanges(lanes: map<string, Lane>, after: map<string, Lane>, backends: map<string, Backend>, name: string, b: Backend, save: Saves)
    requires AllBacked(lanes, backends, save) && name in lanes && after.Keys == lanes.Keys
    requires forall other :: other in lanes && other != name ==> after[other] == lanes[other]
    requires Backed(after[name], b, save)
    ensures AllBacked(after, backends[name := b], save)
  {
    hide Backed;
  }

  lemma FinishKeepsBacked(c: Config, save: Saves, sys: System, name: string, how: Execution)
    requires Inv(c, sys.coordinator) && AllBacked(sys.coordinator.lanes, sys.backends, save)
    requires name in sys.coordinator.lanes && sys.coordinator.lanes[name].worker.Executing?
    ensures Enabled(c, sys.coordinator, Work(name, FinishExecution(EndingOf(sys, save, name, how))))
    ensures AllBacked(Apply(c, sys.coordinator, Work(name, FinishExecution(EndingOf(sys, save, name, how)))).lanes,
      sys.backends[name := BackendAfter(sys, save, name, how)], save)
  {
    var s, ending := sys.coordinator, EndingOf(sys, save, name, how);
    FinishChangesLane(c, s, name, ending);
    LaneInOrder(c, s, name);
    assert Backed(s.lanes[name], BackendOf(sys, name), save);
    hide Inv, Backed, Apply, Enabled, Store.ServeAll, InOrder, Accounted, Answered, AllBacked;
    var t := Apply(c, s, Work(name, FinishExecution(ending)));
    EndingIsBacked(s.lanes[name], t.lanes[name], BackendOf(sys, name), save, how);
    OneLaneChanges(s.lanes, t.lanes, sys.backends, name, BackendAfter(sys, save, name, how), save);
  }

  lemma FinishKeepsInv(c: Config, save: Saves, sys: System, name: string, how: Execution)
    requires ValidConfig(c) && SystemInv(c, save, sys) && MoveEnabled(c, sys, Finish(name, how))
    ensures SystemInv(c, save, After(c, sys, save, Finish(name, how)))
  {
    hide Inv, AllBacked, Apply, Enabled, EndingOf, BackendAfter;
    FinishKeepsBacked(c, save, sys, name, how);
    StepKeepsInv(c, sys.coordinator, Work(name, FinishExecution(EndingOf(sys, save, name, how))));
  }

  lemma {:induction false} SystemKeepsInv(c: Config, save: Saves, moves: seq<Move>)
    requires ValidConfig(c)
    ensures SystemInv(c, save, RunSystem(c, save, moves))
  {
    if moves != [] {
      var sys, move := RunSystem(c, save, moves[..|moves| - 1]), moves[|moves| - 1];
      SystemKeepsInv(c, save, moves[..|moves| - 1]);
      hide SystemInv, MoveEnabled, After;
      if MoveEnabled(c, sys, move) {
        match move
        case Plain(step) => PlainKeepsInv(c, save, sys, step);
        case Finish(name, how) => FinishKeepsInv(c, save, sys, name, how);
      }
    } else {
      RunKeepsInv(c, []);
    }
  }

  // ---- What every run guarantees ----

  // The saves that have left a trace, in the order their requests were admitted.
  function CommittedSaves(calls: seq<seq<Request>>, fails: seq<bool>, save: Saves): seq<Store.Save>
    requires |fails| == |calls|
  {
    Flatten(Committed(Batches(calls, save), fails))
  }

  lemma BackedInRun(c: Config, save: Saves, moves: seq<Move>, name: string)
    requires ValidConfig(c) && name in RunSystem(c, save, moves).coordinator.lanes
    ensures var sys := RunSystem(c, save, moves);
      var lane := sys.coordinator.lanes[name];
      Backed(lane, BackendOf(sys, name), save) && Answered(lane) && InOrder(lane) && Accounted(lane)
  {
    hide RunSystem, Inv, Backed, InOrder, Accounted, Answered;
    SystemKeepsInv(c, save, moves);
    LaneInOrder(c, RunSystem(c, save, moves).coordinator, name);
  }

  lemma BackedTables(lane: Lane, b: Backend, save: Saves)
    requires Backed(lane, b, save)
    ensures b.tables == Store.ServeAll(Store.EMPTY, CommittedSaves(lane.calls[..|lane.endings|], b.fails, save)).0
    ensures forall i :: 0 <= i < |lane.endings| && lane.endings[i].Returned? ==> !b.fails[i]
    ensures forall i :: 0 <= i < |lane.endings| && lane.endings[i].Errored? ==> b.fails[i]
  {
    hide RunTransactions, Store.ServeAll, Flatten, Committed;
    TablesOfCommitted(Store.EMPTY, Batches(EndedCalls(lane), save), b.fails);
  }

  // At any moment of any run a boundary's tables are those of serving, one save at a time and in
  // admission order, the requests of the calls that committed. A call that returned committed,
  // one that ended in an error did not.
  lemma {:induction false} TablesAreThoseOfCommitted(c: Config, save: Saves, moves: seq<Move>, name: string)
    requires ValidConfig(c) && name in RunSystem(c, save, moves).coordinator.lanes
    ensures var sys := RunSystem(c, save, moves);
      var lane, b := sys.coordinator.lanes[name], BackendOf(sys, name);
      && |b.fails| == |lane.endings| <= |lane.calls|
      && b.tables == Store.ServeAll(Store.EMPTY, CommittedSaves(lane.calls[..|lane.endings|], b.fails, save)).0
      && Flatten(lane.calls) + Gathering(lane.worker) == Kept(lane.settled)
      && lane.admitted == Requests(lane.settled) + (InHand(lane.worker) + lane.queue)
      && (forall i :: 0 <= i < |lane.endings| && lane.endings[i].Returned? ==> !b.fails[i])
      && (forall i :: 0 <= i < |lane.endings| && lane.endings[i].Errored? ==> b.fails[i])
  {
    hide RunSystem, Backed, RunTransactions, Store.ServeAll, Kept, Flatten, Requests, InHand, Gathering, CommittedSaves, Answered;
    var sys := RunSystem(c, save, moves);
    var lane, b := sys.coordinator.lanes[name], BackendOf(sys, name);
    BackedInRun(c, save, moves, name);
    BackedTables(lane, b, save);
    assert |b.fails| == |lane.endings| <= |lane.calls| by {
      BackedCounts(lane, b, save);
    }
  }

  lemma BackedCounts(lane: Lane, b: Backend, save: Saves)
    requires Backed(lane, b, save)
    ensures |b.fails| == |lane.endings| <= |lane.calls|
  {
  }

  // The saves that committed before the turn of the j-th request of call i.
  function BeforeTurn(lane: Lane, b: Backend, save: Saves, i: nat, j: nat): seq<Store.Save>
    requires i < |lane.calls| && i <= |b.fails| && j < |lane.calls[i]|
  {
    CommittedSaves(lane.calls[..i], b.fails[..i], save) + SavesOf(lane.calls[i][..j], save)
  }

  ghost function TurnOutcome(lane: Lane, b: Backend, save: Saves, i: nat, j: nat): Store.Outcome
    requires i < |lane.calls| && i <= |b.fails| && j < |lane.calls[i]|
  {
    Store.Serve(Store.ServeAll(Store.EMPTY, BeforeTurn(lane, b, save, i, j)).0, save(lane.calls[i][j])).1
  }

  lemma ReturnedOutcomes(lane: Lane, b: Backend, save: Saves, i: nat, j: nat)
    requires Backed(lane, b, save) && i < |lane.endings| && lane.endings[i].Returned? && j < |lane.calls[i]|
    ensures !b.fails[i] && |lane.endings[i].outcomes| == |lane.calls[i]|
    ensures lane.endings[i].outcomes[j] == TurnOutcome(lane, b, save, i, j)
  {
    var batches := Batches(EndedCalls(lane), save);
    var h := CommittedSaves(lane.calls[..i], b.fails[..i], save);
    hide Store.ServeAll, Store.Serve, RunTransactions, Flatten, Committed;
    assert batches[..i] == Batches(lane.calls[..i], save) && batches[i] == SavesOf(lane.calls[i], save);
    assert batches[i][..j] == SavesOf(lane.calls[i][..j], save);
    AnswerOfBatch(Store.EMPTY, batches, b.fails, i);
    OutcomeOfTurn(Store.ServeAll(Store.EMPTY, h).0, batches[i], j);
    CCC.ServeAllAppend(Store.EMPTY, h, batches[i][..j]);
  }

  // Each caller of a call that returned is told the outcome of its own save, served at its own
  // turn after everything that committed before it.
  lemma {:induction false} CallerHearsOwnTurn(c: Config, save: Saves, moves: seq<Move>, name: string, i: nat, j: nat)
    requires ValidConfig(c) && name in RunSystem(c, save, moves).coordinator.lanes
    requires var lane := RunSystem(c, save, moves).coordinator.lanes[name];
      i < |lane.endings| && i < |lane.calls| && lane.endings[i].Returned? && j < |lane.calls[i]|
    ensures var sys := RunSystem(c, save, moves);
      var lane, b := sys.coordinator.lanes[name], BackendOf(sys, name);
      && i < |b.fails| && lane.calls[i][j] in lane.answers
      && lane.answers[lane.calls[i][j]] == Outcome(TurnOutcome(lane, b, save, i, j))
  {
    var sys := RunSystem(c, save, moves);
    var lane := sys.coordinator.lanes[name];
    BackedInRun(c, save, moves, name);
    hide RunSystem, TurnOutcome, RunTransactions, InOrder;
    ReturnedOutcomes(lane, BackendOf(sys, name), save, i, j);
    assert OutcomeTold(lane, i, j);
  }

  // A caller told that its save committed finds its own events in the tables, at the position it
  // was told, under the record of its checks, from then on.
  lemma {:induction false} ToldSavedIsRecorded(c: Config, save: Saves, moves: seq<Move>, name: string, i: nat, j: nat)
    requires ValidConfig(c) && name in RunSystem(c, save, moves).coordinator.lanes
    requires var lane := RunSystem(c, save, moves).coordinator.lanes[name];
      i < |lane.endings| && i < |lane.calls| && lane.endings[i].Returned? && j < |lane.calls[i]|
    requires var lane := RunSystem(c, save, moves).coordinator.lanes[name];
      lane.calls[i][j] in lane.answers && lane.answers[lane.calls[i][j]].Outcome? && lane.answers[lane.calls[i][j]].value.Saved?
    ensures var sys := RunSystem(c, save, moves);
      var lane, b := sys.coordinator.lanes[name], BackendOf(sys, name);
      CCC.RecordedAt(b.tables, save(lane.calls[i][j]), lane.answers[lane.calls[i][j]].value.position.commit)
  {
    var sys := RunSystem(c, save, moves);
    var lane, b := sys.coordinator.lanes[name], BackendOf(sys, name);
    CallerHearsOwnTurn(c, save, moves, name, i, j);
    TablesAreThoseOfCommitted(c, save, moves, name);
    hide RunSystem, CommittedSaves, Store.Serve, Store.ServeAll, CCC.RecordedAt, Flatten, Kept, Requests, InHand, Gathering;
    var rest := TurnInHistory(lane, b, save, i, j);
    CCC.RecordedForever(BeforeTurn(lane, b, save, i, j), save(lane.calls[i][j]), rest);
  }

  lemma TurnInHistory(lane: Lane, b: Backend, save: Saves, i: nat, j: nat) returns (rest: seq<Store.Save>)
    requires |b.fails| == |lane.endings| <= |lane.calls| && i < |lane.endings| && j < |lane.calls[i]| && !b.fails[i]
    ensures CommittedSaves(lane.calls[..|lane.endings|], b.fails, save)
      == BeforeTurn(lane, b, save, i, j) + [save(lane.calls[i][j])] + rest
  {
    var batches := Batches(lane.calls[..|lane.endings|], save);
    hide Flatten, Committed;
    var more := CommittedSplit(batches, b.fails, i);
    assert batches[..i] == Batches(lane.calls[..i], save);
    var batch := SavesOf(lane.calls[i], save);
    assert batches[i] == batch;
    assert batch == SavesOf(lane.calls[i][..j], save) + [save(lane.calls[i][j])] + batch[j + 1..];
    rest := batch[j + 1..] + more;
    var h := CommittedSaves(lane.calls[..i], b.fails[..i], save);
    assert h + batch + more == BeforeTurn(lane, b, save, i, j) + [save(lane.calls[i][j])] + rest;
  }

  // Command context consistency, end to end: in every run of coordinator and engine, a caller of
  // a call that returned is told that its save committed exactly when no event that committed
  // after what it observed matches an observed query.
  lemma {:induction false} ToldSavedExactlyWhenUnchanged(c: Config, save: Saves, moves: seq<Move>, name: string, i: nat, j: nat, obs: seq<Observation>, seen: seq<nat>)
    requires ValidConfig(c) && name in RunSystem(c, save, moves).coordinator.lanes
    requires var lane := RunSystem(c, save, moves).coordinator.lanes[name];
      i < |lane.endings| && i < |lane.calls| && lane.endings[i].Returned? && j < |lane.calls[i]|
    requires var sys := RunSystem(c, save, moves);
      var lane, b := sys.coordinator.lanes[name], BackendOf(sys, name);
      && i <= |b.fails|
      && var turn := Store.ServeAll(Store.EMPTY, BeforeTurn(lane, b, save, i, j)).0;
         && Acceptable(obs) && save(lane.calls[i][j]).checks == DistinctChecks(obs) && |seen| == |obs|
         && (forall k :: 0 <= k < |obs| ==> CCC.ObservedAt(turn.rows, obs[k], seen[k]))
         && !save(lane.calls[i][j]).cancelled && Store.Insertable(save(lane.calls[i][j]).events, turn.nextId)
    ensures var sys := RunSystem(c, save, moves);
      var lane, b := sys.coordinator.lanes[name], BackendOf(sys, name);
      var turn := Store.ServeAll(Store.EMPTY, BeforeTurn(lane, b, save, i, j)).0;
      && lane.calls[i][j] in lane.answers && lane.answers[lane.calls[i][j]].Outcome?
      && (lane.answers[lane.calls[i][j]].value.Saved? <==> forall k :: 0 <= k < |obs| ==> CCC.Untouched(turn.rows, seen[k], obs[k].query))
  {
    var sys := RunSystem(c, save, moves);
    var lane, b := sys.coordinator.lanes[name], BackendOf(sys, name);
    CallerHearsOwnTurn(c, save, moves, name, i, j);
    hide RunSystem, BeforeTurn, Store.Serve, Store.ServeAll, CCC.ObservedAt, CCC.Untouched, Store.Insertable, Acceptable, DistinctChecks;
    CCC.CommitsExactlyWhenUnchanged(BeforeTurn(lane, b, save, i, j), obs, seen, save(lane.calls[i][j]));
  }
}
