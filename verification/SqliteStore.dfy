// The SQLite commit engine (sqlite/group_commit_executor.go and the insertion functions of
// sqlite/sqlite_eventstore.go), proved equal to a store that serves one save at a time.
module SqliteStore {
  import opened Common
  import opened Text
  import opened Tags
  import opened EventLog
  import opened ConsistencyQueries
  import opened SqliteCriteria
  import opened WriteContexts

  // ---- What a save asks for ----

  // An event parsed before it was queued; `parsed` is false when its data was not an object.
  datatype PreparedEvent = PreparedEvent(id: string, kind: string, metadata: Field, data: Document, parsed: bool)

  // A queued save. `cancelled` is whether its caller's context has ended by the save's turn
  // and `created` the time its insertion records.
  datatype Save = Save(cancelled: bool, events: seq<PreparedEvent>, checks: seq<Check>, created: string)

  datatype Outcome =
    | Saved(position: Position)
    | Conflict(expected: Position, actual: Position)
    | Failed(status: Status)

  // The tables: events, recorded write contexts by write id, and the sequence row.
  datatype State = State(rows: Log, writes: map<int, seq<StoredObservation>>, nextId: int)

  const EMPTY := State([], map[], 1)

  // ---- One save at a time, scanning the whole log ----

  function NumberOf(n: int): Field {
    NumberField(FormatInt(n), FormatInt(n))
  }

  // The document as stored: the event's own data under the store's reserved fields.
  function Positioned(e: PreparedEvent, globalId: int, commit: int, created: string): Document {
    e.data + map[
      "__commitPosition" := NumberOf(commit),
      "__dateCreated" := TextField(created),
      "__writeId" := TextField(WriteID(commit, commit)),
      "__eventId" := TextField(e.id),
      "__eventType" := TextField(e.kind),
      "__metadata" := e.metadata,
      "__preparePosition" := NumberOf(globalId)
    ]
  }

  function RowsOf(events: seq<PreparedEvent>, firstId: int, commit: int, created: string): Log {
    seq(|events|, i requires 0 <= i < |events| =>
      Row(Positioned(events[i], firstId + i, commit, created), Position(commit, firstId + i)))
  }

  // The first check that does not stand, in the order the checks were given.
  ghost function FirstRejection(rows: Log, checks: seq<Check>): (r: Option<Outcome>)
    ensures r.Some? ==> !r.value.Saved?
  {
    if checks == [] then None
    else if !RenderableQuery(checks[0].criteria) then Some(Failed(InvalidArgument))
    else if Newest(rows, checks[0].criteria) != checks[0].position then
      Some(Conflict(checks[0].position, Newest(rows, checks[0].criteria)))
    else FirstRejection(rows, checks[1..])
  }

  predicate Insertable(events: seq<PreparedEvent>, firstId: int) {
    && events != [] && |events| <= MAX_INT64 - firstId
    && forall i :: 0 <= i < |events| ==> events[i].parsed
  }

  // Serves one save on the whole log.
  ghost function Serve(s: State, save: Save): (State, Outcome) {
    if save.cancelled then (s, Failed(Canceled))
    else
      match FirstRejection(s.rows, save.checks)
      case Some(rejection) => (s, rejection)
      case None =>
        if !Insertable(save.events, s.nextId) then (s, Failed(Internal))
        else
          var last := s.nextId + |save.events| - 1;
          (State(s.rows + RowsOf(save.events, s.nextId, last, save.created),
                 s.writes[last := StoredList(save.checks)], last + 1),
           Saved(Position(last, last)))
  }

  ghost function ServeAll(s: State, saves: seq<Save>): (State, seq<Outcome>) {
    if saves == [] then (s, [])
    else
      var (before, outcomes) := ServeAll(s, saves[..|saves| - 1]);
      var (after, outcome) := Serve(before, saves[|saves| - 1]);
      (after, outcomes + [outcome])
  }

  // ---- What an outcome tells its caller ----

  // A check's query can be read, and its position is still the newest match.
  ghost predicate Passes(rows: Log, k: Check) {
    RenderableQuery(k.criteria) && IsNewest(rows, Matching(k.criteria), k.position)
  }

  // The first check, in the order given, that does not pass is the k-th.
  ghost predicate FirstToFail(rows: Log, checks: seq<Check>, k: nat) {
    && k < |checks| && !Passes(rows, checks[k])
    && forall j :: 0 <= j < k ==> Passes(rows, checks[j])
  }

  ghost predicate ConflictAt(rows: Log, checks: seq<Check>, k: nat, expected: Position, actual: Position) {
    && FirstToFail(rows, checks, k) && RenderableQuery(checks[k].criteria)
    && expected == checks[k].position && IsNewest(rows, Matching(checks[k].criteria), actual)
  }

  ghost predicate UnreadableAt(rows: Log, checks: seq<Check>, k: nat) {
    FirstToFail(rows, checks, k) && !RenderableQuery(checks[k].criteria)
  }

  // When each outcome is due, and what it reports: a save that went in, the position of its last
  // event; a conflict, the position the first failing check expected and the newest match there
  // is instead.
  ghost predicate Reports(s: State, save: Save, outcome: Outcome) {
    match outcome
    case Saved(p) =>
      && !save.cancelled && (forall k :: k in save.checks ==> Passes(s.rows, k)) && Insertable(save.events, s.nextId)
      && p.commit == p.prepare == s.nextId + |save.events| - 1
    case Conflict(expected, actual) => !save.cancelled && exists k: nat :: ConflictAt(s.rows, save.checks, k, expected, actual)
    case Failed(Canceled) => save.cancelled
    case Failed(InvalidArgument) => !save.cancelled && exists k: nat :: UnreadableAt(s.rows, save.checks, k)
    case Failed(Internal) =>
      !save.cancelled && (forall k :: k in save.checks ==> Passes(s.rows, k)) && !Insertable(save.events, s.nextId)
    case Failed(_) => false
  }

  lemma PassesExactlyWhen(rows: Log, k: Check)
    ensures Passes(rows, k) <==> RenderableQuery(k.criteria) && Newest(rows, k.criteria) == k.position
  {
    hide RenderableQuery, IsNewest, NewestBy;
    NewestIsNewest(rows, Matching(k.criteria));
    if IsNewest(rows, Matching(k.criteria), k.position) {
      NewestUnique(rows, Matching(k.criteria), k.position);
    }
  }

  lemma LaterFailure(rows: Log, checks: seq<Check>, k: nat)
    requires checks != [] && Passes(rows, checks[0]) && FirstToFail(rows, checks[1..], k)
    ensures FirstToFail(rows, checks, k + 1) && checks[k + 1] == checks[1..][k]
  {
    hide Passes;
    forall j | 0 <= j < k + 1 ensures Passes(rows, checks[j]) {
      assert j > 0 ==> checks[1..][j - 1] == checks[j];
    }
  }

  // What the scan of the checks finds.
  ghost predicate Explained(rows: Log, checks: seq<Check>, r: Option<Outcome>) {
    match r
    case None => forall k :: k in checks ==> Passes(rows, k)
    case Some(Conflict(expected, actual)) => exists k: nat :: ConflictAt(rows, checks, k, expected, actual)
    case Some(Failed(InvalidArgument)) => exists k: nat :: UnreadableAt(rows, checks, k)
    case _ => false
  }

  lemma {:induction false} RejectionExplained(rows: Log, checks: seq<Check>)
    ensures Explained(rows, checks, FirstRejection(rows, checks))
  {
    hide RenderableQuery, IsNewest, NewestBy, Passes;
    if checks != [] {
      PassesExactlyWhen(rows, checks[0]);
      NewestIsNewest(rows, Matching(checks[0].criteria));
      if !Passes(rows, checks[0]) {
        assert FirstToFail(rows, checks, 0);
        FailureHere(rows, checks);
      } else {
        RejectionExplained(rows, checks[1..]);
        FailureLater(rows, checks, FirstRejection(rows, checks[1..]));
      }
    }
  }

  lemma FailureHere(rows: Log, checks: seq<Check>)
    requires FirstToFail(rows, checks, 0)
    ensures Explained(rows, checks, FirstRejection(rows, checks))
  {
    hide RenderableQuery, IsNewest, NewestBy, Passes;
    PassesExactlyWhen(rows, checks[0]);
    NewestIsNewest(rows, Matching(checks[0].criteria));
    if RenderableQuery(checks[0].criteria) {
      assert ConflictAt(rows, checks, 0, checks[0].position, Newest(rows, checks[0].criteria));
    } else {
      assert UnreadableAt(rows, checks, 0);
    }
  }

  lemma FailureLater(rows: Log, checks: seq<Check>, r: Option<Outcome>)
    requires checks != [] && Passes(rows, checks[0]) && Explained(rows, checks[1..], r)
    ensures Explained(rows, checks, r)
  {
    hide RenderableQuery, IsNewest, Passes;
    match r
    case None => assert checks == [checks[0]] + checks[1..];
    case Some(Conflict(expected, actual)) =>
      var k: nat :| ConflictAt(rows, checks[1..], k, expected, actual);
      LaterFailure(rows, checks, k);
      assert ConflictAt(rows, checks, k + 1, expected, actual);
    case Some(Failed(InvalidArgument)) =>
      var k: nat :| UnreadableAt(rows, checks[1..], k);
      LaterFailure(rows, checks, k);
      assert UnreadableAt(rows, checks, k + 1);
  }

  // Serving a save gives the outcome that is due.
  lemma {:induction false} OutcomeIsDue(s: State, save: Save)
    ensures Reports(s, save, Serve(s, save).1)
  {
    hide Passes, ConflictAt, UnreadableAt, RowsOf, Insertable, FirstRejection;
    RejectionExplained(s.rows, save.checks);
  }

  // And no other is.
  lemma {:induction false} OnlyOneIsDue(s: State, save: Save, a: Outcome, b: Outcome)
    requires Reports(s, save, a) && Reports(s, save, b)
    ensures a == b
  {
    hide RenderableQuery, IsNewest, Insertable, NewestBy;
    if a.Conflict? {
      var i: nat :| ConflictAt(s.rows, save.checks, i, a.expected, a.actual);
      NewestUnique(s.rows, Matching(save.checks[i].criteria), a.actual);
      OnlyOneFails(s, save, b, i);
    } else if a == Failed(InvalidArgument) {
      var i: nat :| UnreadableAt(s.rows, save.checks, i);
      OnlyOneFails(s, save, b, i);
    }
  }

  lemma OnlyOneFails(s: State, save: Save, b: Outcome, i: nat)
    requires FirstToFail(s.rows, save.checks, i) && Reports(s, save, b) && !save.cancelled
    ensures if RenderableQuery(save.checks[i].criteria) then b == Conflict(save.checks[i].position, Newest(s.rows, save.checks[i].criteria))
            else b == Failed(InvalidArgument)
  {
    hide RenderableQuery, IsNewest, Insertable, NewestBy, Passes;
    assert save.checks[i] in save.checks;
    match b
    case Conflict(expected, actual) =>
      var j: nat :| ConflictAt(s.rows, save.checks, j, expected, actual);
      assert i == j;
      NewestUnique(s.rows, Matching(save.checks[i].criteria), actual);
    case Failed(InvalidArgument) =>
      var j: nat :| UnreadableAt(s.rows, save.checks, j);
      assert i == j;
    case _ =>
  }

  // ---- The engine ----

  datatype PreparedCheck = PreparedCheck(position: Position, lookups: Result<seq<Lookup>>)

  // A save with its checks compiled, and its record marshalled, when it was queued.
  datatype PreparedSave = PreparedSave(save: Save, checks: seq<PreparedCheck>, record: seq<StoredObservation>)

  ghost predicate Compiled(p: PreparedCheck, k: Check) {
    && p.position == k.position
    && (p.lookups.Ok? <==> RenderableQuery(k.criteria))
    && (p.lookups.Ok? ==> LookupsFor(p.lookups.value, k.criteria))
  }

  ghost predicate AllCompiled(prepared: seq<PreparedCheck>, checks: seq<Check>) {
    |prepared| == |checks| && forall i :: 0 <= i < |checks| ==> Compiled(prepared[i], checks[i])
  }

  ghost predicate Prepared(p: PreparedSave) {
    AllCompiled(p.checks, p.save.checks) && p.record == StoredList(p.save.checks)
  }

  ghost function SavesOf(live: seq<PreparedSave>): seq<Save> {
    seq(|live|, i requires 0 <= i < |live| => live[i].save)
  }

  // prepareConsistencyChecks: errors are kept for evaluation, so an earlier conflict keeps
  // precedence over a later check that does not render.
  method PrepareConsistencyChecks(checks: seq<Check>) returns (prepared: seq<PreparedCheck>)
    ensures AllCompiled(prepared, checks)
  {
    prepared := [];
    for i := 0 to |checks|
      invariant |prepared| == i && forall j :: 0 <= j < i ==> Compiled(prepared[j], checks[j])
    {
      var lookups := LatestCriteriaQueries(checks[i].criteria);
      prepared := prepared + [PreparedCheck(checks[i].position, lookups)];
    }
  }

  // prepareSQLiteSave: refuses a save whose checks cannot be recorded.
  method PrepareSave(save: Save) returns (r: Result<PreparedSave>)
    ensures r.Ok? <==> forall k :: k in save.checks ==> ValidCheck(k)
    ensures r.Ok? ==> Prepared(r.value) && r.value.save == save
    ensures r.Err? ==> r.status == InvalidArgument
  {
    hide ValidCheck, Compiled, StoredOf;
    var record := MarshalConsistency(save.checks);
    if record.Err? {
      return Err(InvalidArgument);
    }
    var checks := PrepareConsistencyChecks(save.checks);
    return Ok(PreparedSave(save, checks, record.value));
  }

  const MAX_EVENTS_PER_INSERT := 999

  // The rows of one INSERT statement, or the first parse error.
  method ChunkValues(chunk: seq<PreparedEvent>, firstId: int, commit: int, created: string) returns (r: Result<Log>)
    ensures r.Ok? <==> forall i :: 0 <= i < |chunk| ==> chunk[i].parsed
    ensures r.Ok? ==> r.value == RowsOf(chunk, firstId, commit, created)
  {
    hide Positioned;
    var values: Log := [];
    for i := 0 to |chunk|
      invariant |values| == i && forall j :: 0 <= j < i ==> values[j] == RowsOf(chunk, firstId, commit, created)[j]
      invariant forall j :: 0 <= j < i ==> chunk[j].parsed
    {
      if !chunk[i].parsed {
        return Err(Internal);
      }
      var globalId := firstId + i;
      values := values + [Row(Positioned(chunk[i], globalId, commit, created), Position(commit, globalId))];
    }
    return Ok(values);
  }

  class Database {
    var rows: Log
    var writes: map<int, seq<StoredObservation>>
    var nextId: int

    constructor ()
      ensures Contents() == EMPTY
    {
      rows, writes, nextId := [], map[], 1;
    }

    ghost function Contents(): State
      reads this
    {
      State(rows, writes, nextId)
    }

    // insertEventBatch: chunked insertion. An event that did not parse ends it with the
    // chunks before it already in the table.
    method InsertEventBatch(events: seq<PreparedEvent>, firstId: int, commit: int, created: string) returns (ok: bool)
      modifies this`rows
      ensures ok <==> forall i :: 0 <= i < |events| ==> events[i].parsed
      ensures ok ==> rows == old(rows) + RowsOf(events, firstId, commit, created)
    {
      hide Positioned;
      var start := 0;
      while start < |events|
        invariant 0 <= start <= |events|
        invariant forall i :: 0 <= i < start ==> events[i].parsed
        invariant rows == old(rows) + RowsOf(events[..start], firstId, commit, created)
      {
        var end := if start + MAX_EVENTS_PER_INSERT < |events| then start + MAX_EVENTS_PER_INSERT else |events|;
        var values := ChunkValues(events[start..end], firstId + start, commit, created);
        if values.Err? {
          return false;
        }
        assert forall i :: start <= i < end ==> events[start..end][i - start] == events[i];
        ChunkedRows(events, start, end, firstId, commit, created);
        rows := rows + values.value;
        start := end;
      }
      assert events[..|events|] == events;
      ok := true;
    }

    // saveEventsOnConn: the write context and the events, at the positions the flush owns.
    method SaveEventsOnConn(save: Save, record: seq<StoredObservation>, firstId: int) returns (r: Result<int>)
      modifies this`rows, this`writes
      ensures r.Ok? <==> Insertable(save.events, firstId)
      ensures r.Ok? ==> r.value == firstId + |save.events| - 1
      ensures r.Ok? ==> rows == old(rows) + RowsOf(save.events, firstId, r.value, save.created)
      ensures r.Ok? ==> writes == old(writes)[r.value := record]
      ensures r.Err? ==> r.status == Internal
    {
      if |save.events| == 0 || |save.events| > MAX_INT64 - firstId {
        return Err(Internal);
      }
      var lastId := firstId + |save.events| - 1;
      writes := writes[lastId := record];
      var inserted := InsertEventBatch(save.events, firstId, lastId, save.created);
      if !inserted {
        return Err(Internal);
      }
      return Ok(lastId);
    }

    // saveSavepointed: the checks against the rows as they stand, earlier accepted saves
    // included, then the insertion under a savepoint that is rolled back on error.
    method SaveSavepointed(req: PreparedSave, firstId: int) returns (outcome: Outcome)
      requires Prepared(req) && !req.save.cancelled
      modifies this`rows, this`writes
      ensures (State(rows, writes, if outcome.Saved? then outcome.position.prepare + 1 else firstId), outcome)
        == Serve(State(old(rows), old(writes), firstId), req.save)
      ensures Reports(State(old(rows), old(writes), firstId), req.save, outcome)
    {
      hide Reports, RenderableQuery, LookupsFor, NewestBy, SelectingAny, RowsOf, StoredList, Insertable;
      OutcomeIsDue(State(rows, writes, firstId), req.save);
      var checks := req.checks;
      ghost var given := req.save.checks;
      for i := 0 to |checks|
        invariant rows == old(rows) && writes == old(writes)
        invariant FirstRejection(rows, given) == FirstRejection(rows, given[i..])
      {
        var check := checks[i];
        assert given[i..][0] == given[i] && given[i..][1..] == given[i + 1..];
        if check.lookups.Err? {
          return Failed(InvalidArgument);
        }
        var latest := LatestPreparedPosition(rows, check.lookups.value);
        PrunedLookupsExact(rows, check.lookups.value, given[i].criteria);
        if latest.commit != check.position.commit || latest.prepare != check.position.prepare {
          return Conflict(check.position, latest);
        }
      }
      assert given[|given|..] == [];
      var savedRows, savedWrites := rows, writes;
      var r := SaveEventsOnConn(req.save, req.record, firstId);
      if r.Err? {
        rows, writes := savedRows, savedWrites;
        return Failed(Internal);
      }
      return Saved(Position(r.value, r.value));
    }

    // executeTransaction: every save in queue order under one transaction. The next id is
    // threaded through a local and written back once, if anything was accepted. A failure
    // of the transaction itself undoes everything and leaves no outcome.
    method ExecuteTransaction(live: seq<PreparedSave>, transactionFails: bool) returns (r: Result<seq<Outcome>>)
      requires forall i :: 0 <= i < |live| ==> Prepared(live[i])
      modifies this
      ensures r.Ok? <==> !transactionFails && old(nextId) >= 1
      ensures r.Ok? ==> (Contents(), r.value) == ServeAll(old(Contents()), SavesOf(live))
      ensures r.Err? ==> Contents() == old(Contents()) && r.status == Internal
    {
      var begun, begunWrites, begunNext := rows, writes, this.nextId;
      var next := this.nextId;
      if next < 1 {
        return Err(Internal);
      }
      var outcomes: seq<Outcome> := [];
      var accepted := 0;
      for i := 0 to |live|
        invariant this.nextId == begunNext && (accepted == 0 ==> next == begunNext)
        invariant (State(rows, writes, next), outcomes) == ServeAll(old(Contents()), SavesOf(live[..i]))
      {
        ServeAllStep(old(Contents()), live, i);
        if live[i].save.cancelled {
          outcomes := outcomes + [Failed(Canceled)];
          continue;
        }
        var outcome := SaveSavepointed(live[i], next);
        outcomes := outcomes + [outcome];
        if outcome.Saved? {
          next := outcome.position.prepare + 1;
          accepted := accepted + 1;
        }
      }
      assert live[..|live|] == live;
      if accepted > 0 {
        this.nextId := next;
      }
      if transactionFails {
        rows, writes, this.nextId := begun, begunWrites, begunNext;
        return Err(Internal);
      }
      return Ok(outcomes);
    }
  }

  lemma ServeAllStep(s: State, live: seq<PreparedSave>, i: nat)
    requires i < |live|
    ensures var (before, outcomes) := ServeAll(s, SavesOf(live[..i]));
      var (after, outcome) := Serve(before, live[i].save);
      ServeAll(s, SavesOf(live[..i + 1])) == (after, outcomes + [outcome])
  {
    var saves := SavesOf(live[..i + 1]);
    assert saves[..|saves| - 1] == SavesOf(live[..i]) && saves[i] == live[i].save;
  }

  lemma ChunkedRows(events: seq<PreparedEvent>, start: nat, end: nat, firstId: int, commit: int, created: string)
    requires start <= end <= |events|
    ensures RowsOf(events[..start], firstId, commit, created) + RowsOf(events[start..end], firstId + start, commit, created)
         == RowsOf(events[..end], firstId, commit, created)
  {
  }
}
