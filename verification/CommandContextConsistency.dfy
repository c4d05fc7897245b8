// What every run of the commit engine guarantees: positions, independence from batching,
// and that a save commits exactly when nothing it observed has changed.
module CommandContextConsistency {
  import opened Common
  import opened Ordering
  import opened Text
  import opened Tags
  import opened EventLog
  import opened ConsistencyQueries
  import opened CriterionCodec
  import opened SqliteCriteria
  import opened WriteContexts
  import opened SqliteStore

  // ---- Runs ----

  lemma {:induction false} ServeAllAppend(s: State, a: seq<Save>, b: seq<Save>)
    ensures ServeAll(s, a + b) ==
      (ServeAll(ServeAll(s, a).0, b).0, ServeAll(s, a).1 + ServeAll(ServeAll(s, a).0, b).1)
  {
    if b == [] {
      assert a + b == a;
      assert ServeAll(s, a).1 + [] == ServeAll(s, a).1;
    } else {
      var init, last := b[..|b| - 1], b[|b| - 1];
      ServeAllAppend(s, a, init);
      assert (a + b)[..|a + b| - 1] == a + init && (a + b)[|a + b| - 1] == last;
      var middle := ServeAll(s, a).0;
      Associative(ServeAll(s, a).1, ServeAll(middle, init).1, [Serve(ServeAll(middle, init).0, last).1]);
    }
  }

  // ---- Positions ----

  // Global ids are 1..n, and an event's commit position is the id of the last event of its
  // save, shared by all events in between.
  ghost predicate Numbered(rows: Log) {
    forall i :: 0 <= i < |rows| ==>
      && rows[i].position.prepare == i + 1
      && i < rows[i].position.commit <= |rows|
      && forall j :: i <= j < rows[i].position.commit ==> rows[j].position.commit == rows[i].position.commit
  }

  ghost predicate Inv(s: State) {
    && Numbered(s.rows) && Ordered(s.rows)
    && s.nextId == |s.rows| + 1 <= MAX_INT64
    && WritesRecorded(s.rows, s.writes)
  }

  // One recorded write context per save, under its commit position.
  ghost predicate WritesRecorded(rows: Log, writes: map<int, seq<StoredObservation>>) {
    && (forall i :: 0 <= i < |rows| ==> rows[i].position.commit in writes)
    && (forall id :: id in writes ==> 1 <= id <= |rows| && rows[id - 1].position.commit == id)
  }

  lemma WriteIsRecorded(rows: Log, writes: map<int, seq<StoredObservation>>, more: Log, record: seq<StoredObservation>)
    requires WritesRecorded(rows, writes)
    requires more != [] && forall i :: 0 <= i < |more| ==> more[i].position.commit == |rows| + |more|
    ensures WritesRecorded(rows + more, writes[|rows| + |more| := record])
    ensures |rows| + |more| !in writes
  {
    var all := rows + more;
    assert forall i :: 0 <= i < |rows| ==> all[i] == rows[i];
    assert forall i :: |rows| <= i < |all| ==> all[i] == more[i - |rows|];
  }

  lemma InsertKeepsNumbered(rows: Log, more: Log)
    requires Numbered(rows) && Ordered(rows)
    requires more != [] && forall i :: 0 <= i < |more| ==>
      more[i].position == Position(|rows| + |more|, |rows| + i + 1)
    ensures Numbered(rows + more) && Ordered(rows + more)
  {
    var all := rows + more;
    assert forall i :: 0 <= i < |rows| ==> all[i] == rows[i];
    assert forall i :: |rows| <= i < |all| ==> all[i] == more[i - |rows|];
  }

  lemma {:induction false} ServeKeepsInv(s: State, save: Save)
    requires Inv(s)
    ensures Inv(Serve(s, save).0)
    ensures s.rows <= Serve(s, save).0.rows
    ensures forall id :: id in s.writes ==> id in Serve(s, save).0.writes && Serve(s, save).0.writes[id] == s.writes[id]
    ensures !Serve(s, save).1.Saved? ==> Serve(s, save).0 == s
  {
    hide Positioned, FirstRejection, Numbered, Ordered, WritesRecorded;
    if Serve(s, save).1.Saved? {
      var last := s.nextId + |save.events| - 1;
      var more := RowsOf(save.events, s.nextId, last, save.created);
      InsertKeepsNumbered(s.rows, more);
      WriteIsRecorded(s.rows, s.writes, more, StoredList(save.checks));
    }
  }

  // Every run from an empty database, whatever is rejected on the way: ids 1..n without a
  // gap, strictly ascending positions, one shared commit position per save, no overflow.
  lemma {:induction false} RunKeepsInv(saves: seq<Save>)
    ensures Inv(ServeAll(EMPTY, saves).0)
  {
    if saves != [] {
      RunKeepsInv(saves[..|saves| - 1]);
      ServeKeepsInv(ServeAll(EMPTY, saves[..|saves| - 1]).0, saves[|saves| - 1]);
    }
  }

  // Tables only grow, and what a write recorded is never changed.
  lemma {:induction false} RunExtends(s: State, saves: seq<Save>)
    requires Inv(s)
    ensures Inv(ServeAll(s, saves).0) && s.rows <= ServeAll(s, saves).0.rows
    ensures forall id :: id in s.writes ==> id in ServeAll(s, saves).0.writes && ServeAll(s, saves).0.writes[id] == s.writes[id]
  {
    if saves != [] {
      RunExtends(s, saves[..|saves| - 1]);
      ServeKeepsInv(ServeAll(s, saves[..|saves| - 1]).0, saves[|saves| - 1]);
    }
  }

  // An accepted save puts its own events at the end of the log, under its check list.
  ghost predicate RecordedAt(s: State, save: Save, commit: int) {
    && commit in s.writes && s.writes[commit] == StoredList(save.checks)
    && |save.events| <= commit <= |s.rows|
    && s.rows[commit - |save.events|..commit] == RowsOf(save.events, commit - |save.events| + 1, commit, save.created)
  }

  lemma SavedIsRecorded(s: State, save: Save)
    requires Inv(s) && Serve(s, save).1.Saved?
    ensures RecordedAt(Serve(s, save).0, save, Serve(s, save).1.position.commit)
  {
    var t, commit := Serve(s, save).0, Serve(s, save).1.position.commit;
    var more := RowsOf(save.events, s.nextId, commit, save.created);
    assert t.rows == s.rows + more && commit == |t.rows|;
    assert t.rows[commit - |save.events|..commit] == more;
  }

  lemma RecordSurvives(s: State, save: Save, commit: int, t: State)
    requires RecordedAt(s, save, commit) && s.rows <= t.rows
    requires forall id :: id in s.writes ==> id in t.writes && t.writes[id] == s.writes[id]
    ensures RecordedAt(t, save, commit)
  {
    assert t.rows[..|s.rows|] == s.rows;
    assert t.rows[commit - |save.events|..commit] == s.rows[commit - |save.events|..commit];
  }

  lemma ServeAllOne(s: State, before: seq<Save>, save: Save, after: seq<Save>)
    ensures ServeAll(s, before + [save] + after).0 == ServeAll(Serve(ServeAll(s, before).0, save).0, after).0
  {
    ServeAllAppend(s, before + [save], after);
    assert (before + [save])[..|before|] == before;
  }

  // At the end of every longer run a save's record is still the check list it was accepted
  // under, and the events at its position are its own.
  lemma {:induction false} RecordedForever(before: seq<Save>, save: Save, after: seq<Save>)
    requires Serve(ServeAll(EMPTY, before).0, save).1.Saved?
    ensures RecordedAt(ServeAll(EMPTY, before + [save] + after).0, save, Serve(ServeAll(EMPTY, before).0, save).1.position.commit)
  {
    var s := ServeAll(EMPTY, before).0;
    var t := Serve(s, save).0;
    RunKeepsInv(before);
    ServeKeepsInv(s, save);
    SavedIsRecorded(s, save);
    ServeAllOne(EMPTY, before, save, after);
    RunExtends(t, after);
    RecordSurvives(t, save, Serve(s, save).1.position.commit, ServeAll(t, after).0);
  }

  // ---- The stored document ----

  const RESERVED := {"__commitPosition", "__preparePosition", "__writeId", "__dateCreated", "__eventId", "__eventType", "__metadata"}

  // A number stored as its decimal digits.
  predicate Digits(f: Field, n: int) {
    f.NumberField? && f.token == f.rendered && f.token != "" && AllDigits(f.token) && Number(f.token) == n
  }

  // A row's document holds its own position, the event's identity, type and metadata, the time
  // and, under every other key, the event's own data.
  ghost predicate Carries(row: Row, e: PreparedEvent, created: string) {
    && RESERVED <= row.doc.Keys
    && Digits(row.doc["__commitPosition"], row.position.commit) && Digits(row.doc["__preparePosition"], row.position.prepare)
    && row.doc["__eventId"] == TextField(e.id) && row.doc["__eventType"] == TextField(e.kind)
    && row.doc["__metadata"] == e.metadata && row.doc["__dateCreated"] == TextField(created)
    && forall key :: key !in RESERVED ==> (key in row.doc <==> key in e.data) && (key in e.data ==> row.doc[key] == e.data[key])
  }

  lemma PositionedCarries(e: PreparedEvent, globalId: int, commit: int, created: string)
    requires globalId >= 0 && commit >= 0
    ensures Carries(Row(Positioned(e, globalId, commit, created), Position(commit, globalId)), e, created)
  {
    DigitsOfNumber(globalId);
    DigitsOfNumber(commit);
    hide NumberOf, Digits, Positioned;
    ReservedFields(e, globalId, commit, created);
    forall key | key !in RESERVED
      ensures var doc := Positioned(e, globalId, commit, created); (key in doc <==> key in e.data) && (key in e.data ==> doc[key] == e.data[key])
    {
      OwnField(e, globalId, commit, created, key);
    }
  }

  lemma ReservedFields(e: PreparedEvent, globalId: int, commit: int, created: string)
    ensures var doc := Positioned(e, globalId, commit, created);
      && RESERVED <= doc.Keys
      && doc["__commitPosition"] == NumberOf(commit) && doc["__preparePosition"] == NumberOf(globalId)
      && doc["__eventId"] == TextField(e.id) && doc["__eventType"] == TextField(e.kind)
      && doc["__metadata"] == e.metadata && doc["__dateCreated"] == TextField(created)
  {
    hide NumberOf, WriteID;
  }

  lemma OwnField(e: PreparedEvent, globalId: int, commit: int, created: string, key: string)
    requires key !in RESERVED
    ensures var doc := Positioned(e, globalId, commit, created); (key in doc <==> key in e.data) && (key in e.data ==> doc[key] == e.data[key])
  {
    hide NumberOf, WriteID;
  }

  lemma DigitsOfNumber(n: int)
    requires n >= 0
    ensures Digits(NumberOf(n), n)
  {
  }

  // In every longer run the events of an accepted save stand where it was told, each with its
  // own data and its own position in its document.
  lemma {:induction false} StoredForever(before: seq<Save>, save: Save, after: seq<Save>, i: nat)
    requires Serve(ServeAll(EMPTY, before).0, save).1.Saved? && i < |save.events|
    ensures var rows, commit := ServeAll(EMPTY, before + [save] + after).0.rows, Serve(ServeAll(EMPTY, before).0, save).1.position.commit;
      && |save.events| <= commit <= |rows|
      && rows[commit - |save.events| + i].position == Position(commit, commit - |save.events| + 1 + i)
      && Carries(rows[commit - |save.events| + i], save.events[i], save.created)
  {
    hide Serve, ServeAll, Carries, Positioned, RecordedAt;
    var s, commit := ServeAll(EMPTY, before + [save] + after).0, Serve(ServeAll(EMPTY, before).0, save).1.position.commit;
    RecordedForever(before, save, after);
    RecordFound(s, save, commit);
    RecordedRow(s, save, commit, i);
    PositionedCarries(save.events[i], commit - |save.events| + 1 + i, commit, save.created);
  }

  // GetWriteContext: the record under a write id, provided the event there was committed at
  // the id's position.
  ghost function GetWriteContext(s: State, boundary: string, writeId: string): Result<seq<Observation>> {
    var id := ValidateWriteContextRequest(boundary, writeId);
    if id.Err? then Err(id.status)
    else
      var p := id.value;
      if p.prepare in s.writes && exists r :: r in s.rows && r.position == p then DecodedList(s.writes[p.prepare])
      else Err(NotFound)
  }

  // The i-th event of the save committed at `commit` carries a write id under which the store
  // gives the observations `obs` as normalised.
  ghost predicate LeadsBack(s: State, save: Save, commit: int, obs: seq<Observation>, boundary: string, i: nat)
    requires i < |save.events|
  {
    && |save.events| <= commit <= |s.rows|
    && var doc := s.rows[commit - |save.events| + i].doc;
       && "__writeId" in doc && doc["__writeId"].TextField?
       && GetWriteContext(s, boundary, doc["__writeId"].text) == Ok(ObservationsOf(DistinctChecks(obs)))
  }

  // Every event of an accepted save carries a write id that, at the end of every longer run,
  // leads back to the observations the save was checked against.
  lemma {:induction false} WriteIdLeadsBack(before: seq<Save>, obs: seq<Observation>, save: Save, after: seq<Save>, boundary: string, i: nat)
    requires Acceptable(obs) && save.checks == DistinctChecks(obs) && boundary != ""
    requires Serve(ServeAll(EMPTY, before).0, save).1.Saved? && i < |save.events|
    ensures LeadsBack(ServeAll(EMPTY, before + [save] + after).0, save, Serve(ServeAll(EMPTY, before).0, save).1.position.commit, obs, boundary, i)
  {
    hide LeadsBack, RecordedAt, Inv, Acceptable, DistinctChecks, Serve, ServeAll;
    RecordedForever(before, save, after);
    RunKeepsInv(before + [save] + after);
    RecordLeadsBack(ServeAll(EMPTY, before + [save] + after).0, obs, save, Serve(ServeAll(EMPTY, before).0, save).1.position.commit, boundary, i);
  }

  // The records of a run are those of its accepted saves.
  lemma {:induction false} RecordsAreOfSaves(history: seq<Save>)
    ensures forall id :: id in ServeAll(EMPTY, history).0.writes <==> Saved(Position(id, id)) in ServeAll(EMPTY, history).1
    ensures forall o :: o in ServeAll(EMPTY, history).1 && o.Saved? ==> o.position.commit == o.position.prepare
  {
    if history != [] {
      var init, last := history[..|history| - 1], history[|history| - 1];
      RecordsAreOfSaves(init);
      hide FirstRejection, RowsOf, StoredList, Insertable;
    }
  }

  lemma RowOfWrite(s: State, p: Position)
    requires Inv(s)
    ensures p.prepare in s.writes && (exists r :: r in s.rows && r.position == p) <==> p.prepare in s.writes && p.commit == p.prepare
  {
    if p.prepare in s.writes {
      var row := s.rows[p.prepare - 1];
      assert row in s.rows && row.position == Position(p.prepare, p.prepare);
    }
  }

  // In every run a well-formed write id finds a record exactly when it is the position some save
  // was told it committed at; any other is not found.
  lemma {:induction false} FoundExactlyWhenSaved(history: seq<Save>, boundary: string, writeId: string, p: Position)
    requires ValidateWriteContextRequest(boundary, writeId) == Ok(p)
    ensures GetWriteContext(ServeAll(EMPTY, history).0, boundary, writeId) == Err(NotFound) <==> Saved(p) !in ServeAll(EMPTY, history).1
  {
    hide ServeAll, Inv, ValidateWriteContextRequest;
    var s := ServeAll(EMPTY, history).0;
    RunKeepsInv(history);
    RecordsAreOfSaves(history);
    RowOfWrite(s, p);
    assert p == Position(p.commit, p.prepare);
    if Saved(p) in ServeAll(EMPTY, history).1 {
      assert Saved(p).position.commit == Saved(p).position.prepare;
    }
  }

  // The rows of a recorded save.
  lemma RecordedRow(s: State, save: Save, commit: int, i: nat)
    requires RecordedAt(s, save, commit) && i < |save.events|
    ensures var first := commit - |save.events|;
      s.rows[first + i] == Row(Positioned(save.events[i], first + 1 + i, commit, save.created), Position(commit, first + 1 + i))
  {
    hide Positioned;
    var first := commit - |save.events|;
    assert s.rows[first + i] == s.rows[first..commit][i];
  }

  lemma RecordLeadsBack(s: State, obs: seq<Observation>, save: Save, commit: int, boundary: string, i: nat)
    requires Inv(s) && Acceptable(obs) && save.checks == DistinctChecks(obs) && boundary != ""
    requires RecordedAt(s, save, commit) && i < |save.events|
    ensures LeadsBack(s, save, commit, obs, boundary, i)
  {
    hide Numbered, Ordered, DistinctChecks, Positioned, WriteID, ValidateWriteContextRequest, DecodedList, WritesRecorded, Acceptable, ObservationsOf,
      StoredList, RecordedAt;
    RecordFound(s, save, commit);
    RecordedRow(s, save, commit, i);
    WriteIdStored(save.events[i], commit - |save.events| + 1 + i, commit, save.created);
    AcceptsExactlyPrinted(boundary, WriteID(commit, commit), Position(commit, commit));
    RecordComesBack(obs);
  }

  // What a lookup under the write id of a recorded save finds.
  lemma RecordFound(s: State, save: Save, commit: int)
    requires RecordedAt(s, save, commit) && save.events != []
    ensures |save.events| <= commit <= |s.rows| && commit in s.writes && s.writes[commit] == StoredList(save.checks)
    ensures exists r :: r in s.rows && r.position == Position(commit, commit)
  {
    RecordedRow(s, save, commit, |save.events| - 1);
    hide Positioned, RowsOf, StoredList;
    assert s.rows[commit - 1] in s.rows;
  }

  lemma WriteIdStored(e: PreparedEvent, globalId: int, commit: int, created: string)
    ensures "__writeId" in Positioned(e, globalId, commit, created)
    ensures Positioned(e, globalId, commit, created)["__writeId"] == TextField(WriteID(commit, commit))
  {
  }

  // ---- The command context consistency theorem ----

  lemma {:induction false} NoRejection(rows: Log, checks: seq<Check>)
    ensures FirstRejection(rows, checks) == None <==>
      forall k :: k in checks ==> RenderableQuery(k.criteria) && Stands(rows, k.criteria, k.position)
  {
    if checks != [] {
      NoRejection(rows, checks[1..]);
      assert checks == [checks[0]] + checks[1..];
    }
  }

  // Nothing appended after the first `seen` rows matches the query.
  ghost predicate Untouched(rows: Log, seen: nat, q: Query) {
    forall j :: seen <= j < |rows| ==> !QueryHolds(rows[j].doc, q)
  }

  lemma {:induction false} StandsExactlyWhenUntouched(rows: Log, seen: nat, q: Query)
    requires Ordered(rows) && seen <= |rows|
    ensures Stands(rows, q, Newest(rows[..seen], q)) <==> Untouched(rows, seen, q)
  {
    NewestUnchanged(rows, Matching(q), seen);
  }

  // The position an observation carries was its query's newest match in the first `seen` rows.
  ghost predicate ObservedAt(rows: Log, o: Observation, seen: nat) {
    seen <= |rows| && o.position == Newest(rows[..seen], o.query)
  }

  lemma ChecksRender(obs: seq<Observation>)
    requires Acceptable(obs)
    ensures Represents(DistinctChecks(obs), obs)
    ensures forall k :: k in DistinctChecks(obs) ==> RenderableQuery(k.criteria)
  {
    DistinctChecksRepresent(obs);
    forall k | k in DistinctChecks(obs) ensures RenderableQuery(k.criteria) {
      var o :| o in obs && k == Check(NormalQuery(o.query), o.position);
      NormalQueryRenders(o.query);
    }
  }

  lemma ObservationsStand(rows: Log, obs: seq<Observation>, seen: seq<nat>)
    requires Ordered(rows) && |seen| == |obs|
    requires forall i :: 0 <= i < |obs| ==> ObservedAt(rows, obs[i], seen[i])
    ensures (forall o :: o in obs ==> Stands(rows, o.query, o.position))
       <==> (forall i :: 0 <= i < |obs| ==> Untouched(rows, seen[i], obs[i].query))
  {
    forall i | 0 <= i < |obs|
      ensures Stands(rows, obs[i].query, obs[i].position) <==> Untouched(rows, seen[i], obs[i].query)
    {
      StandsExactlyWhenUntouched(rows, seen[i], obs[i].query);
    }
    forall i | 0 <= i < |obs| ensures obs[i] in obs {
    }
    forall o | o in obs ensures exists i :: 0 <= i < |obs| && obs[i] == o {
    }
  }

  // No check of a save is refused exactly when nothing it observed has changed since.
  lemma RefusedExactlyWhenTouched(history: seq<Save>, obs: seq<Observation>, seen: seq<nat>)
    requires Acceptable(obs) && |seen| == |obs|
    requires forall i :: 0 <= i < |obs| ==> ObservedAt(ServeAll(EMPTY, history).0.rows, obs[i], seen[i])
    ensures FirstRejection(ServeAll(EMPTY, history).0.rows, DistinctChecks(obs)) == None <==>
      forall i :: 0 <= i < |obs| ==> Untouched(ServeAll(EMPTY, history).0.rows, seen[i], obs[i].query)
  {
    var rows := ServeAll(EMPTY, history).0.rows;
    RunKeepsInv(history);
    ChecksRender(obs);
    NoRejection(rows, DistinctChecks(obs));
    ChecksEquivalentToObservations(rows, DistinctChecks(obs), obs);
    ObservationsStand(rows, obs, seen);
  }

  // A save whose observations were each made on some earlier prefix of the log is accepted at
  // its turn exactly when no event appended after that prefix matches the observed query.
  lemma {:induction false} CommitsExactlyWhenUnchanged(history: seq<Save>, obs: seq<Observation>, seen: seq<nat>, save: Save)
    requires Acceptable(obs) && save.checks == DistinctChecks(obs)
    requires |seen| == |obs|
    requires forall i :: 0 <= i < |obs| ==> ObservedAt(ServeAll(EMPTY, history).0.rows, obs[i], seen[i])
    requires !save.cancelled && Insertable(save.events, ServeAll(EMPTY, history).0.nextId)
    ensures Serve(ServeAll(EMPTY, history).0, save).1.Saved? <==>
      forall i :: 0 <= i < |obs| ==> Untouched(ServeAll(EMPTY, history).0.rows, seen[i], obs[i].query)
  {
    RefusedExactlyWhenTouched(history, obs, seen);
  }

  // And a save that fails with a conflict, whatever else is wrong with it, has been overtaken
  // by a matching event; one that is accepted has not.
  lemma {:induction false} ConflictsOnlyWhenChanged(history: seq<Save>, obs: seq<Observation>, seen: seq<nat>, save: Save)
    requires Acceptable(obs) && save.checks == DistinctChecks(obs)
    requires |seen| == |obs|
    requires forall i :: 0 <= i < |obs| ==> ObservedAt(ServeAll(EMPTY, history).0.rows, obs[i], seen[i])
    ensures Serve(ServeAll(EMPTY, history).0, save).1.Conflict? ==>
      exists i :: 0 <= i < |obs| && !Untouched(ServeAll(EMPTY, history).0.rows, seen[i], obs[i].query)
    ensures Serve(ServeAll(EMPTY, history).0, save).1.Saved? ==>
      forall i :: 0 <= i < |obs| ==> Untouched(ServeAll(EMPTY, history).0.rows, seen[i], obs[i].query)
  {
    RefusedExactlyWhenTouched(history, obs, seen);
  }

  // The position of the newest match of an observed query, and of one appended after the
  // observation.
  ghost predicate OvertakenAt(rows: Log, o: Observation, seen: nat, actual: Position, j: nat) {
    && seen <= j < |rows| && rows[j].position == actual && QueryHolds(rows[j].doc, o.query)
    && forall later :: j < later < |rows| ==> !QueryHolds(rows[later].doc, o.query)
  }

  lemma NewestOvertakes(rows: Log, o: Observation, seen: nat) returns (j: nat)
    requires Ordered(rows) && ObservedAt(rows, o, seen) && Newest(rows, o.query) != o.position
    ensures OvertakenAt(rows, o, seen, Newest(rows, o.query), j)
  {
    hide QueryHolds, NewestBy;
    var p := Newest(rows, o.query);
    NewestUnchanged(rows, Matching(o.query), seen);
    NewestIsNewest(rows, Matching(o.query));
    var k: nat :| seen <= k < |rows| && Matching(o.query)(rows[k].doc);
    assert p != NOT_EXISTS;
    j :| 0 <= j < |rows| && Matching(o.query)(rows[j].doc) && rows[j].position == p;
    assert j >= k;
  }

  // In every run a conflict tells its caller the position of one of its observations and, beside
  // it, that of the newest event that overtook this very observation.
  lemma {:induction false} ConflictTellsOvertaking(history: seq<Save>, obs: seq<Observation>, seen: seq<nat>, save: Save) returns (i: nat, j: nat)
    requires Acceptable(obs) && save.checks == DistinctChecks(obs)
    requires |seen| == |obs|
    requires forall i :: 0 <= i < |obs| ==> ObservedAt(ServeAll(EMPTY, history).0.rows, obs[i], seen[i])
    requires Serve(ServeAll(EMPTY, history).0, save).1.Conflict?
    ensures i < |obs|
    ensures var conflict := Serve(ServeAll(EMPTY, history).0, save).1;
      && conflict.expected == obs[i].position != conflict.actual
      && OvertakenAt(ServeAll(EMPTY, history).0.rows, obs[i], seen[i], conflict.actual, j)
  {
    hide Serve, ServeAll, DistinctChecks, OvertakenAt, NormalQuery, RenderableQuery, QueryHolds, IsNewest, Newest, ObservableQuery, Contradict;
    var s := ServeAll(EMPTY, history).0;
    var conflict := Serve(s, save).1;
    RunKeepsInv(history);
    OutcomeIsDue(s, save);
    var k: nat :| ConflictAt(s.rows, save.checks, k, conflict.expected, conflict.actual);
    DistinctChecksRepresent(obs);
    assert save.checks[k] in save.checks;
    var o :| o in obs && save.checks[k] == Check(NormalQuery(o.query), o.position);
    i :| 0 <= i < |obs| && obs[i] == o;
    NewestUnique(s.rows, Matching(save.checks[k].criteria), conflict.actual);
    NormalQueryNewest(s.rows, o.query);
    PassesExactlyWhen(s.rows, save.checks[k]);
    assert Newest(s.rows, save.checks[k].criteria) == conflict.actual by {
      NewestOf(s.rows, save.checks[k].criteria);
    }
    j := NewestOvertakes(s.rows, obs[i], seen[i]);
  }

  lemma NewestOf(rows: Log, q: Query)
    ensures Newest(rows, q) == NewestBy(rows, Matching(q))
  {
  }

  lemma {:induction false} NormalQueryRenders(q: Query)
    requires ObservableQuery(q)
    ensures RenderableQuery(NormalQuery(q))
  {
    forall n | n in NormalQuery(q) ensures Renderable(Encode(n)) {
      assert n in Elements(NormalQuery(q));
      var c :| c in q && NormalCriterion(c) == n;
      forall u | u in n ensures ValidTag(u) {
        assert u in Elements(n);
        var t :| t in c && Canon(t) == u;
      }
      ValidCriterionRenders(n);
    }
  }
}
