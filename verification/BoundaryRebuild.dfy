// Rebuilding one boundary from the newest event of each lifecycle type
// (admin/slices/boundary_provisioning/command_handler.go), and when that agrees with
// replaying all of its events.
module BoundaryRebuild {
  import opened Common
  import opened Ordering
  import opened Tags
  import opened EventLog
  import opened EventReads
  import opened BoundaryCatalog

  function IsLetter(c: char): bool {
    'a' <= c <= 'z' || 'A' <= c <= 'Z'
  }

  // boundary.ValidateName.
  predicate ValidName(name: string) {
    && 1 <= |name| <= 63
    && (IsLetter(name[0]) || name[0] == '_')
    && forall i :: 1 <= i < |name| ==> IsLetter(name[i]) || '0' <= name[i] <= '9' || name[i] == '_'
  }

  // ---- When a replay succeeds ----

  // Lifecycle events of one boundary, in order.
  ghost predicate History(rows: Log, name: string) {
    name != "" && Ordered(rows) && forall r :: r in rows ==> Concerns(r.doc, name)
  }

  // Everything decodes, there is at most one definition and it is complete, and every failure
  // recorded after it gives a reason.
  ghost predicate Replayable(rows: Log) {
    && (forall r :: r in rows ==> !Decode(r.doc).Garbled?)
    && (forall r :: r in rows && Decode(r.doc).Created? ==> Definable(Decode(r.doc)))
    && (forall r, s :: r in rows && s in rows && Decode(r.doc).Created? && Decode(s.doc).Created? ==> r == s)
    && (forall r, s :: r in rows && s in rows && FailsAfter(s, r) ==> Decode(s.doc).error != "")
  }

  predicate FailsAfter(s: Row, r: Row) {
    Decode(r.doc).Created? && Decode(s.doc).Failed? && After(s.position, r.position)
  }

  lemma DecodesNamed(doc: Document, name: string)
    requires name != "" && Concerns(doc, name)
    ensures !Decode(doc).Unrelated?
    ensures Decode(doc).Created? <==> EventType(doc) == CREATED && !Decode(doc).Garbled?
    ensures Decode(doc).Activated? <==> EventType(doc) == ACTIVATED && !Decode(doc).Garbled?
    ensures Decode(doc).Failed? <==> EventType(doc) == FAILED && !Decode(doc).Garbled?
    ensures !Decode(doc).Garbled? ==> Decode(doc).boundary == name
  {
  }

  // The newest row of a type.
  function LastOf(rows: Log, kind: string): Option<Row> {
    NewestRow(rows, doc => EventType(doc) == kind)
  }

  lemma LastOfAppend(rows: Log, row: Row, kind: string)
    ensures LastOf(rows + [row], kind) == if EventType(row.doc) == kind then Some(row) else LastOf(rows, kind)
  {
    assert (rows + [row])[..|rows|] == rows;
  }

  // An outcome counts only after the definition.
  function AfterDefinition(outcome: Option<Row>, definition: Row): Option<Row> {
    if outcome.Some? && After(outcome.value.position, definition.position) then outcome else None
  }

  // A boundary's state in terms of its definition and newest outcomes.
  function Summary(definition: Row, activated: Option<Row>, failed: Option<Row>): Boundary
    requires Decode(definition.doc).Created?
    requires failed.Some? ==> Decode(failed.value.doc).Failed?
  {
    var e := Decode(definition.doc);
    var status := if activated.Some? then Active else if failed.Some? then Broken else Provisioning;
    Boundary(e.boundary, e.description, e.backend, e.namespace, status,
             if status == Broken then Decode(failed.value.doc).error else "",
             definition.position,
             if status == Active then activated.value.position
             else if status == Broken then failed.value.position else definition.position)
  }

  // What a fold that succeeded has found.
  ghost predicate Summarises(m: Boundaries, rows: Log, name: string) {
    var c, a, f := LastOf(rows, CREATED), LastOf(rows, ACTIVATED), LastOf(rows, FAILED);
    && m.Keys <= {name}
    && (name in m <==> c.Some?)
    && (c.Some? ==>
      && Decode(c.value.doc).Created?
      && (f.Some? ==> Decode(f.value.doc).Failed?)
      && m[name] == Summary(c.value, AfterDefinition(a, c.value), AfterDefinition(f, c.value)))
  }

  lemma HistoryInit(rows: Log, row: Row, name: string)
    requires History(rows + [row], name)
    ensures History(rows, name) && Concerns(row.doc, name) && forall r :: r in rows ==> After(row.position, r.position)
  {
    OrderedAppend(rows, row);
    assert forall r :: r in rows ==> r in rows + [row];
    assert row in rows + [row];
  }

  // One more event of a replay that succeeds.
  lemma SummaryStep(m: Boundaries, rows: Log, row: Row, name: string)
    requires name != "" && Concerns(row.doc, name) && Summarises(m, rows, name)
    requires forall r :: r in rows ==> After(row.position, r.position)
    requires forall r :: r in rows ==> !Decode(r.doc).Garbled? && Concerns(r.doc, name)
    requires Fold1(m, row).Ok?
    ensures Summarises(Fold1(m, row).value, rows + [row], name)
  {
    hide NewestRow, Concerns, Decode;
    DecodesNamed(row.doc, name);
    LastOfAppend(rows, row, CREATED);
    LastOfAppend(rows, row, ACTIVATED);
    LastOfAppend(rows, row, FAILED);
    LastOfIn(rows, CREATED);
    LastOfIn(rows, ACTIVATED);
    LastOfIn(rows, FAILED);
    if LastOf(rows, FAILED).Some? {
      DecodesNamed(LastOf(rows, FAILED).value.doc, name);
    }
  }

  lemma {:induction false} LastOfIn(rows: Log, kind: string)
    ensures LastOf(rows, kind).Some? ==> LastOf(rows, kind).value in rows && EventType(LastOf(rows, kind).value.doc) == kind
    ensures LastOf(rows, kind).None? <==> forall r :: r in rows ==> EventType(r.doc) != kind
  {
    if rows != [] {
      var init, last := rows[..|rows| - 1], rows[|rows| - 1];
      assert rows == init + [last];
      LastOfIn(init, kind);
      LastOfAppend(init, last, kind);
    }
  }

  // What one more event must be for the whole to stay replayable.
  ghost predicate Fits(rows: Log, row: Row) {
    var e := Decode(row.doc);
    && !e.Garbled?
    && (e.Created? ==> Definable(e) && forall r :: r in rows ==> !Decode(r.doc).Created?)
    && (e.Failed? && (exists r :: r in rows && Decode(r.doc).Created?) ==> e.error != "")
  }

  lemma ReplayableAppend(rows: Log, row: Row)
    requires forall r :: r in rows ==> After(row.position, r.position)
    ensures Replayable(rows + [row]) <==> Replayable(rows) && Fits(rows, row)
  {
    hide Decode, Definable;
    var all := rows + [row];
    assert forall r :: r in all <==> r in rows || r == row;
    if Replayable(all) {
      assert Replayable(rows);
      assert Fits(rows, row) by {
        if Decode(row.doc).Created? {
          forall r | r in rows ensures !Decode(r.doc).Created? {
            assert r in all && row in all;
          }
        }
        if r :| r in rows && Decode(r.doc).Created? && Decode(row.doc).Failed? {
          assert FailsAfter(row, r);
        }
      }
    }
  }

  lemma DefinedExactlyWhenCreated(rows: Log, name: string)
    requires History(rows, name) && forall r :: r in rows ==> !Decode(r.doc).Garbled?
    ensures LastOf(rows, CREATED).Some? <==> exists r :: r in rows && Decode(r.doc).Created?
  {
    hide Decode, NewestRow, Concerns;
    LastOfIn(rows, CREATED);
    forall r | r in rows ensures Decode(r.doc).Created? <==> EventType(r.doc) == CREATED {
      DecodesNamed(r.doc, name);
    }
  }

  lemma FitsExactlyWhenFolded(m: Boundaries, rows: Log, row: Row, name: string)
    requires History(rows + [row], name) && Replayable(rows) && Summarises(m, rows, name)
    ensures Fold1(m, row).Ok? <==> Fits(rows, row)
  {
    HistoryInit(rows, row, name);
    hide Decode, NewestRow, Concerns, Definable;
    DecodesNamed(row.doc, name);
    DefinedExactlyWhenCreated(rows, name);
  }

  // A boundary's events replay without error exactly when they are replayable, and what the
  // replay finds is then given by the definition and the newest outcomes after it.
  lemma {:induction false} ReplaysExactlyWhen(rows: Log, name: string)
    requires History(rows, name)
    ensures Fold(rows).Ok? <==> Replayable(rows)
    ensures Fold(rows).Ok? ==> Summarises(Fold(rows).value, rows, name)
  {
    if rows != [] {
      var init, last := rows[..|rows| - 1], rows[|rows| - 1];
      assert rows == init + [last];
      HistoryInit(init, last, name);
      ReplaysExactlyWhen(init, name);
      ReplayableAppend(init, last);
      if Fold(init).Ok? {
        FitsExactlyWhenFolded(Fold(init).value, init, last, name);
        if Fold(rows).Ok? {
          SummaryStep(Fold(init).value, init, last, name);
        }
      }
    }
  }

  // ---- Rebuilding from the newest event of each type ----

  function Earlier(r: Row, s: Row): bool {
    After(s.position, r.position)
  }

  function Listed(row: Option<Row>): Log {
    if row.Some? then [row.value] else []
  }

  // The definition and the outcomes that count, oldest first.
  function Relevant(definition: Row, activated: Option<Row>, failed: Option<Row>): Log {
    Sort(Earlier, [definition] + Listed(AfterDefinition(activated, definition)) + Listed(AfterDefinition(failed, definition)))
  }

  function Rebuilt(log: Log, name: string): Result<Boundary> {
    var definition := NewestRow(log, OfType(name, CREATED));
    if definition.None? then Err(FailedPrecondition)
    else
      var m := Fold(Relevant(definition.value, NewestRow(log, OfType(name, ACTIVATED)), NewestRow(log, OfType(name, FAILED))));
      if m.Err? || name !in m.value then Err(Internal) else Ok(m.value[name])
  }

  lemma SortsThree(definition: Row, activated: Option<Row>, failed: Option<Row>)
    requires activated.Some? && failed.Some? ==> activated.value.position != failed.value.position
    ensures var a, f := AfterDefinition(activated, definition), AfterDefinition(failed, definition);
      Relevant(definition, activated, failed) == [definition] + (
        if a.Some? && f.Some? then (if Earlier(a.value, f.value) then [a.value, f.value] else [f.value, a.value])
        else Listed(a) + Listed(f))
  {
    var a, f := AfterDefinition(activated, definition), AfterDefinition(failed, definition);
    if a.Some? && f.Some? {
      assert [definition] + Listed(a) + Listed(f) == [definition, a.value, f.value];
      SortThree(definition, a.value, f.value);
    } else if a.Some? {
      assert [definition] + Listed(a) + Listed(f) == [definition, a.value];
      SortTwo(definition, a.value);
    } else if f.Some? {
      assert [definition] + Listed(a) + Listed(f) == [definition, f.value];
      SortTwo(definition, f.value);
    } else {
      assert [definition] + Listed(a) + Listed(f) == [definition];
      SortOne(definition);
    }
  }

  lemma SortOne(x: Row)
    ensures Sort(Earlier, [x]) == [x]
  {
    assert [x][1..] == [];
  }

  lemma SortTwo(x: Row, y: Row)
    requires Earlier(x, y)
    ensures Sort(Earlier, [x, y]) == [x, y]
  {
    SortOne(y);
    assert [x, y][1..] == [y];
  }

  lemma SortPair(x: Row, y: Row)
    requires x.position != y.position
    ensures Sort(Earlier, [x, y]) == if Earlier(x, y) then [x, y] else [y, x]
  {
    SortOne(y);
    assert [x, y][1..] == [y];
    assert Insert(Earlier, x, [y][1..]) == [x];
  }

  lemma SortThree(x: Row, y: Row, z: Row)
    requires Earlier(x, y) && Earlier(x, z) && y.position != z.position
    ensures Sort(Earlier, [x, y, z]) == [x] + (if Earlier(y, z) then [y, z] else [z, y])
  {
    SortPair(y, z);
    assert [x, y, z][1..] == [y, z];
  }

  // Newest rows of a type, seen in the log or in the boundary's own events.
  lemma {:induction false} NewestInHistory(log: Log, name: string, kind: string)
    requires name != "" && kind in {CREATED, ACTIVATED, FAILED}
    ensures NewestRow(log, OfType(name, kind)) == LastOf(Selected(log, Concerning(name)), kind)
  {
    if log != [] {
      var init, last := log[..|log| - 1], log[|log| - 1];
      NewestInHistory(init, name, kind);
      LastOfAppend(Selected(init, Concerning(name)), last, kind);
      assert Selected(init, Concerning(name)) + [] == Selected(init, Concerning(name));
    }
  }

  lemma IsHistory(log: Log, name: string)
    requires Ordered(log) && name != ""
    ensures History(Selected(log, Concerning(name)), name)
  {
    SelectedOrdered(log, Concerning(name));
    SelectedIndex(log, Concerning(name));
  }

  // A few rows in order, of different types.
  lemma ShortHistory(rows: Log, some: Log, name: string)
    requires History(rows, name) && forall r :: r in some ==> r in rows
    requires forall i, j :: 0 <= i < j < |some| ==> After(some[j].position, some[i].position)
    ensures History(some, name)
  {
    hide Concerns;
    forall i | 0 <= i < |some| ensures After(some[i].position, NOT_EXISTS) {
      assert some[i] in rows;
    }
  }

  predicate Different(rows: Log) {
    forall i, j :: 0 <= i < j < |rows| ==> EventType(rows[i].doc) != EventType(rows[j].doc)
  }

  lemma LastAmongDifferent(rows: Log, row: Row)
    requires Different(rows) && row in rows
    ensures LastOf(rows, EventType(row.doc)) == Some(row)
  {
    hide NewestRow, EventType;
    LastOfIn(rows, EventType(row.doc));
  }

  lemma RelevantRows(c: Row, activated: Option<Row>, failed: Option<Row>)
    requires activated.Some? && failed.Some? ==> activated.value.position != failed.value.position
    requires EventType(c.doc) == CREATED
    requires activated.Some? ==> EventType(activated.value.doc) == ACTIVATED
    requires failed.Some? ==> EventType(failed.value.doc) == FAILED
    ensures var s := Relevant(c, activated, failed);
      && (forall r :: r in s <==> r == c || Some(r) == AfterDefinition(activated, c) || Some(r) == AfterDefinition(failed, c))
      && (forall i, j :: 0 <= i < j < |s| ==> After(s[j].position, s[i].position))
      && Different(s)
  {
    hide EventType;
    SortsThree(c, activated, failed);
    hide Relevant;
  }

  // The relevant events are some of the history's, in order.
  lemma RelevantHistory(rows: Log, name: string)
    requires History(rows, name) && LastOf(rows, CREATED).Some?
    ensures var c, a, f := LastOf(rows, CREATED).value, LastOf(rows, ACTIVATED), LastOf(rows, FAILED);
      var s := Relevant(c, a, f);
      && History(s, name) && (forall r :: r in s ==> r in rows)
      && LastOf(s, CREATED) == Some(c)
      && LastOf(s, ACTIVATED) == AfterDefinition(a, c)
      && LastOf(s, FAILED) == AfterDefinition(f, c)
  {
    var c, activated, failed := LastOf(rows, CREATED).value, LastOf(rows, ACTIVATED), LastOf(rows, FAILED);
    var s := Relevant(c, activated, failed);
    hide LastOf, Relevant, EventType, Different;
    LastOfIn(rows, CREATED);
    LastOfIn(rows, ACTIVATED);
    LastOfIn(rows, FAILED);
    if activated.Some? && failed.Some? {
      RowsDiffer(rows, activated.value, failed.value);
    }
    RelevantRows(c, activated, failed);
    ShortHistory(rows, s, name);
    LastAmongDifferent(s, c);
    RelevantOutcome(s, AfterDefinition(activated, c), ACTIVATED);
    RelevantOutcome(s, AfterDefinition(failed, c), FAILED);
  }

  lemma RelevantOutcome(s: Log, outcome: Option<Row>, kind: string)
    requires Different(s) && forall r :: r in s && EventType(r.doc) == kind ==> Some(r) == outcome
    requires outcome.Some? ==> outcome.value in s && EventType(outcome.value.doc) == kind
    ensures LastOf(s, kind) == outcome
  {
    if outcome.Some? {
      LastAmongDifferent(s, outcome.value);
    } else {
      LastOfIn(s, kind);
    }
  }

  lemma RowsDiffer(rows: Log, r: Row, s: Row)
    requires Ordered(rows) && r in rows && s in rows && r != s
    ensures r.position != s.position
  {
  }

  lemma SubsetReplays(rows: Log, some: Log)
    requires Replayable(rows) && forall r :: r in some ==> r in rows
    ensures Replayable(some)
  {
    hide Decode, Definable;
  }

  // ---- The two ways agree ----

  // What a reader of a boundary gets: the boundary, that it is not defined, or an error.
  datatype Sight = Shown(boundary: Boundary) | Undefined | Unreadable

  function ReplayShows(log: Log, name: string): Sight {
    var replay := Fold(Selected(log, Concerning(name)));
    if replay.Err? then Unreadable else if name in replay.value then Shown(replay.value[name]) else Undefined
  }

  function RebuildShows(log: Log, name: string): Sight {
    var boundary := Rebuilt(log, name);
    if boundary.Ok? then Shown(boundary.value) else if boundary.status == FailedPrecondition then Undefined else Unreadable
  }

  // Both show the same boundary, its status, last error and both positions included, or both
  // find it undefined, or both fail.
  ghost predicate Agree(log: Log, name: string) {
    RebuildShows(log, name) == ReplayShows(log, name)
  }

  // The events a rebuild reads.
  function ReadRows(log: Log, name: string): Log {
    var definition := NewestRow(log, OfType(name, CREATED));
    if definition.None? then []
    else Relevant(definition.value, NewestRow(log, OfType(name, ACTIVATED)), NewestRow(log, OfType(name, FAILED)))
  }

  // A history that can be replayed is rebuilt to the same.
  lemma ReplayableIsRebuilt(log: Log, name: string)
    requires Ordered(log) && name != "" && Replayable(Selected(log, Concerning(name)))
    ensures Fold(Selected(log, Concerning(name))).Ok?
    ensures var replay := Fold(Selected(log, Concerning(name)));
      Rebuilt(log, name) == if name in replay.value then Ok(replay.value[name]) else Err(FailedPrecondition)
  {
    var rows := Selected(log, Concerning(name));
    IsHistory(log, name);
    ReplaysExactlyWhen(rows, name);
    NewestInHistory(log, name, CREATED);
    NewestInHistory(log, name, ACTIVATED);
    NewestInHistory(log, name, FAILED);
    hide Selected, Fold, Relevant, Replayable, History, NewestRow, Decode;
    if LastOf(rows, CREATED).Some? {
      RelevantReplays(rows, name);
    }
  }

  // Whether the rebuild succeeds depends on the events it reads alone.
  lemma RebuiltExactlyWhen(log: Log, name: string)
    requires Ordered(log) && name != ""
    ensures match RebuildShows(log, name)
      case Shown(_) => NewestRow(log, OfType(name, CREATED)).Some? && Replayable(ReadRows(log, name))
      case Undefined => ReadRows(log, name) == []
      case Unreadable => !Replayable(ReadRows(log, name))
  {
    var rows := Selected(log, Concerning(name));
    IsHistory(log, name);
    NewestInHistory(log, name, CREATED);
    NewestInHistory(log, name, ACTIVATED);
    NewestInHistory(log, name, FAILED);
    hide Selected, Fold, Replayable, History, NewestRow, Decode, OfType, Relevant;
    if LastOf(rows, CREATED).Some? {
      RelevantHistory(rows, name);
      ReplaysExactlyWhen(ReadRows(log, name), name);
    }
  }

  lemma NothingReplays()
    ensures Replayable([])
  {
  }

  // The two disagree exactly when the events the rebuild reads could be replayed while the whole
  // history cannot: then the rebuild shows a boundary, or none, where the replay fails.
  lemma {:induction false} DisagreeExactlyWhen(log: Log, name: string)
    requires Ordered(log) && name != ""
    ensures !Agree(log, name) <==> Replayable(ReadRows(log, name)) && !Replayable(Selected(log, Concerning(name)))
    ensures !Agree(log, name) ==> ReplayShows(log, name) == Unreadable
  {
    var rows := Selected(log, Concerning(name));
    IsHistory(log, name);
    ReplaysExactlyWhen(rows, name);
    hide Selected, Fold, Replayable, History, ReadRows, Rebuilt;
    RebuiltExactlyWhen(log, name);
    NothingReplays();
    if Replayable(rows) {
      ReplayableIsRebuilt(log, name);
    }
  }

  lemma RelevantReplays(rows: Log, name: string)
    requires History(rows, name) && Replayable(rows) && LastOf(rows, CREATED).Some?
    ensures Fold(rows).Ok? && name in Fold(rows).value
    ensures var s := Fold(Relevant(LastOf(rows, CREATED).value, LastOf(rows, ACTIVATED), LastOf(rows, FAILED)));
      s.Ok? && name in s.value && s.value[name] == Fold(rows).value[name]
  {
    var s := Relevant(LastOf(rows, CREATED).value, LastOf(rows, ACTIVATED), LastOf(rows, FAILED));
    hide Relevant, Fold, NewestRow, Decode, Replayable, History;
    RelevantHistory(rows, name);
    SubsetReplays(rows, s);
    ReplaysExactlyWhen(rows, name);
    ReplaysExactlyWhen(s, name);
  }

  // What a rebuilt status says about the newest outcomes after the definition.
  lemma {:induction false} RebuiltStatus(log: Log, name: string)
    requires Ordered(log) && name != "" && Rebuilt(log, name).Ok?
    ensures NewestRow(log, OfType(name, CREATED)).Some?
    ensures var c := NewestRow(log, OfType(name, CREATED)).value;
      var activated := AfterDefinition(NewestRow(log, OfType(name, ACTIVATED)), c).Some?;
      var failed := AfterDefinition(NewestRow(log, OfType(name, FAILED)), c).Some?;
      Rebuilt(log, name).value.status == if activated then Active else if failed then Broken else Provisioning
  {
    var rows := Selected(log, Concerning(name));
    IsHistory(log, name);
    NewestInHistory(log, name, CREATED);
    NewestInHistory(log, name, ACTIVATED);
    NewestInHistory(log, name, FAILED);
    hide History, Selected, NewestRow, Decode, Fold;
    RelevantHistory(rows, name);
    ReplaysExactlyWhen(Relevant(LastOf(rows, CREATED).value, LastOf(rows, ACTIVATED), LastOf(rows, FAILED)), name);
  }

  // ---- A history that only the rebuild accepts ----

  ghost predicate Defines(row: Row, name: string) {
    Concerns(row.doc, name) && EventType(row.doc) == CREATED && Definable(Decode(row.doc)) && After(row.position, NOT_EXISTS)
  }

  // Defined twice, a boundary cannot be replayed, yet its newest definition is rebuilt.
  lemma {:induction false} DefinedTwice(first: Row, second: Row, name: string)
    requires name != "" && Defines(first, name) && Defines(second, name) && After(second.position, first.position)
    ensures Ordered([first, second]) && Fold(Selected([first, second], Concerning(name))).Err?
    ensures Rebuilt([first, second], name) == Ok(Defined(Decode(second.doc), second.position))
  {
    var log := [first, second];
    hide Decode, EventType, Selected, Replayable, NewestRow, Fold;
    SelectedIndex(log, Concerning(name));
    assert first in log && second in log;
    NotTwice(Selected(log, Concerning(name)), first, second);
    IsHistory(log, name);
    ReplaysExactlyWhen(Selected(log, Concerning(name)), name);
    NewestIsSecond(first, second, name);
    OnlyDefinition(second);
    DecodesNamed(second.doc, name);
  }

  lemma NotTwice(rows: Log, first: Row, second: Row)
    requires first in rows && second in rows && first != second
    requires Decode(first.doc).Created? && Decode(second.doc).Created?
    ensures !Replayable(rows)
  {
    hide Decode;
  }

  lemma OnlyDefinition(row: Row)
    requires Definable(Decode(row.doc))
    ensures Relevant(row, None, None) == [row]
    ensures Fold([row]) == Ok(map[Decode(row.doc).boundary := Defined(Decode(row.doc), row.position)])
  {
    hide Decode;
    assert [row] + [] + [] == [row];
    SortOne(row);
    FoldOne(row);
  }

  lemma NewestIsSecond(first: Row, second: Row, name: string)
    requires EventType(first.doc) == EventType(second.doc) == CREATED && TextAt(second.doc, "boundary") == Some(name)
    ensures NewestRow([first, second], OfType(name, CREATED)) == Some(second)
    ensures NewestRow([first, second], OfType(name, ACTIVATED)) == None
    ensures NewestRow([first, second], OfType(name, FAILED)) == None
  {
    hide EventType;
    forall kind ensures EventType(first.doc) != kind && EventType(second.doc) != kind ==> NewestRow([first, second], OfType(name, kind)) == None {
      assert [first, second][..1] == [first] && [first][..0] == [];
      assert NewestRow([first][..0], OfType(name, kind)) == None;
    }
  }

  function DefinitionDocument(name: string, description: string, backend: string, namespace: string): Document {
    map[
      "__eventType" := TextField(CREATED),
      "boundary" := TextField(name),
      "description" := TextField(description),
      "placement" := ObjectField("", map["backend" := TextField(backend), "namespace" := TextField(namespace)])
    ]
  }

  lemma DefinitionDecodes(name: string, description: string, backend: string, namespace: string)
    ensures Decode(DefinitionDocument(name, description, backend, namespace)) == Created(name, description, backend, namespace)
    ensures EventType(DefinitionDocument(name, description, backend, namespace)) == CREATED
    ensures Concerns(DefinitionDocument(name, description, backend, namespace), name)
  {
  }

  // One such history.
  lemma {:induction false} TwoDefinitions()
    ensures var log := [
        Row(DefinitionDocument("orders", "first", "sqlite", "a"), Position(1, 1)),
        Row(DefinitionDocument("orders", "second", "sqlite", "b"), Position(2, 2))];
      && Ordered(log) && Fold(Selected(log, Concerning("orders"))).Err?
      && Rebuilt(log, "orders") == Ok(Boundary("orders", "second", "sqlite", "b", Provisioning, "", Position(2, 2), Position(2, 2)))
  {
    DefinitionDecodes("orders", "first", "sqlite", "a");
    DefinitionDecodes("orders", "second", "sqlite", "b");
    hide DefinitionDocument, Decode, Concerns, EventType, Rebuilt, Fold, Ordered;
    DefinedTwice(
      Row(DefinitionDocument("orders", "first", "sqlite", "a"), Position(1, 1)),
      Row(DefinitionDocument("orders", "second", "sqlite", "b"), Position(2, 2)), "orders");
  }

  lemma FoldOne(row: Row)
    ensures Fold([row]) == Fold1(map[], row)
  {
    FoldAppend([], row);
    assert [] + [row] == [row];
  }

  // ---- loadContext ----

  // What a provisioning command decides on, and what its append is checked against.
  datatype Context = Context(boundary: Boundary, position: Position, query: Query)

  lemma ValidKind(name: string, kind: string)
    requires '\0' !in name && '\0' !in kind
    ensures ValidCriterion(TypeCriterion(name, kind))
  {
    var c := TypeCriterion(name, kind);
    assert forall t :: t in c ==> t == c[0] || t == c[1];
    assert c[0].key != "" && '\0' !in c[0].key;
    assert c[1].key != "" && '\0' !in c[1].key;
  }

  lemma KindsAreText()
    ensures '\0' !in CREATED && '\0' !in ACTIVATED && '\0' !in FAILED
  {
  }

  lemma ValidNameReadable(name: string)
    requires ValidName(name)
    ensures ReadableCriteria(LifecycleCriteria(name)) && ReadableCriteria([TypeCriterion(name, CREATED)])
  {
    hide ValidCriterion;
    KindsAreText();
    assert forall i :: 0 <= i < |name| ==> name[i] != '\0';
    ValidKind(name, CREATED);
    ValidKind(name, ACTIVATED);
    ValidKind(name, FAILED);
  }

  lemma MatchesByType(log: Log, name: string, latest: Latest)
    requires LatestOf(latest, log, LifecycleCriteria(name))
    ensures |latest.matches| == 3
    ensures latest.matches[0] == NewestRow(log, OfType(name, CREATED))
    ensures latest.matches[1] == NewestRow(log, OfType(name, ACTIVATED))
    ensures latest.matches[2] == NewestRow(log, OfType(name, FAILED))
  {
    TypeMatches(log, name, CREATED);
    TypeMatches(log, name, ACTIVATED);
    TypeMatches(log, name, FAILED);
    hide NewestRow, Satisfying, OfType, TypeCriterion;
    assert LifecycleCriteria(name)[0] == TypeCriterion(name, CREATED);
    assert LifecycleCriteria(name)[1] == TypeCriterion(name, ACTIVATED);
    assert LifecycleCriteria(name)[2] == TypeCriterion(name, FAILED);
  }

  lemma TypeMatches(log: Log, name: string, kind: string)
    requires kind != ""
    ensures NewestRow(log, Satisfying(TypeCriterion(name, kind))) == NewestRow(log, OfType(name, kind))
  {
    forall doc ensures Satisfying(TypeCriterion(name, kind))(doc) == OfType(name, kind)(doc) {
      TypeCriterionMeans(doc, name, kind);
    }
    NewestRowDependsOnMeaning(log, Satisfying(TypeCriterion(name, kind)), OfType(name, kind));
  }

  lemma {:induction false} NewestHasType(log: Log, name: string, kind: string)
    ensures var r := NewestRow(log, OfType(name, kind)); r.Some? ==> EventType(r.value.doc) == kind && TextAt(r.value.doc, "boundary") == Some(name)
  {
    if log != [] {
      NewestHasType(log[..|log| - 1], name, kind);
    }
  }

  method ApplyAll(events: Log) returns (r: Result<Boundaries>)
    requires forall i :: 0 <= i < |events| ==> !Decode(events[i].doc).Unrelated?
    ensures r.Ok? <==> Fold(events).Ok?
    ensures r.Ok? ==> r == Fold(events)
    ensures r.Err? ==> r.status == Internal
  {
    hide Decode, Fold1;
    var catalog := new Catalog();
    for i := 0 to |events|
      invariant fresh(catalog) && Fold(events[..i]) == Ok(catalog.boundaries)
    {
      assert events[..i] + [events[i]] == events[..i + 1];
      FoldAppend(events[..i], events[i]);
      var applied, ok := catalog.Apply(events[i]);
      if !ok {
        FoldErrorStays(events, i + 1);
        return Err(Internal);
      }
      // Only lifecycle events are given.
      assert applied;
    }
    assert events[..|events|] == events;
    return Ok(catalog.boundaries);
  }

  // The definition is the newest of its type; outcomes written before it belong to an earlier
  // one and are left out; the rest is folded in order.
  method LoadContext(log: Log, name: string) returns (r: Result<Context>)
    requires Ordered(log) && ValidName(name)
    ensures r.Ok? <==> Rebuilt(log, name).Ok?
    ensures r.Ok? ==> r.value == Context(Rebuilt(log, name).value, Newest(log, LifecycleCriteria(name)), LifecycleCriteria(name))
    ensures r.Err? ==> r.status == Rebuilt(log, name).status
  {
    hide Fold, Decode, NewestRow, OfType, Sort, LifecycleCriteria, QueryHolds;
    var criteria := LifecycleCriteria(name);
    ValidNameReadable(name);
    var read := GetLatestByCriteria(log, criteria);
    var latest := read.value;
    MatchesByType(log, name, latest);
    NewestHasType(log, name, CREATED);
    NewestHasType(log, name, ACTIVATED);
    NewestHasType(log, name, FAILED);

    var definition: Option<Row> := None;
    for i := 0 to 3
      invariant definition == if i == 0 then None else latest.matches[0]
    {
      var found := latest.matches[i];
      if definition == None && found.Some? && EventType(found.value.doc) == CREATED {
        definition := found;
      }
    }
    if definition == None {
      return Err(FailedPrecondition);
    }
    ghost var a, f := AfterDefinition(latest.matches[1], definition.value), AfterDefinition(latest.matches[2], definition.value);
    var events := [definition.value];
    for i := 0 to 3
      invariant events == [definition.value] + (if i >= 2 then Listed(a) else []) + (if i == 3 then Listed(f) else [])
    {
      var found := latest.matches[i];
      if found.None? || EventType(found.value.doc) == CREATED {
        continue;
      }
      if After(found.value.position, definition.value.position) {
        events := events + [found.value];
      }
    }
    events := Sort(Earlier, events);
    assert events == Relevant(definition.value, latest.matches[1], latest.matches[2]);
    RelevantDecode(log, name, definition.value, latest.matches[1], latest.matches[2]);
    var boundaries := ApplyAll(events);
    if boundaries.Err? || name !in boundaries.value {
      return Err(Internal);
    }
    return Ok(Context(boundaries.value[name], latest.context, criteria));
  }

  lemma RelevantDecode(log: Log, name: string, c: Row, activated: Option<Row>, failed: Option<Row>)
    requires Ordered(log)
    requires NewestRow(log, OfType(name, CREATED)) == Some(c)
    requires activated == NewestRow(log, OfType(name, ACTIVATED)) && failed == NewestRow(log, OfType(name, FAILED))
    ensures var s := Relevant(c, activated, failed); forall i :: 0 <= i < |s| ==> !Decode(s[i].doc).Unrelated?
  {
    var s := Relevant(c, activated, failed);
    NewestHasType(log, name, CREATED);
    NewestHasType(log, name, ACTIVATED);
    NewestHasType(log, name, FAILED);
    NewestRowIsNewest(log, OfType(name, ACTIVATED));
    NewestRowIsNewest(log, OfType(name, FAILED));
    hide NewestRow, OfType, Relevant, EventType;
    if activated.Some? && failed.Some? {
      RowsDiffer(log, activated.value, failed.value);
    }
    RelevantRows(c, activated, failed);
    forall i | 0 <= i < |s| ensures !Decode(s[i].doc).Unrelated? {
      assert s[i] in s;
      TypedIsRelated(s[i].doc);
    }
  }

  lemma TypedIsRelated(doc: Document)
    requires EventType(doc) in {CREATED, ACTIVATED, FAILED}
    ensures !Decode(doc).Unrelated?
  {
  }

  // ---- The create command's loadContext ----

  function DefinitionQuery(name: string): Query {
    [TypeCriterion(name, CREATED)]
  }

  // The existing definition, if any, and the position to append against.
  method LoadDefinition(log: Log, name: string) returns (existing: Option<Row>, position: Position)
    requires Ordered(log) && ValidName(name)
    ensures existing == NewestRow(log, OfType(name, CREATED))
    ensures position == Newest(log, DefinitionQuery(name))
  {
    hide NewestRow, OfType, QueryHolds;
    ValidNameReadable(name);
    var read := GetLatestByCriteria(log, DefinitionQuery(name));
    var latest := read.value;
    TypeMatches(log, name, CREATED);
    assert DefinitionQuery(name)[0] == TypeCriterion(name, CREATED);
    existing := None;
    for i := 0 to |latest.matches|
      invariant existing == if i == 0 then None else latest.matches[0]
    {
      if latest.matches[i].Some? {
        existing := latest.matches[i];
      }
    }
    position := latest.context;
  }
}
