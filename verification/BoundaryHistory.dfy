// What a boundary shows, in terms of the rows on record: the catalog's fold of its lifecycle events
// (admin/slices/boundary_catalog/event_handler.go) and the rebuild of the provisioning command
// (admin/slices/boundary_provisioning/command_handler.go) read off its newest definition and the
// newest outcome after it.
module BoundaryHistory {
  import opened Common
  import opened Tags
  import opened EventLog
  import opened EventReads
  import opened BoundaryCatalog
  import opened BoundaryRebuild

  // The newest of the rows of a type.
  ghost predicate IsNewestOf(rows: Log, kind: string, r: Row) {
    && r in rows && EventType(r.doc) == kind
    && forall q :: q in rows && EventType(q.doc) == kind ==> AtOrAfter(r.position, q.position)
  }

  // No row of a type comes after this one.
  ghost predicate NoneAfter(rows: Log, kind: string, c: Row) {
    forall q :: q in rows && EventType(q.doc) == kind ==> !After(q.position, c.position)
  }

  // A text member, which an absent or null one leaves empty.
  predicate ReadsAs(doc: Document, key: string, text: string) {
    if key in doc && !doc[key].NullField? then doc[key] == TextField(text) else text == ""
  }

  // The definition's own fields, as the row has them.
  predicate DefinedBy(b: Boundary, c: Row) {
    && ReadsAs(c.doc, "boundary", b.name) && ReadsAs(c.doc, "description", b.description)
    && "placement" in c.doc && c.doc["placement"].ObjectField?
    && ReadsAs(c.doc["placement"].members, "backend", b.backend)
    && ReadsAs(c.doc["placement"].members, "namespace", b.namespace)
    && b.definitionPosition == c.position
  }

  // The position of a failure, and its text.
  predicate FailedBy(b: Boundary, f: Row) {
    b.statusPosition == f.position && "error" in f.doc && f.doc["error"] == TextField(b.lastError)
  }

  // The newest activation after the definition, which ends it all; else the newest failure after
  // it, with its text; else nothing but the definition.
  ghost predicate StatusBy(b: Boundary, rows: Log, c: Row) {
    match b.status
    case Active =>
      b.lastError == "" && exists a :: IsNewestOf(rows, ACTIVATED, a) && After(a.position, c.position) && b.statusPosition == a.position
    case Broken =>
      && b.lastError != "" && NoneAfter(rows, ACTIVATED, c)
      && exists f :: IsNewestOf(rows, FAILED, f) && After(f.position, c.position) && FailedBy(b, f)
    case Provisioning =>
      b.lastError == "" && b.statusPosition == c.position && NoneAfter(rows, ACTIVATED, c) && NoneAfter(rows, FAILED, c)
  }

  ghost predicate ReadOff(b: Boundary, rows: Log) {
    exists c :: IsNewestOf(rows, CREATED, c) && DefinedBy(b, c) && StatusBy(b, rows, c)
  }

  // ---- The newest row of a type ----

  lemma {:induction false} LastIsNewest(rows: Log, kind: string)
    requires Ordered(rows)
    ensures LastOf(rows, kind).Some? ==> IsNewestOf(rows, kind, LastOf(rows, kind).value)
    ensures LastOf(rows, kind).None? ==> forall q :: q in rows ==> EventType(q.doc) != kind
  {
    hide EventType;
    if rows != [] {
      var init, last := rows[..|rows| - 1], rows[|rows| - 1];
      assert rows == init + [last];
      OrderedAppend(init, last);
      LastIsNewest(init, kind);
      LastOfAppend(init, last, kind);
    }
  }

  lemma NothingLater(rows: Log, kind: string, c: Row)
    requires Ordered(rows) && AfterDefinition(LastOf(rows, kind), c).None?
    ensures NoneAfter(rows, kind, c)
  {
    hide EventType, LastOf;
    LastIsNewest(rows, kind);
  }

  // ---- Reading it off ----

  lemma DefinitionReadOff(c: Row, b: Boundary)
    requires Definable(Decode(c.doc)) && b.definitionPosition == c.position
    requires var e := Decode(c.doc);
      b.name == e.boundary && b.description == e.description && b.backend == e.backend && b.namespace == e.namespace
    ensures DefinedBy(b, c)
  {
    hide EventType;
  }

  lemma ErrorReadOff(doc: Document, error: string)
    requires Decode(doc).Failed? && Decode(doc).error == error != ""
    ensures "error" in doc && doc["error"] == TextField(error)
  {
  }

  lemma StatusReadOff(rows: Log, c: Row)
    requires Ordered(rows) && Decode(c.doc).Created?
    requires var f := AfterDefinition(LastOf(rows, FAILED), c); f.Some? ==> Decode(f.value.doc).Failed? && Decode(f.value.doc).error != ""
    ensures StatusBy(Summary(c, AfterDefinition(LastOf(rows, ACTIVATED), c), AfterDefinition(LastOf(rows, FAILED), c)), rows, c)
  {
    hide EventType, Decode, LastOf, NoneAfter, IsNewestOf;
    var a, f := AfterDefinition(LastOf(rows, ACTIVATED), c), AfterDefinition(LastOf(rows, FAILED), c);
    LastIsNewest(rows, ACTIVATED);
    LastIsNewest(rows, FAILED);
    if a.None? {
      NothingLater(rows, ACTIVATED, c);
      if f.None? {
        NothingLater(rows, FAILED, c);
      } else {
        ErrorReadOff(f.value.doc, Decode(f.value.doc).error);
      }
    }
  }

  lemma SummaryReadOff(rows: Log, name: string, c: Row)
    requires History(rows, name) && LastOf(rows, CREATED) == Some(c) && Definable(Decode(c.doc))
    requires var f := AfterDefinition(LastOf(rows, FAILED), c); f.Some? ==> Decode(f.value.doc).Failed? && Decode(f.value.doc).error != ""
    ensures ReadOff(Summary(c, AfterDefinition(LastOf(rows, ACTIVATED), c), AfterDefinition(LastOf(rows, FAILED), c)), rows)
  {
    var b := Summary(c, AfterDefinition(LastOf(rows, ACTIVATED), c), AfterDefinition(LastOf(rows, FAILED), c));
    DefinitionReadOff(c, b);
    StatusReadOff(rows, c);
    LastIsNewest(rows, CREATED);
    hide EventType, Decode, LastOf, DefinedBy, StatusBy, IsNewestOf;
    assert IsNewestOf(rows, CREATED, c);
  }

  // What replayable rows say of their newest definition and the newest failure after it.
  lemma ReplayableReasons(rows: Log, name: string, c: Row)
    requires History(rows, name) && Replayable(rows) && LastOf(rows, CREATED) == Some(c)
    ensures Definable(Decode(c.doc))
    ensures var f := AfterDefinition(LastOf(rows, FAILED), c); f.Some? ==> Decode(f.value.doc).Failed? && Decode(f.value.doc).error != ""
  {
    hide EventType, Decode, LastOf, Concerns, Definable;
    LastOfIn(rows, CREATED);
    LastOfIn(rows, FAILED);
    DecodesNamed(c.doc, name);
    var f := AfterDefinition(LastOf(rows, FAILED), c);
    if f.Some? {
      DecodesNamed(f.value.doc, name);
      assert FailsAfter(f.value, c);
    }
  }

  // What a replay that succeeds shows of a boundary can be read off its rows.
  lemma {:induction false} ReplayReadsOff(rows: Log, name: string)
    requires History(rows, name) && Fold(rows).Ok?
    ensures name in Fold(rows).value <==> exists r :: r in rows && EventType(r.doc) == CREATED
    ensures name in Fold(rows).value ==> ReadOff(Fold(rows).value[name], rows)
  {
    ReplaysExactlyWhen(rows, name);
    LastOfIn(rows, CREATED);
    hide EventType, Decode, LastOf, History, Replayable, ReadOff, Summary, Fold, AfterDefinition, Definable;
    if name in Fold(rows).value {
      var c := LastOf(rows, CREATED).value;
      ReplayableReasons(rows, name, c);
      SummaryReadOff(rows, name, c);
    }
  }

  // And so can what a rebuild shows, of all the boundary's rows in the log.
  lemma {:induction false} RebuildReadsOff(log: Log, name: string)
    requires Ordered(log) && name != "" && Rebuilt(log, name).Ok?
    ensures ReadOff(Rebuilt(log, name).value, Selected(log, Concerning(name)))
  {
    var rows := Selected(log, Concerning(name));
    IsHistory(log, name);
    NewestInHistory(log, name, CREATED);
    NewestInHistory(log, name, ACTIVATED);
    NewestInHistory(log, name, FAILED);
    hide EventType, Decode, LastOf, History, Replayable, ReadOff, Summary, Fold, Selected, NewestRow, Relevant, Definable;
    RelevantHistory(rows, name);
    var c, a, f := LastOf(rows, CREATED).value, LastOf(rows, ACTIVATED), LastOf(rows, FAILED);
    var s := Relevant(c, a, f);
    ReplaysExactlyWhen(s, name);
    ReplayableReasons(s, name, c);
    SummaryReadOff(rows, name, c);
  }
}
