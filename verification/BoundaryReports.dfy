// What create and provision commands tell their callers
// (admin/slices/create_boundary/command_handler.go and
// admin/slices/boundary_provisioning/command_handler.go) is what the admin log shows from then.
module BoundaryReports {
  import opened Common
  import opened Tags
  import opened EventLog
  import opened ConsistencyQueries
  import opened SqliteStore
  import CCC = CommandContextConsistency
  import opened EventReads
  import opened BoundaryCatalog
  import opened BoundaryRebuild
  import opened BoundaryLifecycle
  import opened BoundaryLifecycleRuns
  import opened BoundaryAgreement

  // ---- One more event ----

  lemma RebuiltAfter(rows: Log, row: Row, name: string)
    requires Ordered(rows + [row]) && name != "" && Concerns(row.doc, name) && Fold(Selected(rows, Concerning(name))).Ok?
    requires Fold1(Fold(Selected(rows, Concerning(name))).value, row).Ok?
    requires name in Fold1(Fold(Selected(rows, Concerning(name))).value, row).value
    ensures Rebuilt(rows + [row], name) == Ok(Fold1(Fold(Selected(rows, Concerning(name))).value, row).value[name])
  {
    var own, all := Selected(rows, Concerning(name)), Selected(rows + [row], Concerning(name));
    assert all == own + [row] by {
      assert (rows + [row])[..|rows|] == rows;
    }
    hide Selected, Fold, Fold1, Rebuilt, Ordered;
    FoldAppend(own, row);
    IsHistory(rows + [row], name);
    ReplaysExactlyWhen(all, name);
    ReplayableIsRebuilt(rows + [row], name);
  }

  // The row an accepted append of one event leaves, under the position it reports.
  lemma AppendedRow(s: Admin, save: Save, e: PreparedEvent, commands: map<nat, Command>) returns (row: Row)
    requires save.events == [e] && Serve(ServeAll(EMPTY, s.history).0, save).1.Saved?
    ensures var p := Serve(ServeAll(EMPTY, s.history).0, save).1.position;
      && row == Row(Positioned(e, p.prepare, p.commit, save.created), p)
      && Rows(Admin(s.history + [save], commands)) == Rows(s) + [row]
  {
    var state := ServeAll(EMPTY, s.history).0;
    ServedRows(s, save, commands);
    row := Row(Positioned(e, state.nextId, state.nextId, save.created), Position(state.nextId, state.nextId));
    hide Positioned, FirstRejection, ServeAll, Rows;
    assert RowsOf(save.events, state.nextId, state.nextId, save.created) == [row];
  }

  // What the log rebuilds to after an accepted append.
  lemma AppendRebuilds(s: Admin, save: Save, e: PreparedEvent, commands: map<nat, Command>, name: string, doc: Document)
    requires save.events == [e] && Serve(ServeAll(EMPTY, s.history).0, save).1.Saved? && name != ""
    requires var p := Serve(ServeAll(EMPTY, s.history).0, save).1.position; doc == Positioned(e, p.prepare, p.commit, save.created)
    requires Concerns(doc, name) && Fold(Selected(Rows(s), Concerning(name))).Ok?
    requires var p := Serve(ServeAll(EMPTY, s.history).0, save).1.position;
      var after := Fold1(Fold(Selected(Rows(s), Concerning(name))).value, Row(doc, p));
      after.Ok? && name in after.value
    ensures var p := Serve(ServeAll(EMPTY, s.history).0, save).1.position;
      Rebuilt(Rows(Admin(s.history + [save], commands)), name) == Ok(Fold1(Fold(Selected(Rows(s), Concerning(name))).value, Row(doc, p)).value[name])
  {
    hide Serve, ServeAll, Rows, Selected, Fold, Fold1, Rebuilt, Ordered, Positioned, Concerns, CCC.Inv;
    RowsOrdered(Admin(s.history + [save], commands));
    var row := AppendedRow(s, save, e, commands);
    RebuiltAfter(Rows(s), row, name);
  }

  // ---- Activation ----

  lemma UntouchedKeepsSelected(rows: Log, seen: nat, name: string)
    requires seen <= |rows| && name != "" && CCC.Untouched(rows, seen, LifecycleCriteria(name))
    ensures Selected(rows, Concerning(name)) == Selected(rows[..seen], Concerning(name))
  {
    hide Selected, Concerns, CCC.Untouched, LifecycleCriteria;
    UntouchedMeans(rows, seen, name);
    SelectedNone(rows[seen..], Concerning(name));
    SelectedAppend(rows[..seen], rows[seen..], Concerning(name));
    assert rows[..seen] + rows[seen..] == rows;
  }

  lemma ActivatedDecodes(e: PreparedEvent, name: string, globalId: int, commit: int, created: string)
    requires e.kind == ACTIVATED && e.data == ActivatedData(name)
    ensures Decode(Positioned(e, globalId, commit, created)) == Activated(name)
    ensures Concerns(Positioned(e, globalId, commit, created), name)
  {
    StoredType(e, globalId, commit, created);
    assert Positioned(e, globalId, commit, created)["boundary"] == TextField(name);
  }

  lemma SeenIsProper(rows: Log, seen: nat, name: string)
    requires Ordered(rows) && AllRecorded(rows) && Proper(Kinds(rows, name)) && seen <= |rows|
    ensures Ordered(rows[..seen]) && AllRecorded(rows[..seen]) && Proper(Kinds(rows[..seen], name))
  {
    hide Kinds, Proper, WellRecorded;
    LaterKinds(rows, seen, name);
    ProperPrefix(Kinds(rows, name), |Kinds(rows[..seen], name)|);
    assert Kinds(rows, name)[..|Kinds(rows[..seen], name)|] == Kinds(rows[..seen], name);
  }

  // The boundary an activation starts from is the one replayed from all events so far.
  lemma ContextIsReplayed(rows: Log, read: Reading, name: string)
    requires Ordered(rows) && name != "" && AllRecorded(rows) && Proper(Kinds(rows, name)) && read.seen <= |rows|
    requires Rebuilt(rows[..read.seen], name).Ok? && CCC.Untouched(rows, read.seen, LifecycleCriteria(name))
    ensures var replay := Fold(Selected(rows, Concerning(name)));
      replay.Ok? && name in replay.value && Rebuilt(rows[..read.seen], name) == Ok(replay.value[name])
  {
    hide Kinds, Proper, AllRecorded, Ordered, Selected, Rebuilt, Fold, CCC.Untouched, LifecycleCriteria;
    SeenIsProper(rows, read.seen, name);
    UntouchedKeepsSelected(rows, read.seen, name);
    RebuiltIsReplayed(rows[..read.seen], name);
  }

  // An accepted activation reports the context's boundary with its status, error and status
  // position changed; that is what the log rebuilds to from then on.
  lemma {:induction false} ActivationReportsRebuilt(steps: seq<Step>, id: nat, env: Envelope)
    requires Enabled(Run(steps), AppendActivated(id, env))
    requires Serve(ServeAll(EMPTY, Run(steps).history).0, Submission(Run(steps), AppendActivated(id, env))).1.Saved?
    ensures var s := Run(steps);
      var name, read := s.commands[id].name, s.commands[id].read;
      var p := Serve(ServeAll(EMPTY, s.history).0, Submission(s, AppendActivated(id, env))).1.position;
      && read.seen <= |Rows(s)| && Rebuilt(Rows(s)[..read.seen], name).Ok?
      && Rebuilt(Rows(Apply(s, AppendActivated(id, env))), name)
        == Ok(Rebuilt(Rows(s)[..read.seen], name).value.(status := Active, lastError := "", statusPosition := p))
  {
    hide Run, Rows, Rebuilt, Serve, ServeAll, Submission, Apply, Inv, AllRecorded;
    var s := Run(steps);
    RunKeepsInv(steps);
    RunKeepsRecorded(steps);
    ActivationRebuilds(s, id, env);
  }

  lemma ActivationRebuilds(s: Admin, id: nat, env: Envelope)
    requires Inv(s) && AllRecorded(Rows(s)) && Enabled(s, AppendActivated(id, env))
    requires Serve(ServeAll(EMPTY, s.history).0, Submission(s, AppendActivated(id, env))).1.Saved?
    ensures var name, read := s.commands[id].name, s.commands[id].read;
      var p := Serve(ServeAll(EMPTY, s.history).0, Submission(s, AppendActivated(id, env))).1.position;
      && read.seen <= |Rows(s)| && Rebuilt(Rows(s)[..read.seen], name).Ok?
      && Rebuilt(Rows(Apply(s, AppendActivated(id, env))), name) == Ok(WithActivated(Rebuilt(Rows(s)[..read.seen], name).value, p))
  {
    var step := AppendActivated(id, env);
    var name, read := s.commands[id].name, s.commands[id].read;
    var save, t := Submission(s, step), Apply(s, step);
    hide Serve, ServeAll, Rows, Kinds, Rebuilt, DistinctChecks, LifecycleCriteria, ActivatedData, AllRecorded, Afterwards;
    assert CommandInv(Rows(s), s.commands[id]) && Proper(Kinds(Rows(s), name));
    ActivatesContext(s, save, save.events[0], t.commands, name, read);
  }

  lemma ActivatesContext(s: Admin, save: Save, e: PreparedEvent, commands: map<nat, Command>, name: string, read: Reading)
    requires AllRecorded(Rows(s)) && Proper(Kinds(Rows(s), name)) && ValidName(name)
    requires SoundReading(Rows(s), read, LifecycleCriteria(name)) && Rebuilt(Rows(s)[..read.seen], name).Ok?
    requires save.checks == DistinctChecks([Observation(LifecycleCriteria(name), read.position)])
    requires save.events == [e] && e.kind == ACTIVATED && e.data == ActivatedData(name)
    requires Serve(ServeAll(EMPTY, s.history).0, save).1.Saved?
    ensures Rebuilt(Rows(Admin(s.history + [save], commands)), name)
      == Ok(WithActivated(Rebuilt(Rows(s)[..read.seen], name).value, Serve(ServeAll(EMPTY, s.history).0, save).1.position))
  {
    var p := Serve(ServeAll(EMPTY, s.history).0, save).1.position;
    hide Serve, ServeAll, Rows, Kinds, Proper, Rebuilt, DistinctChecks, LifecycleCriteria, CCC.Untouched, ActivatedData,
      AllRecorded, Ordered, Positioned, Newest, Concerns, Decode, Selected, Fold, CCC.Inv, Insertable, Fold1, WithActivated;
    assert name != "";
    AcceptedIsCurrent(s, save, name, read);
    hide ValidName;
    RowsOrdered(s);
    ContextIsReplayed(Rows(s), read, name);
    ActivatedDecodes(e, name, p.prepare, p.commit, save.created);
    ActivationFolds(Fold(Selected(Rows(s), Concerning(name))).value, Positioned(e, p.prepare, p.commit, save.created), p, name);
    AppendRebuilds(s, save, e, commands, name, Positioned(e, p.prepare, p.commit, save.created));
  }

  lemma ActivationFolds(m: Boundaries, doc: Document, p: Position, name: string)
    requires Decode(doc) == Activated(name) && name != "" && name in m
    ensures Fold1(m, Row(doc, p)) == Ok(m[name := WithActivated(m[name], p)])
  {
    hide Decode;
  }

  lemma AcceptedIsCurrent(s: Admin, save: Save, name: string, read: Reading)
    requires ValidName(name) && SoundReading(Rows(s), read, LifecycleCriteria(name))
    requires save.checks == DistinctChecks([Observation(LifecycleCriteria(name), read.position)])
    requires Serve(ServeAll(EMPTY, s.history).0, save).1.Saved?
    ensures CCC.Untouched(Rows(s), read.seen, LifecycleCriteria(name))
  {
    hide Serve, ServeAll, Rows, DistinctChecks, LifecycleCriteria, CCC.Untouched, SoundReading, Insertable;
    ObservableLifecycle(name);
    AppendedExactlyWhenCurrent(s, LifecycleCriteria(name), read, save);
  }

  // ---- Creation ----

  lemma DefinitionDecodesAs(doc: Document, d: Definition)
    requires HoldsDefinition(doc, d) && EventType(doc) == CREATED && ("description" in doc <==> d.description != "")
    ensures Decode(doc) == Created(d.name, d.description, d.backend, d.namespace)
    ensures Concerns(doc, d.name)
  {
    hide EventType;
    var placement := doc["placement"].members;
    assert TextMember(placement, "backend") == Some(d.backend) && TextMember(placement, "namespace") == Some(d.namespace);
  }

  lemma StoredDescription(e: PreparedEvent, d: Definition, rendered: string, globalId: int, commit: int, created: string)
    requires e.data == CreatedData(d, rendered)
    ensures "description" in Positioned(e, globalId, commit, created) <==> d.description != ""
  {
  }

  lemma CreatedDecodesAs(e: PreparedEvent, d: Definition, rendered: string, globalId: int, commit: int, created: string)
    requires e.kind == CREATED && e.data == CreatedData(d, rendered)
    ensures Decode(Positioned(e, globalId, commit, created)) == Created(d.name, d.description, d.backend, d.namespace)
    ensures Concerns(Positioned(e, globalId, commit, created), d.name)
  {
    hide Positioned, CreatedData, EventType, HoldsDefinition, Decode, Concerns;
    StoredType(e, globalId, commit, created);
    StoredDefinition(e, d, rendered, globalId, commit, created);
    StoredDescription(e, d, rendered, globalId, commit, created);
    DefinitionDecodesAs(Positioned(e, globalId, commit, created), d);
  }

  // An accepted creation reports a provisioning boundary as defined, at the position of the
  // append; that is what the log rebuilds to from then on.
  lemma {:induction false} CreationReportsRebuilt(steps: seq<Step>, id: nat, env: Envelope, rendered: string)
    requires Enabled(Run(steps), AppendCreated(id, env, rendered))
    requires Serve(ServeAll(EMPTY, Run(steps).history).0, Submission(Run(steps), AppendCreated(id, env, rendered))).1.Saved?
    ensures var s := Run(steps);
      var d := s.commands[id].definition;
      var p := Serve(ServeAll(EMPTY, s.history).0, Submission(s, AppendCreated(id, env, rendered))).1.position;
      Rebuilt(Rows(Apply(s, AppendCreated(id, env, rendered))), d.name)
        == Ok(Boundary(d.name, d.description, d.backend, d.namespace, Provisioning, "", p, p))
  {
    var s := Run(steps);
    RunKeepsInv(steps);
    hide Run;
    CreationRebuilds(s, id, env, rendered);
  }

  lemma StillUndefined(s: Admin, d: Definition, read: Reading)
    requires AllProper(Rows(s)) && CommandInv(Rows(s), Creating(d, read)) && CCC.Untouched(Rows(s), read.seen, DefinitionQuery(d.name))
    ensures Selected(Rows(s), Concerning(d.name)) == []
  {
    assert Proper(Kinds(Rows(s), d.name));
    hide Rows, Kinds, DefinitionQuery, Newest, CCC.Untouched, Concerns;
    UntouchedKeepsUndefined(Rows(s), read.seen, d.name);
    NoKindsExactlyWhen(Rows(s), d.name);
    SelectedNone(Rows(s), Concerning(d.name));
  }

  lemma CreationRebuilds(s: Admin, id: nat, env: Envelope, rendered: string)
    requires Inv(s) && Enabled(s, AppendCreated(id, env, rendered))
    requires Serve(ServeAll(EMPTY, s.history).0, Submission(s, AppendCreated(id, env, rendered))).1.Saved?
    ensures var d := s.commands[id].definition;
      var p := Serve(ServeAll(EMPTY, s.history).0, Submission(s, AppendCreated(id, env, rendered))).1.position;
      Rebuilt(Rows(Apply(s, AppendCreated(id, env, rendered))), d.name)
        == Ok(Boundary(d.name, d.description, d.backend, d.namespace, Provisioning, "", p, p))
  {
    var step := AppendCreated(id, env, rendered);
    var d, read := s.commands[id].definition, s.commands[id].read;
    var save, t := Submission(s, step), Apply(s, step);
    hide Serve, ServeAll, Rows, Kinds, Rebuilt, DistinctChecks, DefinitionQuery, CreatedData, AllProper, Afterwards;
    assert CommandInv(Rows(s), s.commands[id]);
    CreatesBoundary(s, save, save.events[0], t.commands, d, read, rendered);
  }

  lemma CreatesBoundary(s: Admin, save: Save, e: PreparedEvent, commands: map<nat, Command>, d: Definition, read: Reading, rendered: string)
    requires AllProper(Rows(s)) && CommandInv(Rows(s), Creating(d, read))
    requires save.checks == DistinctChecks([Observation(DefinitionQuery(d.name), read.position)])
    requires save.events == [e] && e.kind == CREATED && e.data == CreatedData(d, rendered)
    requires Serve(ServeAll(EMPTY, s.history).0, save).1.Saved?
    ensures var p := Serve(ServeAll(EMPTY, s.history).0, save).1.position;
      Rebuilt(Rows(Admin(s.history + [save], commands)), d.name)
        == Ok(Boundary(d.name, d.description, d.backend, d.namespace, Provisioning, "", p, p))
  {
    var p := Serve(ServeAll(EMPTY, s.history).0, save).1.position;
    hide Serve, ServeAll, Rows, Kinds, Rebuilt, DistinctChecks, DefinitionQuery, CCC.Untouched, CreatedData,
      AllProper, Positioned, Newest, Concerns, Decode, Selected;
    ObservableLifecycle(d.name);
    AppendedExactlyWhenCurrent(s, DefinitionQuery(d.name), read, save);
    StillUndefined(s, d, read);
    CreatedDecodesAs(e, d, rendered, p.prepare, p.commit, save.created);
    AppendRebuilds(s, save, e, commands, d.name, Positioned(e, p.prepare, p.commit, save.created));
  }
}
