// What the create and provision commands (admin/slices/create_boundary/command_handler.go and
// admin/slices/boundary_provisioning/command_handler.go) accomplish: wherever a run stands, a
// boundary can be defined, activated and recorded as failed, and an activation that is overtaken
// gets through.
module BoundaryProvisioning {
  import opened Common
  import opened Ordering
  import opened Tags
  import opened EventLog
  import opened ConsistencyQueries
  import opened SqliteCriteria
  import opened SqliteStore
  import CCC = CommandContextConsistency
  import opened EventReads
  import opened BoundaryCatalog
  import opened BoundaryRebuild
  import opened BoundaryHistory
  import opened BoundaryLifecycle
  import opened BoundaryLifecycleRuns
  import opened BoundaryAgreement
  import opened BoundaryReports

  // ---- Steps and what they append ----

  lemma SameRows(s: Admin, t: Admin)
    requires t.history == s.history
    ensures Rows(t) == Rows(s)
  {
  }

  lemma RunOne(steps: seq<Step>, step: Step)
    requires Enabled(Run(steps), step)
    ensures Run(steps + [step]) == Apply(Run(steps), step)
  {
    hide Enabled, Apply;
    assert (steps + [step])[..|steps + [step]| - 1] == steps;
  }

  // An append right after its context was read is accepted.
  lemma UndisturbedIsAppended(s: Admin, query: Query, save: Save)
    requires ObservableQuery(query) && save.checks == DistinctChecks([Observation(query, Newest(Rows(s), query))])
    requires !save.cancelled && |save.events| == 1 && save.events[0].parsed && |Rows(s)| + 2 <= MAX_INT64
    ensures Serve(ServeAll(EMPTY, s.history).0, save).1.Saved?
    ensures |Rows(Admin(s.history + [save], s.commands))| == |Rows(s)| + 1
  {
    hide DistinctChecks, Serve, ServeAll, Newest, ObservableQuery;
    RowsOrdered(s);
    assert Rows(s)[..|Rows(s)|] == Rows(s);
    AppendedExactlyWhenCurrent(s, query, ReadNow(Rows(s), query), save);
    var row := AppendedRow(s, save, save.events[0], s.commands);
  }

  // Wherever a boundary is not defined yet, a create command can define it.
  lemma CanBeCreated(steps: seq<Step>, id: nat, d: Definition, env: Envelope, rendered: string)
    requires id !in Run(steps).commands && ValidDefinition(d) && NewestRow(Rows(Run(steps)), OfType(d.name, CREATED)).None?
    requires !env.cancelled && |Rows(Run(steps))| + 2 <= MAX_INT64
    ensures var t := Run(steps + [BeginCreate(id, d)] + [AppendCreated(id, env, rendered)]);
      && t.commands.Keys == Run(steps).commands.Keys + {id} && Rows(t) != []
      && LeavesAs(Rows(Run(steps)), Rows(t),
                  Boundary(d.name, d.description, d.backend, d.namespace, Provisioning, "", Newly(Rows(t)), Newly(Rows(t))))
  {
    var s, begin, append := Run(steps), BeginCreate(id, d), AppendCreated(id, env, rendered);
    hide Rows, NewestRow, OfType, Newest, Rebuilt, DistinctChecks, DefinitionQuery, CreatedData, Serve, ServeAll, ValidDefinition, Run, Afterwards,
      Newly, ReplayShows;
    RunOne(steps, begin);
    var reading := Run(steps + [begin]);
    SameRows(s, reading);
    assert reading.commands[id] == Creating(d, ReadNow(Rows(s), DefinitionQuery(d.name)));
    DefinesValidName(d);
    NamedValidly(d.name);
    hide ValidName;
    ObservableLifecycle(d.name);
    UndisturbedIsAppended(reading, DefinitionQuery(d.name), Submission(reading, append));
    RunOne(steps + [begin], append);
    AppendsNewest(reading, append);
    CreationReportsRebuilt(steps + [begin], id, env, rendered);
    BothShow(steps + [begin] + [append], d.name, Rebuilt(Rows(Run(steps + [begin] + [append])), d.name).value);
  }

  lemma DefinesValidName(d: Definition)
    requires ValidDefinition(d)
    ensures ValidName(d.name)
  {
  }

  // What a command's accepted append adds.
  lemma SubmittedRow(s: Admin, step: Step) returns (row: Row)
    requires Enabled(s, step) && Appends(step)
    requires Serve(ServeAll(EMPTY, s.history).0, Submission(s, step)).1.Saved?
    ensures Rows(Apply(s, step)) == Rows(s) + [row]
    ensures var e := Submission(s, step).events[0];
      EventType(row.doc) == e.kind && TextAt(row.doc, "boundary") == TextAt(e.data, "boundary")
    ensures step.AppendActivated? ==> Decode(row.doc) == Activated(s.commands[step.id].name)
    ensures step.AppendFailed? ==> Decode(row.doc) == Lifecycle.Failed(s.commands[step.id].name, s.commands[step.id].error)
  {
    var save := Submission(s, step);
    var e := save.events[0];
    hide Serve, ServeAll, Rows, Positioned, Decode, EventType, TextAt, DistinctChecks, Afterwards, CreatedData, ActivatedData, FailedData;
    row := AppendedRow(s, save, e, Apply(s, step).commands);
    StoredType(e, row.position.prepare, row.position.commit, save.created);
    if step.AppendActivated? {
      ActivatedDecodes(e, s.commands[step.id].name, row.position.prepare, row.position.commit, save.created);
    } else if step.AppendFailed? {
      FailedDecodes(e, s.commands[step.id].name, s.commands[step.id].error, row.position.prepare, row.position.commit, save.created);
    }
  }

  lemma FailedDecodes(e: PreparedEvent, name: string, error: string, globalId: int, commit: int, created: string)
    requires e.kind == FAILED && e.data == FailedData(name, error)
    ensures Decode(Positioned(e, globalId, commit, created)) == Lifecycle.Failed(name, error)
    ensures Concerns(Positioned(e, globalId, commit, created), name)
  {
    var doc := Positioned(e, globalId, commit, created);
    StoredType(e, globalId, commit, created);
    assert doc["boundary"] == TextField(name) && doc["error"] == TextField(error);
  }

  lemma CommandBoundary(s: Admin, step: Step)
    requires Enabled(s, step) && (step.AppendActivated? || step.AppendFailed?)
    ensures TextAt(Submission(s, step).events[0].data, "boundary") == Some(s.commands[step.id].name)
  {
    hide DistinctChecks;
    OutcomeBoundary(s.commands[step.id].name, if step.AppendFailed? then s.commands[step.id].error else "");
  }

  // Every save a run submits, of its commands or of others, is served at once.
  lemma {:induction false} EverySaveIsServed(s: Admin, step: Step)
    requires Enabled(s, step) && (Appends(step) || step.SaveOther?)
    ensures var save := if step.SaveOther? then step.save else Submission(s, step);
      Rows(Apply(s, step)) == Serve(ServeAll(EMPTY, s.history).0, save).0.rows
  {
    var save := if step.SaveOther? then step.save else Submission(s, step);
    hide Serve, Submission, Afterwards;
    assert (s.history + [save])[..|s.history|] == s.history;
  }

  // ---- Failure ----

  lemma FailureFolds(m: Boundaries, doc: Document, p: Position, name: string, error: string)
    requires Decode(doc) == Lifecycle.Failed(name, error) && name != "" && error != "" && name in m && m[name].status != Active
    ensures Fold1(m, Row(doc, p)) == Ok(m[name := m[name].(status := Broken, lastError := error, statusPosition := p)])
  {
    hide Decode;
  }

  lemma FailsContext(s: Admin, save: Save, e: PreparedEvent, commands: map<nat, Command>, name: string, read: Reading, error: string)
    requires AllRecorded(Rows(s)) && Proper(Kinds(Rows(s), name)) && ValidName(name) && error != ""
    requires SoundReading(Rows(s), read, LifecycleCriteria(name))
    requires Rebuilt(Rows(s)[..read.seen], name).Ok? && Rebuilt(Rows(s)[..read.seen], name).value.status != Active
    requires save.checks == DistinctChecks([Observation(LifecycleCriteria(name), read.position)])
    requires save.events == [e] && e.kind == FAILED && e.data == FailedData(name, error)
    requires Serve(ServeAll(EMPTY, s.history).0, save).1.Saved?
    ensures var p := Serve(ServeAll(EMPTY, s.history).0, save).1.position;
      Rebuilt(Rows(Admin(s.history + [save], commands)), name)
        == Ok(Rebuilt(Rows(s)[..read.seen], name).value.(status := Broken, lastError := error, statusPosition := p))
  {
    var p := Serve(ServeAll(EMPTY, s.history).0, save).1.position;
    hide Serve, ServeAll, Rows, Kinds, Proper, Rebuilt, DistinctChecks, LifecycleCriteria, CCC.Untouched, FailedData,
      AllRecorded, Ordered, Positioned, Newest, Concerns, Decode, Selected, Fold, CCC.Inv, Insertable, Fold1;
    assert name != "";
    AcceptedIsCurrent(s, save, name, read);
    hide ValidName;
    RowsOrdered(s);
    ContextIsReplayed(Rows(s), read, name);
    FailedDecodes(e, name, error, p.prepare, p.commit, save.created);
    FailureFolds(Fold(Selected(Rows(s), Concerning(name))).value, Positioned(e, p.prepare, p.commit, save.created), p, name, error);
    AppendRebuilds(s, save, e, commands, name, Positioned(e, p.prepare, p.commit, save.created));
  }

  // In every run an accepted failure with a text leaves the boundary failed with that text, at the
  // position of the append.
  lemma {:induction false} FailureReportsRebuilt(steps: seq<Step>, id: nat, env: Envelope)
    requires Enabled(Run(steps), AppendFailed(id, env)) && Run(steps).commands[id].error != ""
    requires Serve(ServeAll(EMPTY, Run(steps).history).0, Submission(Run(steps), AppendFailed(id, env))).1.Saved?
    ensures var s := Run(steps);
      var name, read, error := s.commands[id].name, s.commands[id].read, s.commands[id].error;
      var p := Serve(ServeAll(EMPTY, s.history).0, Submission(s, AppendFailed(id, env))).1.position;
      && read.seen <= |Rows(s)| && Rebuilt(Rows(s)[..read.seen], name).Ok?
      && Rebuilt(Rows(Apply(s, AppendFailed(id, env))), name)
        == Ok(Rebuilt(Rows(s)[..read.seen], name).value.(status := Broken, lastError := error, statusPosition := p))
  {
    var s := Run(steps);
    RunKeepsInv(steps);
    RunKeepsRecorded(steps);
    RowsOrdered(s);
    hide Run;
    FailureRebuilds(s, id, env);
  }

  lemma FailureRebuilds(s: Admin, id: nat, env: Envelope)
    requires Inv(s) && AllRecorded(Rows(s)) && Ordered(Rows(s)) && Enabled(s, AppendFailed(id, env)) && s.commands[id].error != ""
    requires Serve(ServeAll(EMPTY, s.history).0, Submission(s, AppendFailed(id, env))).1.Saved?
    ensures var name, read, error := s.commands[id].name, s.commands[id].read, s.commands[id].error;
      var p := Serve(ServeAll(EMPTY, s.history).0, Submission(s, AppendFailed(id, env))).1.position;
      && read.seen <= |Rows(s)| && Rebuilt(Rows(s)[..read.seen], name).Ok?
      && Rebuilt(Rows(Apply(s, AppendFailed(id, env))), name)
        == Ok(Rebuilt(Rows(s)[..read.seen], name).value.(status := Broken, lastError := error, statusPosition := p))
  {
    var step := AppendFailed(id, env);
    var name, read, error := s.commands[id].name, s.commands[id].read, s.commands[id].error;
    var save, t := Submission(s, step), Apply(s, step);
    hide Serve, ServeAll, Rows, Kinds, Rebuilt, DistinctChecks, LifecycleCriteria, FailedData, AllRecorded, Afterwards, Ordered;
    assert CommandInv(Rows(s), s.commands[id]) && Proper(Kinds(Rows(s), name));
    PrefixOrdered(Rows(s), read.seen);
    StatusTellsKinds(Rows(s)[..read.seen], name);
    FailsContext(s, save, save.events[0], t.commands, name, read, error);
  }

  // ---- What a provisioning leaves ----

  // The newest row.
  function Newly(rows: Log): Position
    requires rows != []
  {
    rows[|rows| - 1].position
  }

  // One row more, and both readers show the boundary so.
  ghost predicate LeavesAs(before: Log, rows: Log, b: Boundary) {
    && |rows| == |before| + 1 && before <= rows
    && Rebuilt(rows, b.name) == Ok(b) && ReplayShows(rows, b.name) == Shown(b)
  }

  lemma BothShow(steps: seq<Step>, name: string, b: Boundary)
    requires name != "" && Rebuilt(Rows(Run(steps)), name) == Ok(b)
    ensures ReplayShows(Rows(Run(steps)), name) == Shown(b)
  {
    hide Run, Rows, Rebuilt, ReplayShows;
    RebuildAgreesInEveryRun(steps, name);
  }

  lemma {:induction false} RebuiltName(log: Log, name: string)
    requires Ordered(log) && name != "" && Rebuilt(log, name).Ok?
    ensures Rebuilt(log, name).value.name == name
  {
    var rows := Selected(log, Concerning(name));
    IsHistory(log, name);
    NewestInHistory(log, name, CREATED);
    NewestInHistory(log, name, ACTIVATED);
    NewestInHistory(log, name, FAILED);
    hide History, Selected, NewestRow, Decode, Fold, Concerns;
    RelevantHistory(rows, name);
    LastOfIn(rows, CREATED);
    assert Concerns(LastOf(rows, CREATED).value.doc, name);
    DecodesNamed(LastOf(rows, CREATED).value.doc, name);
    ReplaysExactlyWhen(Relevant(LastOf(rows, CREATED).value, LastOf(rows, ACTIVATED), LastOf(rows, FAILED)), name);
  }

  // The position an accepted append of one event reports is that of the newest row.
  lemma AppendsNewest(s: Admin, step: Step)
    requires Enabled(s, step) && Appends(step) && Serve(ServeAll(EMPTY, s.history).0, Submission(s, step)).1.Saved?
    ensures var t := Apply(s, step);
      && |Rows(t)| == |Rows(s)| + 1 && Rows(s) <= Rows(t)
      && Newly(Rows(t)) == Serve(ServeAll(EMPTY, s.history).0, Submission(s, step)).1.position
  {
    var save := Submission(s, step);
    hide Serve, ServeAll, Rows, Positioned, DistinctChecks, Afterwards, CreatedData, ActivatedData, FailedData;
    var row := AppendedRow(s, save, save.events[0], Apply(s, step).commands);
  }

  // A command that goes on to an outcome, its context just read.
  lemma AttemptBegins(steps: seq<Step>, id: nat, d: Definition)
    requires id !in Run(steps).commands && ValidDefinition(d)
    requires Rebuilt(Rows(Run(steps)), d.name).Ok? && Rebuilt(Rows(Run(steps)), d.name).value.status != Active
    ensures var s, t := Run(steps), Run(steps + [BeginProvision(id, d)]);
      && t.history == s.history && Rows(t) == Rows(s) && id in t.commands
      && t.commands[id] == Attempting(d.name, ReadNow(Rows(s), LifecycleCriteria(d.name)), Rebuilt(Rows(s), d.name).value.status)
  {
    hide Run, Rows, Rebuilt, Newest, LifecycleCriteria, ValidDefinition;
    RunOne(steps, BeginProvision(id, d));
    SameRows(Run(steps), Run(steps + [BeginProvision(id, d)]));
  }

  // How the provisioning itself goes.
  lemma AttemptEnds(steps: seq<Step>, id: nat, error: string)
    requires id in Run(steps).commands && Run(steps).commands[id].Attempting?
    ensures var s := Run(steps);
      var command, succeeded, failed := s.commands[id], Run(steps + [ProvisionSucceeds(id)]), Run(steps + [ProvisionFails(id, error)]);
      && id in succeeded.commands && succeeded.commands[id] == Activating(command.name, command.read, 0) && Rows(succeeded) == Rows(s)
      && id in failed.commands && Rows(failed) == Rows(s)
      && (command.status != Broken ==> failed.commands[id] == Failing(command.name, command.read, error))
  {
    hide Run, Rows, LoadForProvision, LoadForCreate, Submission, Afterwards;
    RunOne(steps, ProvisionSucceeds(id));
    RunOne(steps, ProvisionFails(id, error));
    SameRows(Run(steps), Run(steps + [ProvisionSucceeds(id)]));
    SameRows(Run(steps), Run(steps + [ProvisionFails(id, error)]));
  }

  lemma ActivatingCanAppend(s: Admin, id: nat, env: Envelope)
    requires id in s.commands && s.commands[id].Activating?
    ensures Enabled(s, AppendActivated(id, env))
  {
  }

  lemma FailingCanAppend(s: Admin, id: nat, env: Envelope)
    requires id in s.commands && s.commands[id].Failing?
    ensures Enabled(s, AppendFailed(id, env))
  {
  }

  // Nothing having happened since its context was read, an outcome is accepted.
  lemma FreshOutcomeIsAppended(s: Admin, step: Step, name: string)
    requires Enabled(s, step) && (step.AppendActivated? || step.AppendFailed?) && ValidName(name)
    requires s.commands[step.id].name == name && s.commands[step.id].read == ReadNow(Rows(s), LifecycleCriteria(name))
    requires !step.env.cancelled && |Rows(s)| + 2 <= MAX_INT64
    ensures Serve(ServeAll(EMPTY, s.history).0, Submission(s, step)).1.Saved?
  {
    hide Rows, Newest, DistinctChecks, LifecycleCriteria, FailedData, ActivatedData, Serve, ServeAll, ObservableQuery, ValidName;
    ObservableLifecycle(name);
    UndisturbedIsAppended(s, LifecycleCriteria(name), Submission(s, step));
  }

  lemma WholeLog(rows: Log)
    ensures rows[..|rows|] == rows
  {
  }

  // An accepted activation on a context just read.
  lemma FreshActivation(steps: seq<Step>, id: nat, env: Envelope, name: string)
    requires Enabled(Run(steps), AppendActivated(id, env)) && ValidName(name) && !env.cancelled && |Rows(Run(steps))| + 2 <= MAX_INT64
    requires Run(steps).commands[id].name == name && Run(steps).commands[id].read == ReadNow(Rows(Run(steps)), LifecycleCriteria(name))
    ensures Rebuilt(Rows(Run(steps)), name).Ok? && Rebuilt(Rows(Run(steps)), name).value.name == name
    ensures var rows := Rows(Run(steps + [AppendActivated(id, env)]));
      && rows != []
      && LeavesAs(Rows(Run(steps)), rows, Rebuilt(Rows(Run(steps)), name).value.(status := Active, lastError := "", statusPosition := Newly(rows)))
  {
    var s, step := Run(steps), AppendActivated(id, env);
    assert name != "";
    hide Run, Rows, Rebuilt, Newest, LifecycleCriteria, Serve, ServeAll, Submission, Apply, ValidName, ReplayShows, Newly, CCC.Inv, Ordered;
    FreshOutcomeIsAppended(s, step, name);
    RunOne(steps, step);
    AppendsNewest(s, step);
    ActivationReportsRebuilt(steps, id, env);
    WholeLog(Rows(s));
    RowsOrdered(s);
    RebuiltName(Rows(s), name);
    BothShow(steps + [step], name, Rebuilt(Rows(s), name).value.(status := Active, lastError := "", statusPosition := Newly(Rows(Run(steps + [step])))));
  }

  // Wherever a boundary can be read and is not active, a provisioning that succeeds activates it.
  lemma {:induction false} SuccessActivates(steps: seq<Step>, id: nat, d: Definition, env: Envelope)
    requires id !in Run(steps).commands && ValidDefinition(d) && !env.cancelled && |Rows(Run(steps))| + 2 <= MAX_INT64
    requires Rebuilt(Rows(Run(steps)), d.name).Ok? && Rebuilt(Rows(Run(steps)), d.name).value.status != Active
    ensures var rows := Rows(Run(steps + [BeginProvision(id, d)] + [ProvisionSucceeds(id)] + [AppendActivated(id, env)]));
      && rows != []
      && LeavesAs(Rows(Run(steps)), rows, Rebuilt(Rows(Run(steps)), d.name).value.(status := Active, lastError := "", statusPosition := Newly(rows)))
  {
    DefinesValidName(d);
    hide Run, Rows, Rebuilt, Newest, LifecycleCriteria, ValidDefinition, ValidName, LeavesAs, Newly, Submission, Afterwards, LoadForProvision;
    hide Enabled, Apply;
    AttemptBegins(steps, id, d);
    var begun := steps + [BeginProvision(id, d)];
    AttemptEnds(begun, id, "");
    ActivatingCanAppend(Run(begun + [ProvisionSucceeds(id)]), id, env);
    FreshActivation(begun + [ProvisionSucceeds(id)], id, env, d.name);
  }

  // And one that fails, of a boundary still being provisioned, leaves it failed with its text.
  lemma {:induction false} FailureIsRecorded(steps: seq<Step>, id: nat, d: Definition, env: Envelope, error: string)
    requires id !in Run(steps).commands && ValidDefinition(d) && !env.cancelled && |Rows(Run(steps))| + 2 <= MAX_INT64
    requires Rebuilt(Rows(Run(steps)), d.name).Ok? && Rebuilt(Rows(Run(steps)), d.name).value.status == Provisioning && error != ""
    ensures var rows := Rows(Run(steps + [BeginProvision(id, d)] + [ProvisionFails(id, error)] + [AppendFailed(id, env)]));
      && rows != []
      && LeavesAs(Rows(Run(steps)), rows, Rebuilt(Rows(Run(steps)), d.name).value.(status := Broken, lastError := error, statusPosition := Newly(rows)))
  {
    DefinesValidName(d);
    hide Run, Rows, Rebuilt, Newest, LifecycleCriteria, ValidDefinition, ValidName, LeavesAs, Newly, Submission, Afterwards, LoadForProvision;
    hide Enabled, Apply;
    AttemptBegins(steps, id, d);
    var begun := steps + [BeginProvision(id, d)];
    AttemptEnds(begun, id, error);
    FailingCanAppend(Run(begun + [ProvisionFails(id, error)]), id, env);
    FreshFailure(begun + [ProvisionFails(id, error)], id, env, d.name, error);
  }

  lemma FreshFailure(steps: seq<Step>, id: nat, env: Envelope, name: string, error: string)
    requires Enabled(Run(steps), AppendFailed(id, env)) && ValidName(name) && !env.cancelled && |Rows(Run(steps))| + 2 <= MAX_INT64
    requires Run(steps).commands[id] == Failing(name, ReadNow(Rows(Run(steps)), LifecycleCriteria(name)), error) && error != ""
    ensures Rebuilt(Rows(Run(steps)), name).Ok?
    ensures var rows := Rows(Run(steps + [AppendFailed(id, env)]));
      && rows != []
      && LeavesAs(Rows(Run(steps)), rows, Rebuilt(Rows(Run(steps)), name).value.(status := Broken, lastError := error, statusPosition := Newly(rows)))
  {
    var s, step := Run(steps), AppendFailed(id, env);
    assert name != "";
    hide Run, Rows, Rebuilt, Newest, LifecycleCriteria, Serve, ServeAll, Submission, Apply, ValidName, ReplayShows, Newly, CCC.Inv, Ordered;
    FreshOutcomeIsAppended(s, step, name);
    RunOne(steps, step);
    AppendsNewest(s, step);
    FailureReportsRebuilt(steps, id, env);
    WholeLog(Rows(s));
    RowsOrdered(s);
    RebuiltName(Rows(s), name);
    BothShow(steps + [step], name, Rebuilt(Rows(s), name).value.(status := Broken, lastError := error, statusPosition := Newly(Rows(Run(steps + [step])))));
  }

  // ---- An activation that is overtaken ----

  // Refused for nothing but its age, an outcome conflicts.
  lemma OutcomeIsAcceptedOrConflicts(s: Admin, query: Query, read: Reading, save: Save)
    requires ObservableQuery(query) && SoundReading(Rows(s), read, query)
    requires save.checks == DistinctChecks([Observation(query, read.position)])
    requires !save.cancelled && Insertable(save.events, ServeAll(EMPTY, s.history).0.nextId)
    ensures var outcome := Serve(ServeAll(EMPTY, s.history).0, save).1; outcome.Saved? || outcome.Conflict?
  {
    hide DistinctChecks, Serve, ServeAll, Newest, CCC.Untouched, ObservableQuery, Insertable, Ordered, RenderableQuery, Passes;
    var obs := [Observation(query, read.position)];
    RowsOrdered(s);
    NewestIsValid(Rows(s), read.seen, query);
    assert Acceptable(obs);
    CCC.ChecksRender(obs);
    OutcomeIsDue(ServeAll(EMPTY, s.history).0, save);
  }

  lemma RunSkips(steps: seq<Step>, step: Step)
    requires !Enabled(Run(steps), step)
    ensures Run(steps + [step]) == Run(steps)
  {
    hide Enabled, Apply;
    assert (steps + [step])[..|steps + [step]| - 1] == steps;
  }

  ghost predicate ShowsActive(rows: Log, name: string) {
    Rebuilt(rows, name).Ok? && Rebuilt(rows, name).value.status == Active && Rebuilt(rows, name).value.lastError == ""
  }

  // What a context read earlier shows is there to be read as long as nothing touches it.
  lemma UntouchedIsReadable(steps: seq<Step>, read: Reading, name: string)
    requires name != "" && read.seen <= |Rows(Run(steps))| && Rebuilt(Rows(Run(steps))[..read.seen], name).Ok?
    requires CCC.Untouched(Rows(Run(steps)), read.seen, LifecycleCriteria(name))
    ensures Rebuilt(Rows(Run(steps)), name).Ok?
  {
    hide Run, Rows, Rebuilt, Kinds, Proper, AllRecorded, Ordered, Selected, Fold, CCC.Untouched, LifecycleCriteria, CCC.Inv;
    RowsOrdered(Run(steps));
    RunKeepsRecorded(steps);
    LifecyclesAreProper(steps, name);
    ContextIsReplayed(Rows(Run(steps)), read, name);
    RebuildAgreesInEveryRun(steps, name);
  }

  // The first append: accepted, it activates; refused, the command goes back to reading.
  lemma FirstAppend(steps: seq<Step>, id: nat, env: Envelope)
    requires id in Run(steps).commands && Run(steps).commands[id].Activating? && !env.cancelled && |Rows(Run(steps))| + 2 <= MAX_INT64
    ensures var s, t := Run(steps), Run(steps + [AppendActivated(id, env)]);
      var name := s.commands[id].name;
      && ValidName(name) && id in t.commands
      && if t.commands[id] == Ended then ShowsActive(Rows(t), name) && Rebuilt(Rows(s), name).Ok?
         else t.commands[id].Reloading? && t.commands[id].name == name && Rows(t) == Rows(s)
  {
    hide Run, Rows, Rebuilt, Newest, LifecycleCriteria, Serve, ServeAll, CCC.Untouched, ObservableQuery, Submission, SoundReading, ValidName, CCC.Inv;
    var s, step := Run(steps), AppendActivated(id, env);
    var name, read := s.commands[id].name, s.commands[id].read;
    ActivatingKnows(steps, id);
    RunOne(steps, step);
    SubmittedActivation(s, id, env);
    RowsOrdered(s);
    InsertsOne(s, Submission(s, step));
    ObservableLifecycle(name);
    OutcomeIsAcceptedOrConflicts(s, LifecycleCriteria(name), read, Submission(s, step));
    if Serve(ServeAll(EMPTY, s.history).0, Submission(s, step)).1.Saved? {
      AcceptedIsCurrent(s, Submission(s, step), name, read);
      NamedValidly(name);
      KnowsPrefix(s, read, name);
      UntouchedIsReadable(steps, read, name);
      ActivationReportsRebuilt(steps, id, env);
    } else {
      ServedRows(s, Submission(s, step), Apply(s, step).commands);
    }
  }

  lemma ActivatingKnows(steps: seq<Step>, id: nat)
    requires id in Run(steps).commands && Run(steps).commands[id].Activating?
    ensures var s := Run(steps);
      var name, read := s.commands[id].name, s.commands[id].read;
      && ValidName(name) && SoundReading(Rows(s), read, LifecycleCriteria(name))
      && read.seen <= |Rows(s)| && Rebuilt(Rows(s)[..read.seen], name).Ok?
  {
    RunKeepsInv(steps);
    hide Run, Rows, Rebuilt, Newest, LifecycleCriteria, Kinds, AllProper, ValidName;
    assert CommandInv(Rows(Run(steps)), Run(steps).commands[id]);
  }

  lemma KnowsPrefix(s: Admin, read: Reading, name: string)
    requires SoundReading(Rows(s), read, LifecycleCriteria(name))
    ensures read.seen <= |Rows(s)|
  {
  }

  lemma SubmittedActivation(s: Admin, id: nat, env: Envelope)
    requires Enabled(s, AppendActivated(id, env)) && !env.cancelled
    ensures var save := Submission(s, AppendActivated(id, env));
      && save.checks == DistinctChecks([Observation(LifecycleCriteria(s.commands[id].name), s.commands[id].read.position)])
      && !save.cancelled && |save.events| == 1 && save.events[0].parsed
  {
    hide DistinctChecks, LifecycleCriteria;
  }

  lemma InsertsOne(s: Admin, save: Save)
    requires |save.events| == 1 && save.events[0].parsed && |Rows(s)| + 2 <= MAX_INT64 && CCC.Inv(ServeAll(EMPTY, s.history).0)
    ensures Insertable(save.events, ServeAll(EMPTY, s.history).0.nextId)
  {
    hide ServeAll;
  }

  // Reading again: the command is done, the boundary being active already or unreadable, or it
  // goes on from the boundary as it is now.
  lemma ReadAgain(steps: seq<Step>, id: nat)
    requires id in Run(steps).commands && Run(steps).commands[id].Reloading?
    ensures var s, t := Run(steps), Run(steps + [Reload(id)]);
      var name := s.commands[id].name;
      && id in t.commands && Rows(t) == Rows(s)
      && if t.commands[id] == Ended then Rebuilt(Rows(s), name).Err? || Rebuilt(Rows(s), name).value.status == Active
         else t.commands[id].Activating? && t.commands[id].name == name && t.commands[id].read == ReadNow(Rows(s), LifecycleCriteria(name))
  {
    hide Run, Rows, Rebuilt, Newest, LifecycleCriteria, Submission, Afterwards;
    RunOne(steps, Reload(id));
    SameRows(Run(steps), Run(steps + [Reload(id)]));
  }

  lemma EndedIsOver(steps: seq<Step>, id: nat, env: Envelope)
    requires id in Run(steps).commands && Run(steps).commands[id] == Ended
    ensures Run(steps + [Reload(id)]) == Run(steps) && Run(steps + [AppendActivated(id, env)]) == Run(steps)
  {
    RunSkips(steps, Reload(id));
    RunSkips(steps, AppendActivated(id, env));
  }

  lemma ActiveHasNoError(steps: seq<Step>, name: string)
    requires name != "" && Rebuilt(Rows(Run(steps)), name).Ok? && Rebuilt(Rows(Run(steps)), name).value.status == Active
    ensures ShowsActive(Rows(Run(steps)), name)
  {
    hide Run, Rows, Rebuilt, ReadOff, Ordered, CCC.Inv, Selected;
    RowsOrdered(Run(steps));
    RebuildReadsOff(Rows(Run(steps)), name);
    ReadOffActive(Rebuilt(Rows(Run(steps)), name).value, Selected(Rows(Run(steps)), Concerning(name)));
  }

  lemma ReadOffActive(b: Boundary, rows: Log)
    requires ReadOff(b, rows) && b.status == Active
    ensures b.lastError == ""
  {
  }

  // Once provisioning has succeeded, whatever has happened to the boundary since its context was
  // read, the appends of the command leave it active; unless it can no longer be read at all.
  lemma {:induction false} ActivationGetsThrough(steps: seq<Step>, id: nat, env: Envelope)
    requires id in Run(steps).commands && Run(steps).commands[id].Activating? && !env.cancelled && |Rows(Run(steps))| + 2 <= MAX_INT64
    ensures var s, t := Run(steps), Run(steps + [AppendActivated(id, env)] + [Reload(id)] + [AppendActivated(id, env)]);
      ShowsActive(Rows(t), s.commands[id].name) <==> Rebuilt(Rows(s), s.commands[id].name).Ok?
  {
    hide Run, Rows, Rebuilt, Newest, LifecycleCriteria, Enabled, ShowsActive, ValidName, LeavesAs, Newly;
    var name := Run(steps).commands[id].name;
    var one := steps + [AppendActivated(id, env)];
    var two := one + [Reload(id)];
    FirstAppend(steps, id, env);
    assert name != "" by {
      NamedValidly(name);
    }
    if Run(one).commands[id] == Ended {
      EndedIsOver(one, id, env);
      EndedIsOver(two, id, env);
    } else {
      ReadAgain(one, id);
      if Run(two).commands[id] == Ended {
        EndedIsOver(two, id, env);
        if Rebuilt(Rows(Run(two)), name).Ok? {
          ActiveHasNoError(two, name);
        }
        ShowsActiveMeans(Rows(Run(two)), name);
      } else {
        assert Enabled(Run(two), AppendActivated(id, env)) by {
          ActivatingCanAppend(Run(two), id, env);
        }
        FreshActivation(two, id, env, name);
        LeavesActive(Rows(Run(two)), Rows(Run(two + [AppendActivated(id, env)])), Rebuilt(Rows(Run(two)), name).value, name);
      }
    }
  }

  lemma NamedValidly(name: string)
    requires ValidName(name)
    ensures name != ""
  {
  }

  lemma ShowsActiveMeans(rows: Log, name: string)
    ensures ShowsActive(rows, name) ==> Rebuilt(rows, name).Ok?
  {
  }

  lemma LeavesActive(before: Log, rows: Log, b: Boundary, name: string)
    requires rows != [] && LeavesAs(before, rows, b.(status := Active, lastError := "", statusPosition := Newly(rows))) && b.name == name
    ensures ShowsActive(rows, name)
  {
    hide Rebuilt, ReplayShows;
  }
}
