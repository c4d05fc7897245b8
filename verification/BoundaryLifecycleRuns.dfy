// What every run of create and provision commands keeps: each boundary's lifecycle is proper,
// and an activation is appended at most twice.
module BoundaryLifecycleRuns {
  import opened Common
  import opened Ordering
  import opened Tags
  import opened EventLog
  import opened ConsistencyQueries
  import opened SqliteStore
  import CCC = CommandContextConsistency
  import opened EventReads
  import opened BoundaryCatalog
  import opened BoundaryRebuild
  import opened BoundaryLifecycle

  // ---- The invariant ----

  ghost predicate SoundReading(rows: Log, read: Reading, query: Query) {
    read.seen <= |rows| && read.position == Newest(rows[..read.seen], query)
  }

  // What a command knows of its boundary's lifecycle as it was when the context was read.
  ghost predicate CommandInv(rows: Log, command: Command) {
    match command
    case Creating(d, read) =>
      && ValidDefinition(d) && SoundReading(rows, read, DefinitionQuery(d.name))
      && DefinitionKind !in Kinds(rows[..read.seen], d.name)
    case Attempting(name, read, status) =>
      && ValidName(name) && SoundReading(rows, read, LifecycleCriteria(name)) && status != Active
      && Rebuilt(rows[..read.seen], name).Ok?
      && Kinds(rows[..read.seen], name) == if status == Broken then [DefinitionKind, FailureKind] else [DefinitionKind]
    case Activating(name, read, attempts) =>
      && ValidName(name) && SoundReading(rows, read, LifecycleCriteria(name)) && attempts <= 1
      && Rebuilt(rows[..read.seen], name).Ok?
      && (|| Kinds(rows[..read.seen], name) == [DefinitionKind, FailureKind]
          || (attempts == 0 && Kinds(rows[..read.seen], name) == [DefinitionKind]))
    case Reloading(name, attempts) =>
      && ValidName(name) && 1 <= attempts <= 2 && |Kinds(rows, name)| >= 2
      && (attempts == 2 ==> ActivationKind in Kinds(rows, name))
    case Failing(name, read, _) =>
      && ValidName(name) && SoundReading(rows, read, LifecycleCriteria(name))
      && Rebuilt(rows[..read.seen], name).Ok? && Kinds(rows[..read.seen], name) == [DefinitionKind]
    case Ended => true
  }

  ghost predicate AllProper(rows: Log) {
    forall name :: name != "" ==> Proper(Kinds(rows, name))
  }

  ghost predicate Inv(s: Admin) {
    AllProper(Rows(s)) && forall id :: id in s.commands ==> CommandInv(Rows(s), s.commands[id])
  }

  lemma KindsGrow(rows: Log, more: Log, name: string)
    requires rows <= more
    ensures Kinds(rows, name) <= Kinds(more, name)
  {
    KindsAppend(rows, more[|rows|..], name);
    assert rows + more[|rows|..] == more;
  }

  // A command's knowledge outlives whatever is appended meanwhile.
  lemma CommandInvGrows(rows: Log, more: Log, command: Command)
    requires rows <= more && CommandInv(rows, command)
    ensures CommandInv(more, command)
  {
    hide Kinds, Newest, LifecycleCriteria, DefinitionQuery, Rebuilt;
    if command.Reloading? {
      KindsGrow(rows, more, command.name);
      assert forall k :: k in Kinds(rows, command.name) ==> k in Kinds(more, command.name);
    } else if !command.Ended? {
      assert more[..command.read.seen] == rows[..command.read.seen];
    }
  }

  lemma RowsOrdered(s: Admin)
    ensures Ordered(Rows(s)) && CCC.Inv(ServeAll(EMPTY, s.history).0)
  {
    CCC.RunKeepsInv(s.history);
  }

  // ---- Reading a context ----

  lemma {:induction false} LoadedForCreate(rows: Log, d: Definition)
    requires Ordered(rows) && AllProper(rows) && ValidDefinition(d)
    ensures CommandInv(rows, LoadForCreate(rows, d))
  {
    assert rows[..|rows|] == rows;
    hide Kinds, Newest, OfType, NewestRow, DefinitionQuery;
    assert Proper(Kinds(rows, d.name));
    FindsByKind(rows, d.name);
  }

  lemma {:induction false} LoadedForProvision(rows: Log, name: string)
    requires Ordered(rows) && AllProper(rows) && ValidName(name)
    ensures CommandInv(rows, LoadForProvision(rows, name))
  {
    assert rows[..|rows|] == rows;
    hide Kinds, Newest, Rebuilt, LifecycleCriteria;
    assert Proper(Kinds(rows, name));
    if Rebuilt(rows, name).Ok? {
      StatusTellsKinds(rows, name);
    }
  }

  // A reload that goes on has found a failure on record and no activation.
  lemma Reloaded(rows: Log, name: string, attempts: nat)
    requires Ordered(rows) && AllProper(rows) && CommandInv(rows, Reloading(name, attempts))
    ensures var loaded := LoadForProvision(rows, name);
      loaded.Ended? || (loaded.Attempting? && loaded.name == name && attempts == 1 && CommandInv(rows, Activating(name, loaded.read, attempts)))
  {
    assert rows[..|rows|] == rows;
    hide Kinds, Newest, Rebuilt, LifecycleCriteria;
    assert Proper(Kinds(rows, name));
    if Rebuilt(rows, name).Ok? {
      StatusTellsKinds(rows, name);
    }
  }

  // ---- Appending under a check ----

  lemma ObservableType(name: string, kind: string)
    requires ValidCriterion(TypeCriterion(name, kind))
    ensures ObservableCriterion(TypeCriterion(name, kind))
  {
    var c := TypeCriterion(name, kind);
    assert c[0].key != c[1].key by {
      assert "boundary"[0] != "__eventType"[0];
    }
  }

  lemma ObservableLifecycle(name: string)
    requires ValidName(name)
    ensures ObservableQuery(LifecycleCriteria(name)) && ObservableQuery(DefinitionQuery(name))
  {
    hide ValidCriterion, ObservableCriterion;
    ValidNameReadable(name);
    var q := LifecycleCriteria(name);
    assert q[0] in q && q[1] in q && q[2] in q;
    ObservableType(name, CREATED);
    ObservableType(name, ACTIVATED);
    ObservableType(name, FAILED);
  }

  lemma NewestIsValid(rows: Log, seen: nat, query: Query)
    requires CCC.Numbered(rows) && seen <= |rows|
    ensures ValidPosition(Newest(rows[..seen], query))
  {
    NewestIsNewest(rows[..seen], Matching(query));
  }

  // An append that is accepted was not overtaken; one that conflicts was; and unless it is
  // cancelled or ids run out, one that was not overtaken is accepted.
  lemma {:induction false} AppendedExactlyWhenCurrent(s: Admin, query: Query, read: Reading, save: Save)
    requires ObservableQuery(query) && SoundReading(Rows(s), read, query)
    requires save.checks == DistinctChecks([Observation(query, read.position)])
    ensures var outcome := Serve(ServeAll(EMPTY, s.history).0, save).1;
      && (outcome.Saved? ==> CCC.Untouched(Rows(s), read.seen, query))
      && (outcome.Conflict? ==> !CCC.Untouched(Rows(s), read.seen, query))
      && (!save.cancelled && Insertable(save.events, ServeAll(EMPTY, s.history).0.nextId) ==>
        (outcome.Saved? <==> CCC.Untouched(Rows(s), read.seen, query)))
  {
    hide DistinctChecks, Serve, ServeAll, Newest, CCC.Untouched, ObservableQuery, Insertable, Ordered;
    var obs, seen := [Observation(query, read.position)], [read.seen];
    RowsOrdered(s);
    NewestIsValid(Rows(s), read.seen, query);
    assert Acceptable(obs);
    CCC.ConflictsOnlyWhenChanged(s.history, obs, seen, save);
    if !save.cancelled && Insertable(save.events, ServeAll(EMPTY, s.history).0.nextId) {
      CCC.CommitsExactlyWhenUnchanged(s.history, obs, seen, save);
    }
  }

  lemma {:induction false} SomeKind(rows: Log, name: string, i: nat)
    requires i < |rows| && Concerns(rows[i].doc, name)
    ensures KindOf(rows[i].doc) in Kinds(rows, name)
  {
    hide Concerns, KindOf;
    var last := |rows| - 1;
    if i < last {
      SomeKind(rows[..last], name, i);
    }
  }

  lemma {:induction false} KindHasRow(rows: Log, name: string, kind: Kind) returns (i: nat)
    requires kind in Kinds(rows, name)
    ensures i < |rows| && Concerns(rows[i].doc, name) && KindOf(rows[i].doc) == kind
  {
    var last := |rows| - 1;
    if Concerns(rows[last].doc, name) && KindOf(rows[last].doc) == kind {
      i := last;
    } else {
      i := KindHasRow(rows[..last], name, kind);
    }
  }

  lemma LaterKinds(rows: Log, seen: nat, name: string)
    requires seen <= |rows|
    ensures Kinds(rows, name) == Kinds(rows[..seen], name) + Kinds(rows[seen..], name)
  {
    hide Kinds;
    KindsAppend(rows[..seen], rows[seen..], name);
    assert rows[..seen] + rows[seen..] == rows;
  }

  lemma NoKindsExactlyWhen(rows: Log, name: string)
    ensures Kinds(rows, name) == [] <==> forall i :: 0 <= i < |rows| ==> !Concerns(rows[i].doc, name)
  {
    hide Kinds, Concerns, KindOf;
    if i :| 0 <= i < |rows| && Concerns(rows[i].doc, name) {
      SomeKind(rows, name, i);
    } else {
      NoKinds(rows, name);
    }
  }

  lemma UntouchedMeans(rows: Log, seen: nat, name: string)
    requires seen <= |rows| && name != ""
    ensures CCC.Untouched(rows, seen, LifecycleCriteria(name)) <==>
      forall i :: 0 <= i < |rows[seen..]| ==> !Concerns(rows[seen..][i].doc, name)
  {
    hide QueryHolds, Concerns, LifecycleCriteria;
    forall j | seen <= j < |rows| ensures QueryHolds(rows[j].doc, LifecycleCriteria(name)) <==> Concerns(rows[j].doc, name) {
      LifecycleCriteriaMean(rows[j].doc, name);
    }
    assert forall j :: seen <= j < |rows| ==> rows[seen..][j - seen] == rows[j];
  }

  // The lifecycle query is untouched exactly when the lifecycle is what it was.
  lemma UntouchedKeepsKinds(rows: Log, seen: nat, name: string)
    requires seen <= |rows| && name != ""
    ensures CCC.Untouched(rows, seen, LifecycleCriteria(name)) <==> Kinds(rows, name) == Kinds(rows[..seen], name)
    ensures Kinds(rows[..seen], name) <= Kinds(rows, name)
  {
    hide Kinds, CCC.Untouched, LifecycleCriteria, Concerns;
    LaterKinds(rows, seen, name);
    NoKindsExactlyWhen(rows[seen..], name);
    UntouchedMeans(rows, seen, name);
  }

  lemma DefinitionQueryMeans(doc: Document, name: string)
    requires name != ""
    ensures QueryHolds(doc, DefinitionQuery(name)) <==> Concerns(doc, name) && KindOf(doc) == DefinitionKind
  {
    TypeCriterionMeans(doc, name, CREATED);
    hide CriterionHolds;
    assert DefinitionQuery(name)[0] in DefinitionQuery(name);
  }

  // With the definition query untouched there is still no definition.
  lemma UntouchedKeepsUndefined(rows: Log, seen: nat, name: string)
    requires seen <= |rows| && name != "" && DefinitionKind !in Kinds(rows[..seen], name)
    requires CCC.Untouched(rows, seen, DefinitionQuery(name))
    ensures DefinitionKind !in Kinds(rows, name)
  {
    var later := rows[seen..];
    LaterKinds(rows, seen, name);
    hide Kinds, QueryHolds, Concerns, DefinitionQuery, KindOf;
    if DefinitionKind in Kinds(later, name) {
      var j := KindHasRow(later, name, DefinitionKind);
      assert later[j] == rows[seen + j];
      DefinitionQueryMeans(rows[seen + j].doc, name);
    }
  }

  // ---- What a save adds ----

  lemma ServedRows(s: Admin, save: Save, commands: map<nat, Command>)
    ensures var state := ServeAll(EMPTY, s.history).0;
      var more := Rows(Admin(s.history + [save], commands));
      && Rows(s) <= more
      && (if Serve(state, save).1.Saved?
          then more == Rows(s) + RowsOf(save.events, state.nextId, state.nextId + |save.events| - 1, save.created)
          else more == Rows(s))
  {
    assert (s.history + [save])[..|s.history|] == s.history;
    hide FirstRejection, RowsOf, Insertable;
  }

  lemma StoredType(e: PreparedEvent, globalId: int, commit: int, created: string)
    ensures EventType(Positioned(e, globalId, commit, created)) == e.kind
    ensures TextAt(Positioned(e, globalId, commit, created), "boundary") == TextAt(e.data, "boundary")
  {
  }

  lemma StoredKind(save: Save, e: PreparedEvent, firstId: int, commit: int, name: string, other: string)
    requires save.events == [e] && e.kind in {CREATED, ACTIVATED, FAILED} && TextAt(e.data, "boundary") == Some(name) && other != ""
    ensures Kinds(RowsOf(save.events, firstId, commit, save.created), other) == if other == name then [KindOfType(e.kind)] else []
  {
    var rows := RowsOf(save.events, firstId, commit, save.created);
    StoredType(e, firstId, commit, save.created);
    hide Positioned, EventType, TextAt;
    assert rows == [rows[0]];
    KindsOne(rows[0], other);
  }

  function KindOfType(kind: string): Kind {
    if kind == CREATED then DefinitionKind else if kind == ACTIVATED then ActivationKind else FailureKind
  }

  // The kinds after an append that was accepted.
  ghost predicate Extends(more: Log, rows: Log, name: string, kind: Kind) {
    forall other :: other != "" ==> Kinds(more, other) == Kinds(rows, other) + (if other == name then [kind] else [])
  }

  lemma SavedExtends(s: Admin, save: Save, e: PreparedEvent, name: string, commands: map<nat, Command>)
    requires save.events == [e] && e.kind in {CREATED, ACTIVATED, FAILED} && TextAt(e.data, "boundary") == Some(name)
    requires Serve(ServeAll(EMPTY, s.history).0, save).1.Saved?
    ensures Extends(Rows(Admin(s.history + [save], commands)), Rows(s), name, KindOfType(e.kind))
  {
    var state, more := ServeAll(EMPTY, s.history).0, Rows(Admin(s.history + [save], commands));
    ServedRows(s, save, commands);
    hide Serve, ServeAll, Kinds, RowsOf, Rows, TextAt;
    var added := RowsOf(save.events, state.nextId, state.nextId + |save.events| - 1, save.created);
    forall other | other != "" ensures Kinds(more, other) == Kinds(Rows(s), other) + (if other == name then [KindOfType(e.kind)] else []) {
      StoredKind(save, e, state.nextId, state.nextId + |save.events| - 1, name, other);
      KindsAppend(Rows(s), added, other);
    }
  }

  lemma OthersAddNothing(s: Admin, save: Save, commands: map<nat, Command>, name: string)
    requires IsOther(save) && name != ""
    ensures Kinds(Rows(Admin(s.history + [save], commands)), name) == Kinds(Rows(s), name)
  {
    var state := ServeAll(EMPTY, s.history).0;
    ServedRows(s, save, commands);
    hide Serve, ServeAll, Kinds, Rows, Positioned, TextAt, EventType;
    if Rows(Admin(s.history + [save], commands)) != Rows(s) {
      var added := RowsOf(save.events, state.nextId, state.nextId + |save.events| - 1, save.created);
      forall i | 0 <= i < |added| ensures !Concerns(added[i].doc, name) {
        StoredType(save.events[i], state.nextId + i, state.nextId + |save.events| - 1, save.created);
        assert save.events[i] in save.events;
      }
      NoKinds(added, name);
      KindsAppend(Rows(s), added, name);
    }
  }

  lemma OtherCommandsKeep(s: Admin, t: Admin)
    requires Inv(s) && Rows(s) <= Rows(t)
    ensures forall id :: id in s.commands ==> CommandInv(Rows(t), s.commands[id])
  {
    hide CommandInv, Rows, AllProper;
    forall id | id in s.commands ensures CommandInv(Rows(t), s.commands[id]) {
      CommandInvGrows(Rows(s), Rows(t), s.commands[id]);
    }
  }

  // ---- Every step keeps the invariant ----

  lemma CreatedBoundary(d: Definition, rendered: string)
    ensures TextAt(CreatedData(d, rendered), "boundary") == Some(d.name)
  {
  }

  lemma OutcomeBoundary(name: string, error: string)
    ensures TextAt(ActivatedData(name), "boundary") == Some(name)
    ensures TextAt(FailedData(name, error), "boundary") == Some(name)
  {
  }

  lemma ExtendedProper(more: Log, rows: Log, name: string, kind: Kind)
    requires AllProper(rows) && Extends(more, rows, name, kind) && Proper(Kinds(rows, name) + [kind])
    ensures AllProper(more)
  {
    hide Kinds, Proper;
    forall other | other != "" ensures Proper(Kinds(more, other)) {
      assert Proper(Kinds(rows, other));
      assert Kinds(rows, other) + [] == Kinds(rows, other);
    }
  }

  // An accepted definition is its boundary's first event.
  lemma {:induction false} CreatedKeepsProper(s: Admin, id: nat, env: Envelope, rendered: string)
    requires Inv(s) && Enabled(s, AppendCreated(id, env, rendered))
    ensures AllProper(Rows(Apply(s, AppendCreated(id, env, rendered))))
  {
    var step := AppendCreated(id, env, rendered);
    var d, read := s.commands[id].definition, s.commands[id].read;
    var save, t := Submission(s, step), Apply(s, step);
    hide Serve, ServeAll, Rows, Kinds, TextAt, CreatedData, DefinitionQuery, CCC.Untouched, DistinctChecks, Newest, Insertable, Afterwards;
    ObservableLifecycle(d.name);
    AppendedExactlyWhenCurrent(s, DefinitionQuery(d.name), read, save);
    ServedRows(s, save, t.commands);
    CreatedBoundary(d, rendered);
    if Serve(ServeAll(EMPTY, s.history).0, save).1.Saved? {
      UntouchedKeepsUndefined(Rows(s), read.seen, d.name);
      assert Proper(Kinds(Rows(s), d.name));
      assert Kinds(Rows(s), d.name) == [];
      SavedExtends(s, save, save.events[0], d.name, t.commands);
      assert Proper([] + [DefinitionKind]);
      ExtendedProper(Rows(t), Rows(s), d.name, DefinitionKind);
    }
  }

  // The outcomes that may follow.
  lemma ProperNext(kinds: seq<Kind>, kind: Kind)
    requires kinds == [DefinitionKind] || (kinds == [DefinitionKind, FailureKind] && kind == ActivationKind)
    requires kind != DefinitionKind
    ensures Proper(kinds + [kind])
  {
  }

  lemma ProperLonger(before: seq<Kind>, kinds: seq<Kind>)
    requires before == [DefinitionKind] || before == [DefinitionKind, FailureKind]
    requires Proper(kinds) && before <= kinds && kinds != before
    ensures |kinds| >= 2 && (before == [DefinitionKind, FailureKind] ==> ActivationKind in kinds)
  {
  }

  lemma OutcomeExtends(s: Admin, save: Save, e: PreparedEvent, name: string, read: Reading, commands: map<nat, Command>)
    requires AllProper(Rows(s)) && ValidName(name) && SoundReading(Rows(s), read, LifecycleCriteria(name))
    requires save.checks == DistinctChecks([Observation(LifecycleCriteria(name), read.position)])
    requires save.events == [e] && e.kind in {CREATED, ACTIVATED, FAILED} && TextAt(e.data, "boundary") == Some(name)
    requires Proper(Kinds(Rows(s)[..read.seen], name) + [KindOfType(e.kind)])
    ensures AllProper(Rows(Admin(s.history + [save], commands)))
  {
    ObservableLifecycle(name);
    AppendedExactlyWhenCurrent(s, LifecycleCriteria(name), read, save);
    ServedRows(s, save, commands);
    hide Serve, ServeAll, Rows, Kinds, Proper, TextAt, LifecycleCriteria, CCC.Untouched, DistinctChecks;
    if Serve(ServeAll(EMPTY, s.history).0, save).1.Saved? {
      UntouchedKeepsKinds(Rows(s), read.seen, name);
      SavedExtends(s, save, e, name, commands);
      ExtendedProper(Rows(Admin(s.history + [save], commands)), Rows(s), name, KindOfType(e.kind));
    }
  }

  // An accepted outcome follows the lifecycle its command read.
  lemma {:induction false} ActivatedKeepsProper(s: Admin, id: nat, env: Envelope)
    requires Inv(s) && Enabled(s, AppendActivated(id, env))
    ensures AllProper(Rows(Apply(s, AppendActivated(id, env))))
  {
    var step := AppendActivated(id, env);
    var name, read := s.commands[id].name, s.commands[id].read;
    var save, t := Submission(s, step), Apply(s, step);
    hide Rows, Kinds, Proper, TextAt, LifecycleCriteria, DistinctChecks, ActivatedData, SoundReading, Afterwards;
    assert CommandInv(Rows(s), s.commands[id]);
    ProperNext(Kinds(Rows(s)[..read.seen], name), ActivationKind);
    OutcomeBoundary(name, "");
    OutcomeExtends(s, save, save.events[0], name, read, t.commands);
  }

  lemma {:induction false} FailedKeepsProper(s: Admin, id: nat, env: Envelope)
    requires Inv(s) && Enabled(s, AppendFailed(id, env))
    ensures AllProper(Rows(Apply(s, AppendFailed(id, env))))
  {
    var step := AppendFailed(id, env);
    var name, read := s.commands[id].name, s.commands[id].read;
    var save, t := Submission(s, step), Apply(s, step);
    hide Rows, Kinds, Proper, TextAt, LifecycleCriteria, DistinctChecks, FailedData, SoundReading, Afterwards;
    assert CommandInv(Rows(s), s.commands[id]);
    ProperNext(Kinds(Rows(s)[..read.seen], name), FailureKind);
    OutcomeBoundary(name, s.commands[id].error);
    OutcomeExtends(s, save, save.events[0], name, read, t.commands);
  }

  // A conflicting activation was overtaken by another outcome.
  lemma AfterwardsKeeps(s: Admin, step: Step)
    requires Inv(s) && Enabled(s, step) && Appends(step)
    ensures CommandInv(Rows(s), Afterwards(s, step))
  {
    if Afterwards(s, step).Reloading? {
      var name, read := s.commands[step.id].name, s.commands[step.id].read;
      Overtaken(s, name, read, Submission(s, step), s.commands[step.id].attempts);
    }
  }

  lemma {:induction false} Overtaken(s: Admin, name: string, read: Reading, save: Save, attempts: nat)
    requires AllProper(Rows(s)) && CommandInv(Rows(s), Activating(name, read, attempts))
    requires save.checks == DistinctChecks([Observation(LifecycleCriteria(name), read.position)])
    requires Serve(ServeAll(EMPTY, s.history).0, save).1.Conflict?
    ensures CommandInv(Rows(s), Reloading(name, attempts + 1))
  {
    hide Serve, ServeAll, Rows, Kinds, Proper, LifecycleCriteria, CCC.Untouched, DistinctChecks, SoundReading;
    ObservableLifecycle(name);
    AppendedExactlyWhenCurrent(s, LifecycleCriteria(name), read, save);
    assert Proper(Kinds(Rows(s), name));
    TouchedIsLonger(Rows(s), name, read, attempts);
  }

  lemma TouchedIsLonger(rows: Log, name: string, read: Reading, attempts: nat)
    requires CommandInv(rows, Activating(name, read, attempts)) && Proper(Kinds(rows, name))
    requires !CCC.Untouched(rows, read.seen, LifecycleCriteria(name))
    ensures CommandInv(rows, Reloading(name, attempts + 1))
  {
    hide Kinds, Proper, LifecycleCriteria, CCC.Untouched, Newest;
    UntouchedKeepsKinds(rows, read.seen, name);
    ProperLonger(Kinds(rows[..read.seen], name), Kinds(rows, name));
  }

  lemma AppendKeepsInv(s: Admin, step: Step)
    requires Inv(s) && Enabled(s, step) && Appends(step)
    ensures Inv(Apply(s, step))
  {
    var t := Apply(s, step);
    ServedRows(s, Submission(s, step), t.commands);
    AfterwardsKeeps(s, step);
    match step {
      case AppendCreated(id, env, rendered) => CreatedKeepsProper(s, id, env, rendered);
      case AppendActivated(id, env) => ActivatedKeepsProper(s, id, env);
      case AppendFailed(id, env) => FailedKeepsProper(s, id, env);
    }
    hide Serve, ServeAll, Rows, Submission, Afterwards, CommandInv, AllProper;
    OtherCommandsKeep(s, t);
    CommandInvGrows(Rows(s), Rows(t), Afterwards(s, step));
  }

  lemma SaveOtherKeepsInv(s: Admin, save: Save)
    requires Inv(s) && IsOther(save)
    ensures Inv(Admin(s.history + [save], s.commands))
  {
    var t := Admin(s.history + [save], s.commands);
    hide Serve, ServeAll, Rows, CommandInv, Kinds, Proper, IsOther;
    ServedRows(s, save, t.commands);
    OtherCommandsKeep(s, t);
    forall name | name != "" ensures Proper(Kinds(Rows(t), name)) {
      OthersAddNothing(s, save, t.commands, name);
      assert Proper(Kinds(Rows(s), name));
    }
  }

  lemma CommandKeepsInv(s: Admin, id: nat, command: Command)
    requires Inv(s) && CommandInv(Rows(s), command)
    ensures Inv(With(s, id, command))
  {
    assert Rows(With(s, id, command)) == Rows(s);
    hide Rows, CommandInv, AllProper;
  }

  // The command a step that only reads leads to.
  ghost function ReadCommand(s: Admin, step: Step): Command
    requires Enabled(s, step) && !Appends(step) && !step.SaveOther?
  {
    Apply(s, step).commands[step.id]
  }

  lemma ProvisionedKeeps(rows: Log, name: string, read: Reading, status: BoundaryStatus, error: string)
    requires CommandInv(rows, Attempting(name, read, status))
    ensures CommandInv(rows, Activating(name, read, 0))
    ensures status != Broken ==> CommandInv(rows, Failing(name, read, error))
  {
    hide Kinds, SoundReading;
  }

  lemma ReadCommandKeeps(s: Admin, step: Step)
    requires Inv(s) && Enabled(s, step) && !Appends(step) && !step.SaveOther?
    ensures CommandInv(Rows(s), ReadCommand(s, step))
  {
    RowsOrdered(s);
    hide Rows, AllProper, LoadForCreate, LoadForProvision;
    assert !step.BeginCreate? && !step.BeginProvision? ==> CommandInv(Rows(s), s.commands[step.id]);
    if step.BeginCreate? {
      LoadedForCreate(Rows(s), step.definition);
    } else if step.BeginProvision? {
      LoadedForProvision(Rows(s), step.definition.name);
    } else {
      var command := s.commands[step.id];
      if step.Reload? {
        Reloaded(Rows(s), command.name, command.attempts);
      } else {
        hide CommandInv;
        ProvisionedKeeps(Rows(s), command.name, command.read, command.status, if step.ProvisionFails? then step.error else "");
        NothingToKeep(Rows(s));
      }
    }
  }

  lemma NothingToKeep(rows: Log)
    ensures CommandInv(rows, Ended)
  {
  }

  lemma ReadKeepsInv(s: Admin, step: Step)
    requires Inv(s) && Enabled(s, step) && !Appends(step) && !step.SaveOther?
    ensures Inv(Apply(s, step))
  {
    ReadCommandKeeps(s, step);
    hide Inv, CommandInv, Rows, LoadForCreate, LoadForProvision;
    CommandKeepsInv(s, step.id, ReadCommand(s, step));
  }

  lemma StepKeepsInv(s: Admin, step: Step)
    requires Inv(s) && Enabled(s, step)
    ensures Inv(Apply(s, step))
  {
    if Appends(step) {
      hide *;
      AppendKeepsInv(s, step);
    } else if step.SaveOther? {
      hide Inv;
      SaveOtherKeepsInv(s, step.save);
    } else {
      hide *;
      ReadKeepsInv(s, step);
    }
  }

  lemma {:induction false} RunKeepsInv(steps: seq<Step>)
    ensures Inv(Run(steps))
  {
    if steps == [] {
      NothingYet();
    } else {
      var s, step := Run(steps[..|steps| - 1]), steps[|steps| - 1];
      RunKeepsInv(steps[..|steps| - 1]);
      if Enabled(s, step) {
        StepKeepsInv(s, step);
      }
    }
  }

  lemma NothingYet()
    ensures Inv(INITIAL)
  {
    forall name ensures Kinds(Rows(INITIAL), name) == [] {
      NoKinds(Rows(INITIAL), name);
    }
  }

  // In every run from an empty admin log, with commands and unrelated saves interleaved in any
  // way and any of them rejected, each boundary's events are its definition, then at most one
  // failure, then at most one activation.
  lemma {:induction false} LifecyclesAreProper(steps: seq<Step>, name: string)
    requires name != ""
    ensures Proper(Kinds(Rows(Run(steps)), name))
  {
    RunKeepsInv(steps);
  }

  // The activation loop appends at most twice: a command that has just been refused a second
  // time finds the boundary active when it looks again.
  lemma {:induction false} AtMostTwoActivationAttempts(steps: seq<Step>, id: nat)
    requires id in Run(steps).commands
    ensures var command := Run(steps).commands[id];
      && (command.Activating? ==> command.attempts <= 1)
      && (command.Reloading? ==> command.attempts <= 2)
      && (command.Reloading? && command.attempts == 2 ==> Apply(Run(steps), Reload(id)).commands[id] == Ended)
  {
    var s := Run(steps);
    RunKeepsInv(steps);
    RowsOrdered(s);
    hide Run, Rows, ServeAll, AllProper;
    assert CommandInv(Rows(s), s.commands[id]);
    if s.commands[id].Reloading? {
      Reloaded(Rows(s), s.commands[id].name, s.commands[id].attempts);
    }
  }
}
