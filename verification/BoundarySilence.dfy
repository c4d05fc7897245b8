// A provisioning failure recorded without a reason
// (admin/slices/boundary_provisioning/command_handler.go) ends its boundary: from then on nobody
// can read it and no command activates it. Such a run exists.
module BoundarySilence {
  import opened Common
  import opened Ordering
  import opened Tags
  import opened EventLog
  import opened ConsistencyQueries
  import opened SqliteStore
  import CCC = CommandContextConsistency
  import opened EventReads
  import opened BoundaryCatalog
  import opened BoundaryRebuild
  import opened BoundaryLifecycle
  import opened BoundaryLifecycleRuns
  import opened BoundaryAgreement
  import opened BoundaryReports
  import opened BoundaryProvisioning

  predicate IsSilent(doc: Document) {
    Decode(doc).Failed? && Decode(doc).error == ""
  }

  // A failure of the boundary is on record without a reason.
  ghost predicate Silenced(rows: Log, name: string) {
    exists s :: s in Selected(rows, Concerning(name)) && IsSilent(s.doc)
  }

  lemma SilencedStays(rows: Log, more: Log, name: string)
    requires rows <= more && Silenced(rows, name)
    ensures Silenced(more, name)
  {
    SelectedAppend(rows, more[|rows|..], Concerning(name));
    assert rows + more[|rows|..] == more;
    hide Selected, IsSilent;
    var s :| s in Selected(rows, Concerning(name)) && IsSilent(s.doc);
    assert s in Selected(more, Concerning(name));
  }

  // ---- A silenced boundary cannot be read ----

  lemma SilencedIsUnreadable(rows: Log, name: string)
    requires Ordered(rows) && name != "" && AllRecorded(rows) && Proper(Kinds(rows, name)) && Silenced(rows, name)
    ensures ReplayShows(rows, name) == Unreadable && Rebuilt(rows, name) == Err(Internal)
  {
    var own := Selected(rows, Concerning(name));
    SelectedIndex(rows, Concerning(name));
    assert forall r :: r in own ==> IsLifecycle(r.doc) && WellRecorded(r.doc);
    hide Kinds, Proper, Decode, Rebuilt, Selected, Ordered, AllRecorded, IsLifecycle, WellRecorded, Fold, Replayable, History;
    ProperIsDefinedOnce(rows, name);
    ReplaysUnlessSilent(own, name);
    IsHistory(rows, name);
    ReplaysExactlyWhen(own, name);
    AgreeOnProper(rows, name);
    RebuiltFailsInternally(rows, name);
    RebuiltErrors(rows, name);
  }

  lemma RebuiltErrors(rows: Log, name: string)
    ensures Rebuilt(rows, name).Err? ==> Rebuilt(rows, name).status in {FailedPrecondition, Internal}
  {
    hide Fold, Relevant, NewestRow;
  }

  // ---- And is never activated ----

  ghost predicate SilencedInactive(rows: Log) {
    forall name :: name != "" && Silenced(rows, name) ==> ActivationKind !in Kinds(rows, name)
  }

  lemma SameEvents(rows: Log, more: Log, name: string)
    requires Selected(more, Concerning(name)) == Selected(rows, Concerning(name)) && Kinds(more, name) == Kinds(rows, name)
    ensures Silenced(more, name) <==> Silenced(rows, name)
    ensures ActivationKind in Kinds(more, name) <==> ActivationKind in Kinds(rows, name)
  {
  }

  // A save that adds nothing about a boundary leaves its events as they were.
  lemma NothingConcerns(rows: Log, added: Log, name: string)
    requires forall i :: 0 <= i < |added| ==> !Concerns(added[i].doc, name)
    ensures Selected(rows + added, Concerning(name)) == Selected(rows, Concerning(name))
    ensures Kinds(rows + added, name) == Kinds(rows, name)
  {
    hide Concerns;
    NoKinds(added, name);
    KindsAppend(rows, added, name);
    SelectedNone(added, Concerning(name));
    SelectedAppend(rows, added, Concerning(name));
  }

  // An accepted activation was appended to a boundary with no silent failure.
  lemma ActivatedIsNotSilenced(rows: Log, read: Reading, name: string, row: Row)
    requires Ordered(rows) && name != "" && AllRecorded(rows) && Proper(Kinds(rows, name)) && read.seen <= |rows|
    requires Rebuilt(rows[..read.seen], name).Ok? && CCC.Untouched(rows, read.seen, LifecycleCriteria(name))
    requires Decode(row.doc).Activated?
    ensures !Silenced(rows + [row], name)
  {
    SelectedOne(row, Concerning(name));
    hide Kinds, Proper, AllRecorded, Ordered, Rebuilt, CCC.Untouched, LifecycleCriteria, Decode, Selected;
    SeenIsProper(rows, read.seen, name);
    UntouchedKeepsSelected(rows, read.seen, name);
    SelectedAppend(rows, [row], Concerning(name));
    forall s | s in Selected(rows + [row], Concerning(name)) ensures !IsSilent(s.doc) {
      if s in Selected(rows, Concerning(name)) && Decode(s.doc).Failed? {
        FailureIsRelevant(rows[..read.seen], name, s);
      }
    }
  }

  lemma SelectedOne(row: Row, test: Document -> bool)
    ensures Selected([row], test) == if test(row.doc) then [row] else []
  {
    assert [row][..0] == [];
  }

  lemma ActivationKeepsInactive(s: Admin, id: nat, env: Envelope)
    requires Inv(s) && AllRecorded(Rows(s)) && Enabled(s, AppendActivated(id, env))
    requires Serve(ServeAll(EMPTY, s.history).0, Submission(s, AppendActivated(id, env))).1.Saved?
    ensures !Silenced(Rows(Apply(s, AppendActivated(id, env))), s.commands[id].name)
  {
    var step := AppendActivated(id, env);
    var name, read := s.commands[id].name, s.commands[id].read;
    hide Serve, ServeAll, Rows, Kinds, Proper, Rebuilt, DistinctChecks, LifecycleCriteria, ActivatedData, AllRecorded, Afterwards,
      Decode, Silenced, CCC.Untouched, CCC.Inv, Ordered, EventType, TextAt;
    assert CommandInv(Rows(s), s.commands[id]) && Proper(Kinds(Rows(s), name));
    var row := SubmittedRow(s, step);
    AcceptedIsCurrent(s, Submission(s, step), name, read);
    RowsOrdered(s);
    ActivatedIsNotSilenced(Rows(s), read, name, row);
  }

  // A definition or a failure that keeps the lifecycle proper comes before any activation.
  lemma NotActivatedYet(rows: Log, row: Row, name: string)
    requires Concerns(row.doc, name) && Proper(Kinds(rows + [row], name)) && KindOf(row.doc) != ActivationKind
    ensures ActivationKind !in Kinds(rows + [row], name)
  {
    hide Concerns, Proper, KindOf;
    KindsAppend(rows, [row], name);
    KindsOne(row, name);
    ProperLast(Kinds(rows, name), KindOf(row.doc));
  }

  lemma KindOfStored(doc: Document)
    ensures EventType(doc) == CREATED || EventType(doc) == FAILED ==> KindOf(doc) != ActivationKind
  {
  }

  lemma AppendKeepsInactive(s: Admin, step: Step, name: string)
    requires Inv(s) && AllRecorded(Rows(s)) && SilencedInactive(Rows(s)) && Enabled(s, step) && Appends(step) && name != ""
    requires Serve(ServeAll(EMPTY, s.history).0, Submission(s, step)).1.Saved?
    requires AllProper(Rows(Apply(s, step))) && Silenced(Rows(Apply(s, step)), name)
    ensures ActivationKind !in Kinds(Rows(Apply(s, step)), name)
  {
    hide Serve, ServeAll, Rows, Kinds, Proper, Silenced, Apply, Inv, AllRecorded, Decode, Concerns, EventType, TextAt, KindOf;
    var row := SubmittedRow(s, step);
    if !Concerns(row.doc, name) {
      NothingConcerns(Rows(s), [row], name);
      SameEvents(Rows(s), Rows(s) + [row], name);
    } else if step.AppendActivated? {
      CommandBoundary(s, step);
      ConcernsOne(row.doc, name, s.commands[step.id].name);
      ActivationKeepsInactive(s, step.id, step.env);
      assert false;
    } else {
      KindOfStored(row.doc);
      NotActivatedYet(Rows(s), row, name);
    }
  }

  lemma ConcernsOne(doc: Document, name: string, other: string)
    requires name != "" && Concerns(doc, name) && TextAt(doc, "boundary") == Some(other)
    ensures name == other
  {
  }

  lemma OthersKeepEvents(s: Admin, save: Save, name: string)
    requires IsOther(save) && name != ""
    ensures var more := Rows(Admin(s.history + [save], s.commands));
      Selected(more, Concerning(name)) == Selected(Rows(s), Concerning(name)) && Kinds(more, name) == Kinds(Rows(s), name)
  {
    var state := ServeAll(EMPTY, s.history).0;
    hide Serve, ServeAll, Rows, Positioned, TextAt, EventType, Kinds, Selected;
    ServedRows(s, save, s.commands);
    if Rows(Admin(s.history + [save], s.commands)) != Rows(s) {
      var added := RowsOf(save.events, state.nextId, state.nextId + |save.events| - 1, save.created);
      forall i | 0 <= i < |added| ensures !Concerns(added[i].doc, name) {
        StoredType(save.events[i], state.nextId + i, state.nextId + |save.events| - 1, save.created);
        assert save.events[i] in save.events;
      }
      NothingConcerns(Rows(s), added, name);
    }
  }

  lemma StepKeepsInactive(s: Admin, step: Step)
    requires Inv(s) && AllRecorded(Rows(s)) && SilencedInactive(Rows(s)) && Enabled(s, step)
    ensures SilencedInactive(Rows(Apply(s, step)))
  {
    var t := Apply(s, step);
    if Appends(step) {
      hide Serve, ServeAll, Rows, Kinds, Silenced, AllRecorded, CommandInv, AllProper, Submission, Afterwards;
      StepKeepsInv(s, step);
      ServedRows(s, Submission(s, step), t.commands);
      if Serve(ServeAll(EMPTY, s.history).0, Submission(s, step)).1.Saved? {
        forall name | name != "" && Silenced(Rows(t), name) ensures ActivationKind !in Kinds(Rows(t), name) {
          AppendKeepsInactive(s, step, name);
        }
      }
    } else if step.SaveOther? {
      hide Rows, Kinds, Silenced, IsOther, Inv;
      forall name | name != "" && Silenced(Rows(t), name) ensures ActivationKind !in Kinds(Rows(t), name) {
        OthersKeepEvents(s, step.save, name);
        SameEvents(Rows(s), Rows(t), name);
      }
    } else {
      assert t.history == s.history;
    }
  }

  lemma {:induction false} RunKeepsInactive(steps: seq<Step>)
    ensures SilencedInactive(Rows(Run(steps)))
  {
    if steps == [] {
      NothingSilenced();
    } else {
      var s, step := Run(steps[..|steps| - 1]), steps[|steps| - 1];
      RunKeepsInactive(steps[..|steps| - 1]);
      RunKeepsInv(steps[..|steps| - 1]);
      RunKeepsRecorded(steps[..|steps| - 1]);
      hide SilencedInactive, Rows, Inv, AllRecorded, Apply;
      if Enabled(s, step) {
        StepKeepsInactive(s, step);
      }
    }
  }

  lemma NothingSilenced()
    ensures SilencedInactive(Rows(INITIAL))
  {
    assert Rows(INITIAL) == [];
  }

  lemma StepGrows(s: Admin, step: Step)
    requires Enabled(s, step)
    ensures Rows(s) <= Rows(Apply(s, step))
  {
    var t := Apply(s, step);
    hide Serve, ServeAll, Rows, Submission, Afterwards;
    if Appends(step) {
      ServedRows(s, Submission(s, step), t.commands);
    } else if step.SaveOther? {
      ServedRows(s, step.save, t.commands);
    } else {
      SameRows(s, t);
    }
  }

  lemma {:induction false} LogGrows(steps: seq<Step>, more: seq<Step>)
    ensures Rows(Run(steps)) <= Rows(Run(steps + more))
  {
    hide Rows, Apply;
    if more == [] {
      assert steps + more == steps;
    } else {
      var init, last := more[..|more| - 1], more[|more| - 1];
      assert (steps + more)[..|steps + more| - 1] == steps + init && (steps + more)[|steps + more| - 1] == last;
      LogGrows(steps, init);
      if Enabled(Run(steps + init), last) {
        StepGrows(Run(steps + init), last);
      }
    }
  }

  // Once a failure without a reason is on record, in every longer run the boundary can neither be
  // replayed nor rebuilt, every provisioning command for it ends at once, and it is never
  // activated.
  lemma {:induction false} SilentFailureIsFinal(steps: seq<Step>, more: seq<Step>, name: string)
    requires name != "" && Silenced(Rows(Run(steps)), name)
    ensures var rows := Rows(Run(steps + more));
      && ReplayShows(rows, name) == Unreadable && Rebuilt(rows, name) == Err(Internal)
      && LoadForProvision(rows, name) == Ended
      && ActivationKind !in Kinds(rows, name)
  {
    var rows := Rows(Run(steps + more));
    hide Run, Rows, Kinds, Proper, Silenced, Ordered, AllRecorded, Rebuilt, ReplayShows;
    LogGrows(steps, more);
    SilencedStays(Rows(Run(steps)), rows, name);
    RowsOrdered(Run(steps + more));
    LifecyclesAreProper(steps + more, name);
    RunKeepsRecorded(steps + more);
    RunKeepsInactive(steps + more);
    SilencedIsUnreadable(rows, name);
  }

  // ---- Such a run exists ----

  // Wherever a boundary is being provisioned, a failure without a reason can silence it.
  lemma CanBeSilenced(steps: seq<Step>, id: nat, d: Definition, env: Envelope)
    requires id !in Run(steps).commands && ValidDefinition(d)
    requires Rebuilt(Rows(Run(steps)), d.name).Ok? && Rebuilt(Rows(Run(steps)), d.name).value.status == Provisioning
    requires !env.cancelled && |Rows(Run(steps))| + 2 <= MAX_INT64
    ensures Silenced(Rows(Run(steps + [BeginProvision(id, d)] + [ProvisionFails(id, "")] + [AppendFailed(id, env)])), d.name)
  {
    var s, begin, fails, append := Run(steps), BeginProvision(id, d), ProvisionFails(id, ""), AppendFailed(id, env);
    hide Rows, Newest, Rebuilt, DistinctChecks, LifecycleCriteria, FailedData, Serve, ServeAll, ValidDefinition, Run, Afterwards, Silenced, Decode, TextAt, EventType;
    RunOne(steps, begin);
    RunOne(steps + [begin], fails);
    var failing := Run(steps + [begin] + [fails]);
    SameRows(s, failing);
    assert failing.commands[id] == Failing(d.name, ReadNow(Rows(s), LifecycleCriteria(d.name)), "");
    assert ValidName(d.name) by {
      DefinesValidName(d);
    }
    hide ValidName;
    ObservableLifecycle(d.name);
    UndisturbedIsAppended(failing, LifecycleCriteria(d.name), Submission(failing, append));
    RunOne(steps + [begin] + [fails], append);
    var row := SubmittedRow(failing, append);
    CommandBoundary(failing, append);
    SilentRowSilences(Rows(failing), row, d.name);
  }

  lemma SilentRowSilences(rows: Log, row: Row, name: string)
    requires EventType(row.doc) == FAILED && TextAt(row.doc, "boundary") == Some(name) && Decode(row.doc) == Lifecycle.Failed(name, "")
    ensures Silenced(rows + [row], name)
  {
    hide Decode, EventType, TextAt, Selected;
    assert Concerns(row.doc, name);
    SelectedOne(row, Concerning(name));
    SelectedAppend(rows, [row], Concerning(name));
    assert row in Selected(rows + [row], Concerning(name)) && IsSilent(row.doc);
  }

  // A definition, and a provisioning that fails without a reason, are enough.
  lemma {:induction false} SilentFailureHappens(d: Definition, env: Envelope, rendered: string)
    requires ValidDefinition(d) && !env.cancelled
    ensures Silenced(Rows(Run([BeginCreate(0, d), AppendCreated(0, env, rendered), BeginProvision(1, d), ProvisionFails(1, ""), AppendFailed(1, env)])), d.name)
  {
    var create := [BeginCreate(0, d)] + [AppendCreated(0, env, rendered)];
    assert [] + create == create && Rows(Run([])) == [];
    hide Rows, Rebuilt, Silenced, ValidDefinition, Run, ReplayShows, Newly;
    CanBeCreated([], 0, d, env, rendered);
    CanBeSilenced(create, 1, d, env);
    InOrder(BeginCreate(0, d), AppendCreated(0, env, rendered), BeginProvision(1, d), ProvisionFails(1, ""), AppendFailed(1, env));
  }

  lemma InOrder<T>(a: T, b: T, c: T, d: T, e: T)
    ensures [a] + [b] + [c] + [d] + [e] == [a, b, c, d, e]
  {
  }
}
