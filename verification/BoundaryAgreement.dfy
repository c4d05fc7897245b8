// In every run of create and provision commands, rebuilding a boundary from its newest events
// gives what replaying all of them gives, unless a failure was recorded without a reason.
module BoundaryAgreement {
  import opened Common
  import opened Tags
  import opened EventLog
  import opened SqliteStore
  import opened EventReads
  import opened BoundaryCatalog
  import opened BoundaryRebuild
  import opened BoundaryLifecycle
  import opened BoundaryLifecycleRuns

  // ---- What the commands record ----

  // A lifecycle event that decodes, complete if it is a definition.
  predicate WellRecorded(doc: Document) {
    IsLifecycle(doc) ==> !Decode(doc).Garbled? && (Decode(doc).Created? ==> Definable(Decode(doc)))
  }

  ghost predicate AllRecorded(rows: Log) {
    forall i :: 0 <= i < |rows| ==> WellRecorded(rows[i].doc)
  }

  // The document holds a definition's fields.
  predicate HoldsDefinition(doc: Document, d: Definition) {
    && "boundary" in doc && doc["boundary"] == TextField(d.name)
    && ("description" in doc ==> doc["description"] == TextField(d.description))
    && "placement" in doc && doc["placement"].ObjectField?
    && doc["placement"].members == map["backend" := TextField(d.backend), "namespace" := TextField(d.namespace)]
  }

  // The store's reserved fields all begin with an underscore.
  lemma OwnFieldStays(e: PreparedEvent, globalId: int, commit: int, created: string, key: string)
    requires key != "" && key[0] != '_'
    ensures var doc := Positioned(e, globalId, commit, created);
      (key in doc <==> key in e.data) && (key in doc ==> doc[key] == e.data[key])
  {
    assert "__commitPosition"[0] == "__dateCreated"[0] == "__writeId"[0] == "__eventId"[0] == '_';
    assert "__eventType"[0] == "__metadata"[0] == "__preparePosition"[0] == '_';
  }

  lemma OwnFieldsStay(e: PreparedEvent, globalId: int, commit: int, created: string)
    ensures var doc := Positioned(e, globalId, commit, created);
      forall key :: key in {"boundary", "description", "placement"} ==>
        (key in doc <==> key in e.data) && (key in doc ==> doc[key] == e.data[key])
  {
    hide Positioned;
    OwnFieldStays(e, globalId, commit, created, "boundary");
    OwnFieldStays(e, globalId, commit, created, "description");
    OwnFieldStays(e, globalId, commit, created, "placement");
  }

  lemma DefinitionInData(d: Definition, rendered: string)
    ensures HoldsDefinition(CreatedData(d, rendered), d)
  {
  }

  lemma StoredDefinition(e: PreparedEvent, d: Definition, rendered: string, globalId: int, commit: int, created: string)
    requires e.data == CreatedData(d, rendered)
    ensures HoldsDefinition(Positioned(e, globalId, commit, created), d)
  {
    hide Positioned, CreatedData;
    OwnFieldsStay(e, globalId, commit, created);
    DefinitionInData(d, rendered);
  }

  lemma DefinitionIsRecorded(doc: Document, d: Definition)
    requires HoldsDefinition(doc, d) && EventType(doc) == CREATED && d.name != "" && d.backend != "" && d.namespace != ""
    ensures WellRecorded(doc)
  {
    hide EventType;
    var placement := doc["placement"].members;
    assert TextMember(placement, "backend") == Some(d.backend) && TextMember(placement, "namespace") == Some(d.namespace);
  }

  lemma CreatedIsRecorded(e: PreparedEvent, d: Definition, rendered: string, globalId: int, commit: int, created: string)
    requires ValidDefinition(d) && e.kind == CREATED && e.data == CreatedData(d, rendered)
    ensures WellRecorded(Positioned(e, globalId, commit, created))
  {
    hide Positioned, CreatedData, EventType, HoldsDefinition, WellRecorded;
    StoredType(e, globalId, commit, created);
    StoredDefinition(e, d, rendered, globalId, commit, created);
    DefinitionIsRecorded(Positioned(e, globalId, commit, created), d);
  }

  lemma ActivatedIsRecorded(e: PreparedEvent, name: string, globalId: int, commit: int, created: string)
    requires e.kind == ACTIVATED && e.data == ActivatedData(name)
    ensures WellRecorded(Positioned(e, globalId, commit, created))
  {
    var doc := Positioned(e, globalId, commit, created);
    assert doc["boundary"] == TextField(name);
    assert EventType(doc) == ACTIVATED;
  }

  lemma FailedIsRecorded(e: PreparedEvent, name: string, error: string, globalId: int, commit: int, created: string)
    requires e.kind == FAILED && e.data == FailedData(name, error)
    ensures WellRecorded(Positioned(e, globalId, commit, created))
  {
    var doc := Positioned(e, globalId, commit, created);
    assert doc["boundary"] == TextField(name) && doc["error"] == TextField(error);
    assert EventType(doc) == FAILED;
  }

  lemma OtherIsRecorded(e: PreparedEvent, globalId: int, commit: int, created: string)
    requires e.kind !in {CREATED, ACTIVATED, FAILED}
    ensures WellRecorded(Positioned(e, globalId, commit, created))
  {
    StoredType(e, globalId, commit, created);
  }

  // Whatever a save puts into the log is well recorded.
  ghost predicate Records(save: Save) {
    forall i, globalId, commit :: 0 <= i < |save.events| ==> WellRecorded(Positioned(save.events[i], globalId, commit, save.created))
  }

  lemma SubmissionRecords(s: Admin, step: Step)
    requires Inv(s) && Enabled(s, step) && Appends(step)
    ensures Records(Submission(s, step))
  {
    var save, command := Submission(s, step), s.commands[step.id];
    assert CommandInv(Rows(s), command);
    hide Positioned, WellRecorded, Rows, CreatedData, ActivatedData, FailedData, Kinds, SoundReading;
    forall i, globalId, commit | 0 <= i < |save.events| ensures WellRecorded(Positioned(save.events[i], globalId, commit, save.created)) {
      match step
      case AppendCreated(_, _, rendered) => CreatedIsRecorded(save.events[i], command.definition, rendered, globalId, commit, save.created);
      case AppendActivated(_, _) => ActivatedIsRecorded(save.events[i], command.name, globalId, commit, save.created);
      case AppendFailed(_, _) => FailedIsRecorded(save.events[i], command.name, command.error, globalId, commit, save.created);
    }
  }

  lemma OtherRecords(save: Save)
    requires IsOther(save)
    ensures Records(save)
  {
    hide Positioned, WellRecorded;
    forall i, globalId, commit | 0 <= i < |save.events| ensures WellRecorded(Positioned(save.events[i], globalId, commit, save.created)) {
      assert save.events[i] in save.events;
      OtherIsRecorded(save.events[i], globalId, commit, save.created);
    }
  }

  lemma SaveKeepsRecorded(s: Admin, save: Save, commands: map<nat, Command>)
    requires AllRecorded(Rows(s)) && Records(save)
    ensures AllRecorded(Rows(Admin(s.history + [save], commands)))
  {
    hide Positioned, WellRecorded, Serve, ServeAll, Rows;
    ServedRows(s, save, commands);
  }

  lemma StepKeepsRecorded(s: Admin, step: Step)
    requires Inv(s) && AllRecorded(Rows(s)) && Enabled(s, step)
    ensures AllRecorded(Rows(Apply(s, step)))
  {
    var t := Apply(s, step);
    if Appends(step) {
      hide Records, AllRecorded, Rows, Inv, Afterwards, Submission;
      SubmissionRecords(s, step);
      SaveKeepsRecorded(s, Submission(s, step), t.commands);
    } else if step.SaveOther? {
      hide Records, AllRecorded, Rows;
      OtherRecords(step.save);
      SaveKeepsRecorded(s, step.save, t.commands);
    } else {
      assert t.history == s.history;
    }
  }

  lemma {:induction false} RunKeepsRecorded(steps: seq<Step>)
    ensures AllRecorded(Rows(Run(steps)))
  {
    if steps != [] {
      var s, step := Run(steps[..|steps| - 1]), steps[|steps| - 1];
      RunKeepsInv(steps[..|steps| - 1]);
      RunKeepsRecorded(steps[..|steps| - 1]);
      hide AllRecorded, Rows, Inv;
      if Enabled(s, step) {
        StepKeepsRecorded(s, step);
      }
    }
  }

  // ---- A proper lifecycle replays ----

  // One definition, and every failure after it.
  ghost predicate DefinedOnce(rows: Log) {
    && (forall r, s :: r in rows && s in rows && Decode(r.doc).Created? && Decode(s.doc).Created? ==> r == s)
    && (forall s :: s in rows && Decode(s.doc).Failed? ==> exists r :: r in rows && FailsAfter(s, r))
  }

  lemma DecodesByKind(doc: Document, name: string)
    requires Concerns(doc, name) && name != "" && WellRecorded(doc)
    ensures Decode(doc).Created? <==> KindOf(doc) == DefinitionKind
    ensures Decode(doc).Failed? <==> KindOf(doc) == FailureKind
  {
    DecodesNamed(doc, name);
    hide Decode;
  }

  lemma ProperLast(kinds: seq<Kind>, kind: Kind)
    requires Proper(kinds + [kind])
    ensures Proper(kinds)
    ensures kind == DefinitionKind ==> kinds == []
    ensures kind == FailureKind ==> kinds == [DefinitionKind]
  {
    assert (kinds + [kind])[|kinds|] == kind;
    assert (kinds + [kind])[..|kinds|] == kinds;
    ProperPrefix(kinds + [kind], |kinds|);
  }

  lemma AddLast(rows: Log, last: Row)
    requires DefinedOnce(rows)
    requires Decode(last.doc).Created? ==> forall r :: r in rows ==> !Decode(r.doc).Created?
    requires Decode(last.doc).Failed? ==> exists r :: r in rows && FailsAfter(last, r)
    ensures DefinedOnce(rows + [last])
  {
    hide Decode, FailsAfter;
    var all := rows + [last];
    assert forall r :: r in all <==> r in rows || r == last;
  }

  lemma SplitLast(init: Log, last: Row, name: string)
    requires Ordered(init + [last]) && AllRecorded(init + [last])
    ensures Ordered(init) && AllRecorded(init) && WellRecorded(last.doc)
    ensures forall r :: r in init ==> After(last.position, r.position)
    ensures if Concerns(last.doc, name)
      then Kinds(init + [last], name) == Kinds(init, name) + [KindOf(last.doc)] && Selected(init + [last], Concerning(name)) == Selected(init, Concerning(name)) + [last]
      else Kinds(init + [last], name) == Kinds(init, name) && Selected(init + [last], Concerning(name)) == Selected(init, Concerning(name))
  {
    hide WellRecorded, KindOf, Concerns;
    var rows := init + [last];
    assert rows[..|init|] == init && rows[|init|] == last;
    assert forall i :: 0 <= i < |init| ==> rows[i] == init[i];
    OrderedAppend(init, last);
    assert Kinds(init, name) + [] == Kinds(init, name);
    assert Selected(init, Concerning(name)) + [] == Selected(init, Concerning(name));
  }

  lemma {:induction false} ProperIsDefinedOnce(rows: Log, name: string)
    requires Ordered(rows) && name != "" && AllRecorded(rows) && Proper(Kinds(rows, name))
    ensures DefinedOnce(Selected(rows, Concerning(name)))
    decreases |rows|
  {
    if rows != [] {
      var init, last := rows[..|rows| - 1], rows[|rows| - 1];
      hide Decode, Concerns, Proper, AllRecorded, WellRecorded, FailsAfter, DefinedOnce, Ordered, Kinds, KindOf, Selected;
      assert rows == init + [last];
      SplitLast(init, last, name);
      if Concerns(last.doc, name) {
        ProperLast(Kinds(init, name), KindOf(last.doc));
        ProperIsDefinedOnce(init, name);
        LastAmongProper(init, last, name);
        AddLast(Selected(init, Concerning(name)), last);
      } else {
        ProperIsDefinedOnce(init, name);
      }
    }
  }

  lemma LastAmongProper(init: Log, last: Row, name: string)
    requires name != "" && AllRecorded(init) && WellRecorded(last.doc) && Concerns(last.doc, name)
    requires forall r :: r in init ==> After(last.position, r.position)
    requires KindOf(last.doc) == DefinitionKind ==> Kinds(init, name) == []
    requires KindOf(last.doc) == FailureKind ==> Kinds(init, name) == [DefinitionKind]
    ensures var own := Selected(init, Concerning(name));
      && (Decode(last.doc).Created? ==> forall r :: r in own ==> !Decode(r.doc).Created?)
      && (Decode(last.doc).Failed? ==> exists r :: r in own && FailsAfter(last, r))
  {
    SelectedIndex(init, Concerning(name));
    DecodesByKind(last.doc, name);
    hide Decode, Selected, Kinds, KindOf, WellRecorded, Concerns;
    if Decode(last.doc).Created? {
      NoKindsExactlyWhen(init, name);
    } else if Decode(last.doc).Failed? {
      assert DefinitionKind in Kinds(init, name);
      var i := KindHasRow(init, name, DefinitionKind);
      DecodesByKind(init[i].doc, name);
      assert init[i] in init && FailsAfter(last, init[i]);
    }
  }

  lemma ReplaysUnlessSilent(rows: Log, name: string)
    requires DefinedOnce(rows) && forall r :: r in rows ==> IsLifecycle(r.doc) && WellRecorded(r.doc)
    ensures Replayable(rows) <==> forall s :: s in rows && Decode(s.doc).Failed? ==> Decode(s.doc).error != ""
  {
    hide Decode, Definable, IsLifecycle;
    if Replayable(rows) {
      forall s | s in rows && Decode(s.doc).Failed? ensures Decode(s.doc).error != "" {
        var r :| r in rows && FailsAfter(s, r);
      }
    }
  }

  // ---- One event of each kind ----

  lemma ProperIsFresh(kinds: seq<Kind>, kind: Kind)
    requires Proper(kinds + [kind])
    ensures kind !in kinds
  {
    assert (kinds + [kind])[|kinds|] == kind;
    assert forall i :: 0 <= i < |kinds| ==> (kinds + [kind])[i] == kinds[i];
  }

  ghost predicate OfEachKindOne(rows: Log) {
    forall r, s :: r in rows && s in rows && KindOf(r.doc) == KindOf(s.doc) ==> r == s
  }

  lemma OneMoreOfItsKind(rows: Log, row: Row)
    requires OfEachKindOne(rows) && forall r :: r in rows ==> KindOf(r.doc) != KindOf(row.doc)
    ensures OfEachKindOne(rows + [row])
  {
    hide KindOf;
  }

  lemma {:induction false} ProperHasOneOfEach(rows: Log, name: string)
    requires Ordered(rows) && AllRecorded(rows) && Proper(Kinds(rows, name))
    ensures OfEachKindOne(Selected(rows, Concerning(name)))
  {
    hide Concerns, Proper, AllRecorded, WellRecorded, Ordered, KindOf;
    if rows != [] {
      var init, last := rows[..|rows| - 1], rows[|rows| - 1];
      hide Kinds, Selected, OfEachKindOne;
      assert rows == init + [last];
      SplitLast(init, last, name);
      if Concerns(last.doc, name) {
        ProperLast(Kinds(init, name), KindOf(last.doc));
        ProperIsFresh(Kinds(init, name), KindOf(last.doc));
        ProperHasOneOfEach(init, name);
        NoneOfKind(init, name, KindOf(last.doc));
        OneMoreOfItsKind(Selected(init, Concerning(name)), last);
      } else {
        ProperHasOneOfEach(init, name);
      }
    }
  }

  lemma NoneOfKind(rows: Log, name: string, kind: Kind)
    requires kind !in Kinds(rows, name)
    ensures forall r :: r in Selected(rows, Concerning(name)) ==> KindOf(r.doc) != kind
  {
    SelectedIndex(rows, Concerning(name));
    hide Kinds, Selected, Concerns, KindOf;
    forall r | r in Selected(rows, Concerning(name)) ensures KindOf(r.doc) != kind {
      var i :| 0 <= i < |rows| && rows[i] == r;
      SomeKind(rows, name, i);
    }
  }

  // ---- A context that could be rebuilt can be replayed ----

  lemma FailureIsRelevant(rows: Log, name: string, s: Row)
    requires Ordered(rows) && name != "" && AllRecorded(rows) && Proper(Kinds(rows, name)) && Rebuilt(rows, name).Ok?
    requires s in Selected(rows, Concerning(name)) && Decode(s.doc).Failed?
    ensures Decode(s.doc).error != ""
  {
    var own := Selected(rows, Concerning(name));
    SelectedIndex(rows, Concerning(name));
    assert Concerns(s.doc, name) && WellRecorded(s.doc);
    DecodesByKind(s.doc, name);
    ProperHasOneOfEach(rows, name);
    FindsByKind(rows, name);
    IsHistory(rows, name);
    NewestInHistory(rows, name, CREATED);
    NewestInHistory(rows, name, ACTIVATED);
    NewestInHistory(rows, name, FAILED);
    DecodesNamed(s.doc, name);
    hide Selected, Kinds, Proper, Decode, NewestRow, Concerns, Ordered, AllRecorded, History, KindOf;
    NewestIsThis(own, s);
    RelevantKeepsFailure(own, name, s);
  }

  lemma NewestIsThis(own: Log, s: Row)
    requires OfEachKindOne(own) && s in own && EventType(s.doc) == FAILED
    ensures LastOf(own, FAILED) == Some(s)
  {
    LastOfIn(own, FAILED);
  }

  lemma RelevantKeepsFailure(own: Log, name: string, s: Row)
    requires History(own, name) && LastOf(own, CREATED).Some? && LastOf(own, FAILED) == Some(s) && Decode(s.doc).Failed?
    requires After(s.position, LastOf(own, CREATED).value.position)
    requires Fold(Relevant(LastOf(own, CREATED).value, LastOf(own, ACTIVATED), LastOf(own, FAILED))).Ok?
    ensures Decode(s.doc).error != ""
  {
    var c := LastOf(own, CREATED).value;
    var relevant := Relevant(c, LastOf(own, ACTIVATED), LastOf(own, FAILED));
    hide Decode, NewestRow, Fold, Relevant, History;
    RelevantHistory(own, name);
    ReplaysExactlyWhen(relevant, name);
    LastOfIn(relevant, FAILED);
    LastOfIn(relevant, CREATED);
    CreatedDecodes(relevant, name, c);
    assert FailsAfter(s, c);
  }

  lemma CreatedDecodes(rows: Log, name: string, c: Row)
    requires History(rows, name) && Replayable(rows) && c in rows && EventType(c.doc) == CREATED
    ensures Decode(c.doc).Created?
  {
    DecodesNamed(c.doc, name);
  }

  // Within a run, a boundary that can be rebuilt can be replayed, to the same.
  lemma {:induction false} RebuiltIsReplayed(rows: Log, name: string)
    requires Ordered(rows) && name != "" && AllRecorded(rows) && Proper(Kinds(rows, name)) && Rebuilt(rows, name).Ok?
    ensures Replayable(Selected(rows, Concerning(name)))
    ensures var replay := Fold(Selected(rows, Concerning(name)));
      replay.Ok? && name in replay.value && Rebuilt(rows, name) == Ok(replay.value[name])
  {
    var own := Selected(rows, Concerning(name));
    SelectedIndex(rows, Concerning(name));
    assert forall r :: r in own ==> IsLifecycle(r.doc) && WellRecorded(r.doc);
    hide Kinds, Proper, Decode, Rebuilt, Selected, Ordered, AllRecorded, IsLifecycle, WellRecorded, Fold, Replayable;
    ProperIsDefinedOnce(rows, name);
    forall s | s in own && Decode(s.doc).Failed? ensures Decode(s.doc).error != "" {
      FailureIsRelevant(rows, name, s);
    }
    ReplaysUnlessSilent(own, name);
    ReplayableIsRebuilt(rows, name);
  }

  // ---- In every run ----

  lemma AgreeOnProper(rows: Log, name: string)
    requires Ordered(rows) && name != "" && AllRecorded(rows) && Proper(Kinds(rows, name))
    ensures Agree(rows, name)
  {
    var own := Selected(rows, Concerning(name));
    SelectedIndex(rows, Concerning(name));
    assert forall r :: r in own ==> WellRecorded(r.doc);
    hide Kinds, Proper, Decode, Rebuilt, Selected, Ordered, AllRecorded, WellRecorded, Fold, Replayable, ReadRows, NewestRow, OfType;
    DisagreeExactlyWhen(rows, name);
    if !Agree(rows, name) {
      RebuiltExactlyWhen(rows, name);
      if Rebuilt(rows, name).Ok? {
        RebuiltIsReplayed(rows, name);
      } else {
        UndefinedIsReplayed(rows, name);
      }
    }
  }

  // Without a definition there is nothing to go wrong.
  lemma UndefinedIsReplayed(rows: Log, name: string)
    requires Ordered(rows) && name != "" && AllRecorded(rows) && Proper(Kinds(rows, name))
    requires RebuildShows(rows, name) == Undefined
    ensures Replayable(Selected(rows, Concerning(name)))
  {
    assert NewestRow(rows, OfType(name, CREATED)).None? by {
      RebuiltFailsInternally(rows, name);
    }
    hide Decode, Ordered, WellRecorded, Rebuilt, NewestRow, OfType;
    FindsByKind(rows, name);
    NoKindsExactlyWhen(rows, name);
    SelectedNone(rows, Concerning(name));
    NothingReplays();
  }

  lemma RebuiltFailsInternally(rows: Log, name: string)
    ensures Rebuilt(rows, name).Err? ==>
      (Rebuilt(rows, name).status == FailedPrecondition <==> NewestRow(rows, OfType(name, CREATED)).None?)
    ensures Rebuilt(rows, name).Err? && NewestRow(rows, OfType(name, CREATED)).Some? ==> Rebuilt(rows, name) == Err(Internal)
  {
    hide Fold, Relevant, NewestRow;
  }

  // In every run of the commands, whatever is interleaved, the rebuilt and the replayed boundary
  // are the same, or neither is defined, or neither can be read.
  lemma {:induction false} RebuildAgreesInEveryRun(steps: seq<Step>, name: string)
    requires name != ""
    ensures Agree(Rows(Run(steps)), name)
  {
    hide Run, Rows, Agree, Proper, Kinds, Ordered, AllRecorded;
    RowsOrdered(Run(steps));
    LifecyclesAreProper(steps, name);
    RunKeepsRecorded(steps);
    AgreeOnProper(Rows(Run(steps)), name);
  }

  // They can be read exactly when no failure of the boundary was recorded with empty text.
  lemma {:induction false} ReadableExactlyWhenReasonsGiven(steps: seq<Step>, name: string)
    requires name != ""
    ensures Fold(Selected(Rows(Run(steps)), Concerning(name))).Ok? <==>
      forall r :: r in Selected(Rows(Run(steps)), Concerning(name)) && Decode(r.doc).Failed? ==> Decode(r.doc).error != ""
  {
    var rows := Rows(Run(steps));
    RowsOrdered(Run(steps));
    LifecyclesAreProper(steps, name);
    RunKeepsRecorded(steps);
    hide Run, Rows, Proper, Replayable, Kinds, Decode, DefinedOnce, Selected, Ordered, Fold, History;
    ProperIsDefinedOnce(rows, name);
    SelectedIndex(rows, Concerning(name));
    assert forall r :: r in rows ==> WellRecorded(r.doc);
    ReplaysUnlessSilent(Selected(rows, Concerning(name)), name);
    IsHistory(rows, name);
    ReplaysExactlyWhen(Selected(rows, Concerning(name)), name);
  }

  // No run defines a boundary twice, so none gets to where the two disagree.
  lemma {:induction false} NeverDefinedTwice(steps: seq<Step>, name: string, r: Row, s: Row)
    requires name != "" && r in Selected(Rows(Run(steps)), Concerning(name)) && s in Selected(Rows(Run(steps)), Concerning(name))
    requires EventType(r.doc) == CREATED && EventType(s.doc) == CREATED
    ensures r == s
  {
    var rows := Rows(Run(steps));
    hide Run, Rows, Proper, Kinds, Selected, Ordered, AllRecorded, EventType;
    RowsOrdered(Run(steps));
    LifecyclesAreProper(steps, name);
    RunKeepsRecorded(steps);
    ProperHasOneOfEach(rows, name);
  }
}
