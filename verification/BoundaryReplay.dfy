// Two ways to a boundary's state: replaying every lifecycle event page by page
// (admin/slices/boundary_catalog/query_handler.go), and rebuilding it from the newest event
// of each type (admin/slices/boundary_provisioning/command_handler.go).
module BoundaryReplay {
  import opened Common
  import opened Ordering
  import opened Tags
  import opened EventLog
  import opened EventReads
  import opened BoundaryCatalog
  import opened BoundaryRebuild

  const CATALOG_READ_BATCH_SIZE := 1000

  // ---- replayCatalog ----

  // Folds one page, passing over the cursor's own event.
  method ApplyPage(catalog: Catalog, cursor: Position, batch: Log, ghost events: Log, ghost lo: nat, ghost next: nat)
    returns (ok: bool, newCursor: Position, advanced: bool)
    requires Ordered(events) && lo + |batch| <= |events| && batch == events[lo..lo + |batch|]
    requires next <= |events| && Passed(events, next, Some(cursor))
    requires batch != [] ==> lo == if cursor == batch[0].position then next - 1 else next
    requires forall i :: 0 <= i < |events| ==> !Decode(events[i].doc).Unrelated?
    requires Fold(events[..next]) == Ok(catalog.boundaries)
    modifies catalog
    ensures ok ==> var reached := if batch == [] then next else lo + |batch|;
      && Fold(events[..reached]) == Ok(catalog.boundaries)
      && Passed(events, reached, Some(newCursor))
      && (advanced <==> reached > next)
    ensures !ok ==> Fold(events[..lo + |batch|]).Err?
  {
    hide Fold, Passed, Decode, Fold1;
    newCursor, advanced := cursor, false;
    for i := 0 to |batch|
      invariant i == 0 ==> newCursor == cursor && !advanced && Fold(events[..next]) == Ok(catalog.boundaries)
      invariant i > 0 ==> newCursor == batch[i - 1].position && Fold(events[..lo + i]) == Ok(catalog.boundaries)
      invariant advanced <==> i > 0 && lo + i > next
    {
      var event := batch[i];
      assert event == events[lo + i];
      SuccessorDiffers(events, lo + i);
      if event.position == newCursor {
        continue;
      }
      assert events[..lo + i] + [event] == events[..lo + i + 1];
      FoldAppend(events[..lo + i], event);
      var applied, applyOk := catalog.Apply(event);
      if !applyOk {
        ok := false;
        assert events[..lo + |batch|][..lo + i + 1] == events[..lo + i + 1];
        FoldErrorStays(events[..lo + |batch|], lo + i + 1);
        return;
      }
      // The query yields lifecycle events only.
      assert applied;
      newCursor := event.position;
      advanced := true;
    }
    if batch != [] {
      PassedLast(events, lo + |batch| - 1);
    }
    ok := true;
  }

  lemma NonePassed(events: Log)
    requires Ordered(events)
    ensures Passed(events, 0, Some(NOT_EXISTS))
  {
  }

  // The selected events are lifecycle events, in order, and match the query's meaning.
  lemma CatalogEvents(log: Log, name: string)
    requires Ordered(log)
    ensures Selected(log, Matching(CatalogQuery(name))) == Selected(log, Concerning(name))
    ensures Ordered(Selected(log, Concerning(name)))
    ensures forall i :: 0 <= i < |Selected(log, Concerning(name))| ==> !Decode(Selected(log, Concerning(name))[i].doc).Unrelated?
  {
    forall i | 0 <= i < |log| ensures Matching(CatalogQuery(name))(log[i].doc) == Concerning(name)(log[i].doc) {
      CatalogQueryMeans(log[i].doc, name);
    }
    SelectedDependsOnMeaning(log, Matching(CatalogQuery(name)), Concerning(name));
    SelectedOrdered(log, Concerning(name));
    var rows := Selected(log, Concerning(name));
    forall i | 0 <= i < |rows| ensures !Decode(rows[i].doc).Unrelated? {
      SelectedIndex(log, Concerning(name));
      assert rows[i] in rows;
    }
  }

  lemma VisibleEvents(full: Log, committed: nat, name: string)
    requires Ordered(full) && committed <= |full|
    ensures Selected(full[..committed], Matching(CatalogQuery(name))) == Selected(full[..committed], Concerning(name))
    ensures Selected(full[..committed], Concerning(name)) <= Selected(full, Concerning(name))
  {
    PrefixOrdered(full, committed);
    CatalogEvents(full[..committed], name);
    VisiblePrefix(full, committed, Concerning(name));
  }

  lemma CatalogQueryValid(name: string)
    requires '\0' !in name
    ensures forall c :: c in CatalogQuery(name) ==> ValidCriterion(c)
  {
    KindsAreText();
    hide ValidCriterion;
    CatalogCriterionValid(name, CREATED);
    CatalogCriterionValid(name, ACTIVATED);
    CatalogCriterionValid(name, FAILED);
  }

  lemma CatalogCriterionValid(name: string, kind: string)
    requires '\0' !in name && '\0' !in kind
    ensures ValidCriterion(CatalogCriterion(name, kind))
  {
    var c := CatalogCriterion(name, kind);
    assert forall t :: t in c ==> t == Tag("__eventType", kind, "") || t == Tag("boundary", name, "");
    assert "__eventType"[0] != '\0' && '\0' !in "__eventType" && '\0' !in "boundary";
  }

  // However the log grows between the pages, the catalog is the fold of everything visible to
  // the last read. It fails only if a read does, or refuses the name, or that fold fails.
  method ReplayCatalog(source: Source, name: string) returns (r: Result<Boundaries>)
    requires source.Valid()
    modifies source
    ensures source.Valid() && old(source.committed) <= source.committed
    ensures r.Ok? ==> Fold(Selected(source.Visible(), Concerning(name))) == r && source.failures == old(source.failures)
    ensures r.Err? ==>
      source.failures > old(source.failures) || '\0' in name || Fold(Selected(source.Visible(), Concerning(name))).Err?
    ensures r.Err? && '\0' !in name ==> r.status == Internal
  {
    hide Selected, Fold, Passed, Page, Ordered, Decode;
    var catalog := new Catalog();
    var cursor := NOT_EXISTS;
    ghost var events := Selected(source.full, Concerning(name));
    ghost var next := 0;
    CatalogEvents(source.full, name);
    NonePassed(events);
    FoldNothing(events);
    while true
      invariant source.Valid() && old(source.committed) <= source.committed && fresh(catalog) && source.failures == old(source.failures)
      invariant next <= |Selected(source.Visible(), Concerning(name))| && next <= |events|
      invariant Passed(events, next, Some(cursor)) && Fold(events[..next]) == Ok(catalog.boundaries)
      decreases |events| - next
    {
      ghost var seen := source.committed;
      var batch := source.GetBatch(CatalogQuery(name), Some(cursor), true, CATALOG_READ_BATCH_SIZE);
      if batch.Err? {
        if '\0' !in name {
          CatalogQueryValid(name);
        }
        return Err(batch.status);
      }
      VisibleEvents(source.full, source.committed, name);
      VisibleGrows(source.full, seen, source.committed, Concerning(name));
      ghost var visible := Selected(source.Visible(), Concerning(name));
      ghost var lo := ForwardPage(source.full, source.committed, Matching(CatalogQuery(name)), next, Some(cursor), CATALOG_READ_BATCH_SIZE, batch.value);
      var ok, newCursor, advanced := ApplyPage(catalog, cursor, batch.value, events, lo, next);
      if !ok {
        assert visible[..lo + |batch.value|] == events[..lo + |batch.value|];
        FoldErrorStays(visible, lo + |batch.value|);
        return Err(Internal);
      }
      cursor := newCursor;
      next := if batch.value == [] then next else lo + |batch.value|;
      if |batch.value| < CATALOG_READ_BATCH_SIZE || !advanced {
        assert visible == events[..next];
        return Ok(catalog.boundaries);
      }
    }
  }

  lemma FoldNothing(events: Log)
    ensures Fold(events[..0]) == Ok(map[])
  {
  }

  // GetBoundary, its name trimmed by the caller: what the replay shows of the boundary, unless the
  // name is not valid or a read fails.
  method GetBoundary(source: Source, name: string) returns (r: Result<Boundary>)
    requires source.Valid()
    modifies source
    ensures source.Valid() && old(source.committed) <= source.committed
    ensures !ValidName(name) <==> r == Err(InvalidArgument)
    ensures ValidName(name) && source.failures == old(source.failures) ==>
      match ReplayShows(source.Visible(), name)
      case Shown(boundary) => r == Ok(boundary)
      case Undefined => r == Err(NotFound)
      case Unreadable => r == Err(Internal)
    ensures ValidName(name) && source.failures > old(source.failures) ==> r.Err?
  {
    if !ValidName(name) {
      return Err(InvalidArgument);
    }
    hide Selected, Fold, Ordered;
    var catalog := ReplayCatalog(source, name);
    if catalog.Err? {
      return Err(catalog.status);
    }
    if name !in catalog.value {
      return Err(NotFound);
    }
    return Ok(catalog.value[name]);
  }

  // ---- One boundary at a time, or all at once ----

  ghost predicate SameAt(m: Boundaries, n: Boundaries, name: string) {
    (name in m <==> name in n) && (name in m ==> m[name] == n[name])
  }

  // An event touches only the boundary it names, and only that boundary's state matters to it.
  lemma Fold1IsLocal(m: Boundaries, n: Boundaries, row: Row, name: string)
    requires SameAt(m, n, name) && !Decode(row.doc).Garbled? && !Decode(row.doc).Unrelated?
    ensures Decode(row.doc).boundary == name ==> (Fold1(m, row).Ok? <==> Fold1(n, row).Ok?)
    ensures Decode(row.doc).boundary == name && Fold1(m, row).Ok? ==> SameAt(Fold1(m, row).value, Fold1(n, row).value, name)
    ensures Decode(row.doc).boundary != name && Fold1(m, row).Ok? ==> SameAt(Fold1(m, row).value, n, name)
  {
    hide Decode;
  }

  lemma ConcernsNamed(doc: Document, name: string)
    requires IsLifecycle(doc) && !Decode(doc).Garbled? && name != ""
    ensures !Decode(doc).Unrelated? && (Concerns(doc, name) <==> Decode(doc).boundary == name)
  {
  }

  lemma {:induction false} FoldPerName(rows: Log, name: string)
    requires name != "" && Fold(rows).Ok? && forall i :: 0 <= i < |rows| ==> IsLifecycle(rows[i].doc)
    ensures Fold(Selected(rows, Concerning(name))).Ok?
    ensures SameAt(Fold(rows).value, Fold(Selected(rows, Concerning(name))).value, name)
  {
    if rows != [] {
      var init, last := rows[..|rows| - 1], rows[|rows| - 1];
      hide Decode, IsLifecycle, SameAt;
      FoldPerName(init, name);
      ConcernsNamed(last.doc, name);
      Fold1IsLocal(Fold(init).value, Fold(Selected(init, Concerning(name))).value, last, name);
      FoldAppend(Selected(init, Concerning(name)), last);
      assert Selected(init, Concerning(name)) + [] == Selected(init, Concerning(name));
    } else {
      assert SameAt(map[], map[], name);
    }
  }

  // The event decodes and names a boundary.
  predicate Named(doc: Document) {
    var e := Decode(doc);
    (e.Created? || e.Activated? || e.Failed?) && e.boundary != ""
  }

  lemma InitFolds(init: Log, last: Row, test: Document -> bool)
    requires Fold(Selected(init + [last], test)).Ok?
    ensures Fold(Selected(init, test)).Ok?
  {
    hide Selected, Fold;
    SelectedAppend(init, [last], test);
    var own, all := Selected(init, test), Selected(init + [last], test);
    assert all[..|own|] == own;
    if Fold(own).Err? {
      FoldErrorStays(all, |own|);
      assert false;
    }
  }

  lemma LastFolds(init: Log, last: Row)
    requires Fold(init).Ok? && IsLifecycle(last.doc) && Named(last.doc)
    requires forall i :: 0 <= i < |init| ==> IsLifecycle(init[i].doc)
    requires Fold(Selected(init + [last], Concerning(Decode(last.doc).boundary))).Ok?
    ensures Fold(init + [last]).Ok?
  {
    var name := Decode(last.doc).boundary;
    FoldPerName(init, name);
    ConcernsNamed(last.doc, name);
    hide Decode, IsLifecycle, SameAt, Fold1, Selected;
    Fold1IsLocal(Fold(init).value, Fold(Selected(init, Concerning(name))).value, last, name);
    SelectLast(init, last, Concerning(name));
    FoldAppend(Selected(init, Concerning(name)), last);
    FoldAppend(init, last);
  }

  lemma {:induction false} FoldOfAll(rows: Log)
    requires forall i :: 0 <= i < |rows| ==> IsLifecycle(rows[i].doc) && Named(rows[i].doc)
    requires forall name :: name != "" ==> Fold(Selected(rows, Concerning(name))).Ok?
    ensures Fold(rows).Ok?
  {
    if rows != [] {
      var init, last := rows[..|rows| - 1], rows[|rows| - 1];
      assert rows == init + [last];
      assert Named(last.doc);
      hide Selected, Fold, IsLifecycle;
      forall name | name != "" ensures Fold(Selected(init, Concerning(name))).Ok? {
        InitFolds(init, last, Concerning(name));
      }
      FoldOfAll(init);
      LastFolds(init, last);
    }
  }

  lemma SelectLast(rows: Log, row: Row, test: Document -> bool)
    requires test(row.doc)
    ensures Selected(rows + [row], test) == Selected(rows, test) + [row]
  {
    assert (rows + [row])[..|rows|] == rows;
  }

  lemma FoldedIsNamed(m: Boundaries, row: Row)
    requires Fold1(m, row).Ok? && !Decode(row.doc).Unrelated?
    ensures Named(row.doc)
  {
    hide Decode;
  }

  lemma {:induction false} FoldedAreNamed(rows: Log)
    requires Fold(rows).Ok? && forall i :: 0 <= i < |rows| ==> !Decode(rows[i].doc).Unrelated?
    ensures forall i :: 0 <= i < |rows| ==> Named(rows[i].doc)
  {
    hide Decode, Named, Fold1;
    if rows != [] {
      FoldedAreNamed(rows[..|rows| - 1]);
      FoldedIsNamed(Fold(rows[..|rows| - 1]).value, rows[|rows| - 1]);
    }
  }

  lemma {:induction false} SelectedTwice(log: Log, f: Document -> bool, g: Document -> bool)
    requires forall i :: 0 <= i < |log| && g(log[i].doc) ==> f(log[i].doc)
    ensures Selected(Selected(log, f), g) == Selected(log, g)
  {
    if log != [] {
      var init, last := log[..|log| - 1], log[|log| - 1];
      SelectedTwice(init, f, g);
      SelectedAppend(Selected(init, f), [last], g);
      assert Selected(init, f) + [] == Selected(init, f);
      assert [last][..0] == [];
    }
  }

  // The list of all boundaries succeeds exactly when every event decodes and names a boundary
  // and each boundary's own replay succeeds, and it shows each as that replay does.
  lemma {:induction false} ListAgreesWithGet(log: Log)
    requires Ordered(log)
    ensures var all := Selected(log, Concerning(""));
      && (Fold(all).Ok? <==> (forall i :: 0 <= i < |all| ==> Named(all[i].doc)) && (forall name :: name != "" ==> Fold(Selected(log, Concerning(name))).Ok?))
      && (Fold(all).Ok? ==> forall name :: name != "" ==> SameAt(Fold(all).value, Fold(Selected(log, Concerning(name))).value, name))
  {
    var all := Selected(log, Concerning(""));
    SelectedIndex(log, Concerning(""));
    CatalogEvents(log, "");
    forall i | 0 <= i < |all| ensures IsLifecycle(all[i].doc) {
      assert all[i] in all;
    }
    forall name | name != "" ensures Selected(all, Concerning(name)) == Selected(log, Concerning(name)) {
      SelectedTwice(log, Concerning(""), Concerning(name));
    }
    hide Decode, IsLifecycle, SameAt, Selected, Fold, Named;
    if Fold(all).Ok? {
      forall name | name != "" ensures Fold(Selected(all, Concerning(name))).Ok? && SameAt(Fold(all).value, Fold(Selected(all, Concerning(name))).value, name) {
        FoldPerName(all, name);
      }
      FoldedAreNamed(all);
    } else if (forall i :: 0 <= i < |all| ==> Named(all[i].doc)) && (forall name :: name != "" ==> Fold(Selected(log, Concerning(name))).Ok?) {
      FoldOfAll(all);
    }
  }
}
