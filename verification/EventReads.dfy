// Reading a boundary's events: pages from a position (GetBatch) and the newest event of each
// criterion (GetLatestByCriteria), both in sqlite/sqlite_eventstore.go.
module EventReads {
  import opened Common
  import opened Tags
  import opened EventLog
  import opened CriterionCodec
  import opened SqliteCriteria

  // ---- Pages ----

  // The rows a test accepts, in order.
  function Selected(log: Log, test: Document -> bool): Log {
    if log == [] then []
    else
      var last := log[|log| - 1];
      Selected(log[..|log| - 1], test) + (if test(last.doc) then [last] else [])
  }

  lemma {:induction false} SelectedAppend(a: Log, b: Log, test: Document -> bool)
    ensures Selected(a + b, test) == Selected(a, test) + Selected(b, test)
  {
    if b == [] {
      assert a + b == a;
    } else {
      var init, last := b[..|b| - 1], b[|b| - 1];
      assert (a + b)[..|a + b| - 1] == a + init;
      SelectedAppend(a, init, test);
    }
  }

  lemma {:induction false} SelectedIndex(log: Log, test: Document -> bool)
    ensures forall r :: r in Selected(log, test) <==> r in log && test(r.doc)
  {
    if log != [] {
      var init, last := log[..|log| - 1], log[|log| - 1];
      SelectedIndex(init, test);
      assert log == init + [last];
    }
  }

  lemma {:induction false} SelectedNone(log: Log, test: Document -> bool)
    requires forall i :: 0 <= i < |log| ==> !test(log[i].doc)
    ensures Selected(log, test) == []
  {
    if log != [] {
      SelectedNone(log[..|log| - 1], test);
    }
  }

  lemma {:induction false} SelectedDependsOnMeaning(log: Log, f: Document -> bool, g: Document -> bool)
    requires forall i :: 0 <= i < |log| ==> f(log[i].doc) == g(log[i].doc)
    ensures Selected(log, f) == Selected(log, g)
  {
    if log != [] {
      SelectedDependsOnMeaning(log[..|log| - 1], f, g);
    }
  }

  lemma OrderedAppend(log: Log, r: Row)
    ensures Ordered(log + [r]) <==> Ordered(log) && After(r.position, NOT_EXISTS) && forall q :: q in log ==> After(r.position, q.position)
  {
    var all := log + [r];
    assert all[|log|] == r && forall i :: 0 <= i < |log| ==> all[i] == log[i] && log[i] in log;
  }

  lemma {:induction false} SelectedOrdered(log: Log, test: Document -> bool)
    requires Ordered(log)
    ensures Ordered(Selected(log, test))
  {
    if log != [] {
      var init, last := log[..|log| - 1], log[|log| - 1];
      assert log == init + [last];
      OrderedAppend(init, last);
      SelectedOrdered(init, test);
      SelectedIndex(init, test);
      OrderedAppend(Selected(init, test), last);
    }
  }

  predicate Within(p: Position, from: Option<Position>, ascending: bool) {
    from.Some? ==> if ascending then AtOrAfter(p, from.value) else AtOrAfter(from.value, p)
  }

  // The rows on the requested side of a position, which is included.
  function Side(rows: Log, from: Option<Position>, ascending: bool): Log {
    if rows == [] then []
    else
      var last := rows[|rows| - 1];
      Side(rows[..|rows| - 1], from, ascending) + (if Within(last.position, from, ascending) then [last] else [])
  }

  function Reversed(rows: Log): Log {
    seq(|rows|, i requires 0 <= i < |rows| => rows[|rows| - 1 - i])
  }

  function Limited(rows: Log, count: nat): Log {
    if |rows| <= count then rows else rows[..count]
  }

  const DEFAULT_READ_BATCH_SIZE := 1000
  const MAX_READ_BATCH_SIZE := 10000

  function Limit(count: nat): nat {
    if count == 0 then DEFAULT_READ_BATCH_SIZE
    else if count > MAX_READ_BATCH_SIZE then MAX_READ_BATCH_SIZE
    else count
  }

  // The rows GetBatch answers with.
  function Page(log: Log, test: Document -> bool, from: Option<Position>, ascending: bool, count: nat): Log {
    var rows := Side(Selected(log, test), from, ascending);
    Limited(if ascending then rows else Reversed(rows), Limit(count))
  }

  // How many leading rows lie before a position.
  function Before(rows: Log, p: Position): (k: nat)
    ensures k <= |rows|
    ensures forall i :: 0 <= i < k ==> !AtOrAfter(rows[i].position, p)
    ensures k < |rows| ==> AtOrAfter(rows[k].position, p)
  {
    if rows == [] || AtOrAfter(rows[0].position, p) then 0 else 1 + Before(rows[1..], p)
  }

  lemma {:induction false} SideIsSuffix(rows: Log, p: Position, k: nat)
    requires k <= |rows|
    requires forall i :: 0 <= i < k ==> !AtOrAfter(rows[i].position, p)
    requires forall i :: k <= i < |rows| ==> AtOrAfter(rows[i].position, p)
    ensures Side(rows, Some(p), true) == rows[k..]
  {
    if rows != [] {
      var init := rows[..|rows| - 1];
      if k == |rows| {
        SideIsSuffix(init, p, |init|);
      } else {
        SideIsSuffix(init, p, k);
        assert rows[k..] == init[k..] + [rows[|rows| - 1]];
      }
    }
  }

  lemma {:induction false} SideOfNone(rows: Log, ascending: bool)
    ensures Side(rows, None, ascending) == rows
  {
    if rows != [] {
      SideOfNone(rows[..|rows| - 1], ascending);
      assert rows == rows[..|rows| - 1] + [rows[|rows| - 1]];
    }
  }

  // Where an ascending page starts.
  function Start(rows: Log, from: Option<Position>): (k: nat)
    ensures k <= |rows|
  {
    if from.None? then 0 else Before(rows, from.value)
  }

  // An ascending page is a contiguous run of the matching events, starting at the first one
  // that is not before the position asked for.
  lemma {:induction false} AscendingPage(log: Log, test: Document -> bool, from: Option<Position>, count: nat)
    requires Ordered(log)
    ensures Page(log, test, from, true, count) == Limited(Selected(log, test)[Start(Selected(log, test), from)..], Limit(count))
  {
    var rows := Selected(log, test);
    SelectedOrdered(log, test);
    if from.None? {
      SideOfNone(rows, true);
    } else {
      SideIsSuffix(rows, from.value, Before(rows, from.value));
    }
  }

  // How many leading rows lie at or before a position.
  function UpTo(rows: Log, p: Position): (k: nat)
    ensures k <= |rows|
    ensures forall i :: 0 <= i < k ==> AtOrAfter(p, rows[i].position)
    ensures k < |rows| ==> !AtOrAfter(p, rows[k].position)
  {
    if rows == [] || !AtOrAfter(p, rows[0].position) then 0 else 1 + UpTo(rows[1..], p)
  }

  lemma {:induction false} SideIsPrefix(rows: Log, p: Position, k: nat)
    requires k <= |rows|
    requires forall i :: 0 <= i < k ==> AtOrAfter(p, rows[i].position)
    requires forall i :: k <= i < |rows| ==> !AtOrAfter(p, rows[i].position)
    ensures Side(rows, Some(p), false) == rows[..k]
  {
    if rows != [] {
      var init := rows[..|rows| - 1];
      if k == |rows| {
        SideIsPrefix(init, p, |init|);
        assert rows == init + [rows[|rows| - 1]];
      } else {
        SideIsPrefix(init, p, k);
        assert init[..k] == rows[..k];
      }
    }
  }

  // A descending page runs backward from the last matching event not after the position
  // asked for, or from the newest one.
  lemma {:induction false} DescendingPage(log: Log, test: Document -> bool, from: Option<Position>, count: nat)
    requires Ordered(log)
    ensures var rows := Selected(log, test);
      var end := if from.None? then |rows| else UpTo(rows, from.value);
      Page(log, test, from, false, count) == Limited(Reversed(rows[..end]), Limit(count))
  {
    var rows := Selected(log, test);
    SelectedOrdered(log, test);
    if from.None? {
      SideOfNone(rows, false);
      assert rows[..|rows|] == rows;
    } else {
      SideIsPrefix(rows, from.value, UpTo(rows, from.value));
    }
  }

  // How many events a page holds of those available: as many as asked for, a thousand when no
  // number is given, and never more than ten thousand.
  function PageSize(count: nat, available: nat): nat {
    var wanted := if count == 0 then 1000 else if count <= 10000 then count else 10000;
    if available <= wanted then available else wanted
  }

  // A page event by event: forward from the first match that is not before the position, or
  // backward from the last one that is not after it.
  lemma {:induction false} PageEventByEvent(log: Log, test: Document -> bool, from: Option<Position>, ascending: bool, count: nat)
    requires Ordered(log)
    ensures var rows, page := Selected(log, test), Page(log, test, from, ascending, count);
      var start, end := Start(rows, from), if from.None? then |rows| else UpTo(rows, from.value);
      && |page| == PageSize(count, if ascending then |rows| - start else end)
      && forall i :: 0 <= i < |page| ==> page[i] == if ascending then rows[start + i] else rows[end - 1 - i]
  {
    hide Selected, Page, Start, UpTo, Ordered, Limited, Limit, Reversed;
    var rows := Selected(log, test);
    if ascending {
      AscendingPage(log, test, from, count);
      LimitedAt(rows[Start(rows, from)..], count);
    } else {
      var end := if from.None? then |rows| else UpTo(rows, from.value);
      DescendingPage(log, test, from, count);
      ReversedAt(rows[..end]);
      LimitedAt(Reversed(rows[..end]), count);
    }
  }

  lemma LimitedAt(rows: Log, count: nat)
    ensures |Limited(rows, Limit(count))| == PageSize(count, |rows|)
    ensures forall i :: 0 <= i < |Limited(rows, Limit(count))| ==> Limited(rows, Limit(count))[i] == rows[i]
  {
  }

  lemma ReversedAt(rows: Log)
    ensures |Reversed(rows)| == |rows| && forall i :: 0 <= i < |rows| ==> Reversed(rows)[i] == rows[|rows| - 1 - i]
  {
  }

  // The first `next` events are those the cursor has passed.
  predicate Passed(events: Log, next: nat, cursor: Option<Position>) {
    if cursor.None? then next == 0
    else forall i :: 0 <= i < |events| ==> (i < next <==> AtOrAfter(cursor.value, events[i].position))
  }

  // What a prefix of the log shows is a prefix of what the whole log will show.
  lemma VisiblePrefix(full: Log, committed: nat, test: Document -> bool)
    requires committed <= |full|
    ensures Selected(full[..committed], test) <= Selected(full, test)
  {
    hide Selected;
    assert full[..committed] + full[committed..] == full;
    SelectedAppend(full[..committed], full[committed..], test);
    PrefixOfSum(Selected(full[..committed], test), Selected(full[committed..], test));
  }

  lemma VisibleGrows(full: Log, a: nat, b: nat, test: Document -> bool)
    requires a <= b <= |full|
    ensures |Selected(full[..a], test)| <= |Selected(full[..b], test)|
  {
    assert full[..b][..a] == full[..a];
    VisiblePrefix(full[..b], a, test);
  }

  lemma PrefixOfSum<T>(a: seq<T>, b: seq<T>)
    ensures a <= a + b
  {
  }

  // Where the page read from the cursor starts: at the cursor's own event if it is there,
  // else at the first event not passed.
  lemma PageStart(events: Log, visible: Log, next: nat, cursor: Option<Position>)
    requires Ordered(events) && visible <= events && next <= |events| && Passed(events, next, cursor)
    ensures var lo := Start(visible, cursor);
      && (lo < |visible| && cursor == Some(visible[lo].position) ==> lo == next - 1)
      && (lo < |visible| && cursor != Some(visible[lo].position) ==> lo == next)
      && (lo == |visible| ==> |visible| <= next)
  {
    var lo := Start(visible, cursor);
    if cursor.Some? {
      var p := cursor.value;
      if lo > 0 {
        assert visible[lo - 1] == events[lo - 1] && !AtOrAfter(visible[lo - 1].position, p);
        assert lo - 1 < next;
      }
      if lo < |visible| {
        assert visible[lo] == events[lo];
        assert p == visible[lo].position && lo + 1 < |events| ==> !AtOrAfter(p, events[lo + 1].position);
      }
    }
  }

  lemma SuccessorDiffers(events: Log, i: nat)
    requires Ordered(events) && i < |events|
    ensures i > 0 ==> events[i].position != events[i - 1].position
  {
  }

  lemma PassedLast(events: Log, i: nat)
    requires Ordered(events) && i < |events|
    ensures Passed(events, i + 1, Some(events[i].position))
  {
  }

  lemma PrefixOrdered(full: Log, committed: nat)
    requires Ordered(full) && committed <= |full|
    ensures Ordered(full[..committed])
  {
  }

  lemma SliceOfPrefix(rows: Log, k: nat, i: nat, j: nat)
    requires i <= j <= k <= |rows|
    ensures rows[..k][i..j] == rows[i..j]
  {
  }

  // A page read forward from the cursor carries on where the cursor left off, and reaches the
  // end of what is visible unless it is full.
  lemma {:induction false} ForwardPage(full: Log, committed: nat, test: Document -> bool, next: nat, cursor: Option<Position>, count: nat, batch: Log)
    returns (lo: nat)
    requires Ordered(full) && committed <= |full| && Limit(count) == count
    requires next <= |Selected(full, test)| && Passed(Selected(full, test), next, cursor)
    requires batch == Page(full[..committed], test, cursor, true, count)
    ensures |batch| <= count && lo + |batch| <= |Selected(full[..committed], test)| <= |Selected(full, test)|
    ensures batch == Selected(full, test)[lo..lo + |batch|]
    ensures batch != [] ==> lo == if cursor == Some(batch[0].position) then next - 1 else next
    ensures |batch| < count ==> |Selected(full[..committed], test)| <= if batch == [] then next else lo + |batch|
  {
    hide Selected, Passed, Start, Ordered, Page;
    var visible, events := Selected(full[..committed], test), Selected(full, test);
    VisiblePrefix(full, committed, test);
    assert events[..|visible|] == visible;
    PrefixOrdered(full, committed);
    AscendingPage(full[..committed], test, cursor, count);
    SelectedOrdered(full, test);
    PageStart(events, visible, next, cursor);
    lo := Start(visible, cursor);
    assert batch == visible[lo..lo + |batch|];
    SliceOfPrefix(events, |visible|, lo, lo + |batch|);
  }

  // A backward read of one row from the end finds the newest match.
  lemma {:induction false} NewestPage(log: Log, test: Document -> bool)
    ensures var rows := Selected(log, test);
      Page(log, test, None, false, 1) == if rows == [] then [] else [rows[|rows| - 1]]
  {
    hide Selected, Side;
    SideOfNone(Selected(log, test), false);
  }

  // ---- The newest event of each criterion ----

  // The last row a test accepts.
  function NewestRow(log: Log, test: Document -> bool): Option<Row> {
    if log == [] then None
    else if test(log[|log| - 1].doc) then Some(log[|log| - 1])
    else NewestRow(log[..|log| - 1], test)
  }

  function PositionOf(row: Option<Row>): Position {
    if row.Some? then row.value.position else NOT_EXISTS
  }

  lemma {:induction false} NewestRowIsNewest(log: Log, test: Document -> bool)
    requires Ordered(log)
    ensures PositionOf(NewestRow(log, test)) == NewestBy(log, test)
    ensures NewestRow(log, test).Some? ==> NewestRow(log, test).value in log && test(NewestRow(log, test).value.doc)
  {
    if log != [] {
      var init, last := log[..|log| - 1], log[|log| - 1];
      NewestRowIsNewest(init, test);
      assert log == init + [last];
      OrderedAppend(init, last);
    }
  }

  // It is the last of the selected rows.
  lemma {:induction false} NewestRowIsLast(log: Log, test: Document -> bool)
    ensures var rows := Selected(log, test);
      NewestRow(log, test) == if rows == [] then None else Some(rows[|rows| - 1])
  {
    if log != [] {
      NewestRowIsLast(log[..|log| - 1], test);
    }
  }

  lemma {:induction false} NewestRowDependsOnMeaning(log: Log, f: Document -> bool, g: Document -> bool)
    requires forall doc :: f(doc) == g(doc)
    ensures NewestRow(log, f) == NewestRow(log, g)
  {
    if log != [] {
      NewestRowDependsOnMeaning(log[..|log| - 1], f, g);
    }
  }

  function Satisfying(c: Criterion): Document -> bool {
    doc => CriterionHolds(doc, c)
  }

  // The newest event per criterion, in the order given, and the newest position of all.
  datatype Latest = Latest(matches: seq<Option<Row>>, context: Position)

  predicate ReadableCriteria(criteria: Query) {
    criteria != [] && forall c :: c in criteria ==> c != [] && ValidCriterion(c)
  }

  ghost predicate LatestOf(latest: Latest, log: Log, criteria: Query) {
    && |latest.matches| == |criteria|
    && (forall i :: 0 <= i < |criteria| ==> latest.matches[i] == NewestRow(log, Satisfying(criteria[i])))
    && latest.context == Newest(log, criteria)
  }

  method ValidateReadCriteria(criteria: Query) returns (ok: bool)
    ensures ok <==> forall c :: c in criteria ==> ValidCriterion(c)
  {
    for i := 0 to |criteria|
      invariant forall j :: 0 <= j < i ==> ValidCriterion(criteria[j])
    {
      for k := 0 to |criteria[i]|
        invariant forall j :: 0 <= j < k ==> ValidTag(criteria[i][j])
      {
        if !ValidTag(criteria[i][k]) {
          assert criteria[i] in criteria && criteria[i][k] in criteria[i];
          return false;
        }
      }
    }
    ok := true;
  }

  // One snapshot, one lookup per criterion, and a running maximum. The maximum is the newest
  // match of the criteria taken together, which is what an append may later be checked against.
  method GetLatestByCriteria(log: Log, criteria: Query) returns (r: Result<Latest>)
    requires Ordered(log)
    ensures r.Ok? <==> ReadableCriteria(criteria)
    ensures r.Ok? ==> LatestOf(r.value, log, criteria)
    ensures r.Err? ==> r.status == InvalidArgument
  {
    hide ValidCriterion, CriterionHolds, EncodedHolds, Encode, QueryHolds;
    var valid := ValidateReadCriteria(criteria);
    if !valid || |criteria| == 0 {
      return Err(InvalidArgument);
    }
    var matches: seq<Option<Row>> := [];
    var context, found := NOT_EXISTS, false;
    ghost var lookups: seq<Lookup> := [];
    NothingNewest(log);
    for i := 0 to |criteria|
      invariant |matches| == |lookups| == i
      invariant forall j :: 0 <= j < i ==> criteria[j] != [] && lookups[j] == Where(Encode(criteria[j]))
      invariant forall j :: 0 <= j < i ==> matches[j] == NewestRow(log, Satisfying(criteria[j]))
      invariant context == NewestBy(log, SelectingAny(lookups)) && (found || context == NOT_EXISTS)
      invariant AtOrAfter(context, NOT_EXISTS)
    {
      var criterion := criteria[i];
      var anded := EncodeCriterion(criterion);
      EncodeEmpty(criterion);
      if |anded| == 0 {
        assert criteria[i] in criteria;
        return Err(InvalidArgument);
      }
      // Validated tags always render, so the lookup itself is never refused.
      var row := NewestRow(log, Selecting(Where(anded)));
      LookupFindsNewest(log, criterion);
      NewestOfMore(log, lookups, Where(Encode(criterion)));
      lookups := lookups + [Where(anded)];
      matches := matches + [row];
      if row.Some? {
        var p := row.value.position;
        if !found || p.commit > context.commit || (p.commit == context.commit && p.prepare > context.prepare) {
          context, found := p, true;
        }
      }
    }
    assert forall c :: c in criteria ==> c != [] && ValidCriterion(c);
    LookupsOfCriteria(log, criteria, lookups);
    return Ok(Latest(matches, context));
  }

  lemma NothingNewest(log: Log)
    ensures NewestBy(log, SelectingAny([])) == NOT_EXISTS
  {
    NewestIsNewest(log, SelectingAny([]));
  }

  // A criterion's lookup finds its newest match, which lies after (-1, -1).
  lemma LookupFindsNewest(log: Log, c: Criterion)
    requires Ordered(log)
    ensures var row := NewestRow(log, Selecting(Where(Encode(c))));
      && row == NewestRow(log, Satisfying(c))
      && PositionOf(row) == NewestBy(log, Selecting(Where(Encode(c))))
      && (row.Some? ==> After(row.value.position, NOT_EXISTS))
  {
    var f := Selecting(Where(Encode(c)));
    forall doc ensures f(doc) == Satisfying(c)(doc) {
      EncodeKeepsMeaning(doc, c);
    }
    NewestRowDependsOnMeaning(log, f, Satisfying(c));
    NewestRowIsNewest(log, f);
  }

  lemma LookupsOfCriteria(log: Log, criteria: Query, lookups: seq<Lookup>)
    requires criteria != [] && |lookups| == |criteria|
    requires forall j :: 0 <= j < |criteria| ==> criteria[j] != [] && lookups[j] == Where(Encode(criteria[j]))
    ensures NewestBy(log, SelectingAny(lookups)) == Newest(log, criteria)
  {
    hide Encode, EncodedHolds, QueryHolds, LookupHolds;
    var rendered := seq(|criteria|, j requires 0 <= j < |criteria| => Encode(criteria[j]));
    forall doc ensures (exists l :: l in lookups && LookupHolds(doc, l)) <==> QueryHolds(doc, criteria) {
      WhereLookups(doc, rendered, lookups);
      RenderedMeansQuery(doc, criteria, rendered);
    }
    PrunedLookupsExact(log, lookups, criteria);
  }

  // One lookup per criterion, or all rows if there is none.
  function Lookups(rendered: seq<Encoded>): seq<Lookup> {
    if rendered == [] then [AllRows] else seq(|rendered|, j requires 0 <= j < |rendered| => Where(rendered[j]))
  }

  lemma RenderedLookups(doc: Document, criteria: Query, rendered: seq<Encoded>)
    requires forall e :: e in rendered <==> exists c :: c in criteria && c != [] && Encode(c) == e
    ensures SomeLookupHolds(doc, Lookups(rendered)) <==> QueryHolds(doc, criteria)
  {
    if rendered == [] {
      assert LookupHolds(doc, Lookups(rendered)[0]);
      assert forall c :: c in criteria && c != [] ==> Encode(c) in rendered;
    } else {
      hide Encode, EncodedHolds, QueryHolds, LookupHolds;
      WhereLookups(doc, rendered, Lookups(rendered));
      RenderedMeansQuery(doc, criteria, rendered);
    }
  }

  // The page of the rendered criteria is the page of the query.
  lemma RenderedPage(log: Log, criteria: Query, rendered: seq<Encoded>, from: Option<Position>, ascending: bool, count: nat)
    requires forall e :: e in rendered <==> exists c :: c in criteria && c != [] && Encode(c) == e
    ensures Page(log, SelectingAny(Lookups(rendered)), from, ascending, count) == Page(log, Matching(criteria), from, ascending, count)
  {
    hide Encode, Lookups, SomeLookupHolds, QueryHolds, Selected;
    forall i | 0 <= i < |log| ensures SelectingAny(Lookups(rendered))(log[i].doc) == Matching(criteria)(log[i].doc) {
      RenderedLookups(log[i].doc, criteria, rendered);
    }
    SelectedDependsOnMeaning(log, SelectingAny(Lookups(rendered)), Matching(criteria));
  }

  // ---- A store that others append to ----

  // A boundary's log as one reader sees it: events are only ever added at the end, and each
  // read sees at least as much as the one before.
  class Source {
    const full: Log
    var committed: nat
    // How many reads the store has failed.
    ghost var failures: nat

    constructor (full: Log, committed: nat)
      ensures this.full == full && this.committed == committed && failures == 0
    {
      this.full, this.committed, failures := full, committed, 0;
    }

    ghost predicate Valid()
      reads this
    {
      Ordered(full) && committed <= |full|
    }

    ghost function Visible(): Log
      requires Valid()
      reads this
    {
      full[..committed]
    }

    // One read, of the rows the rendered criteria select. It may fail, and any number of events
    // may have been committed before it.
    method GetBatch(query: Query, from: Option<Position>, ascending: bool, count: nat) returns (r: Result<Log>)
      requires Valid()
      modifies this
      ensures Valid() && old(committed) <= committed
      ensures r == Err(InvalidArgument) <==> exists c :: c in query && !ValidCriterion(c)
      ensures r.Ok? ==> r.value == Page(Visible(), Matching(query), from, ascending, count)
      ensures r.Err? ==> r.status in {InvalidArgument, Internal}
      ensures failures == old(failures) + (if r == Err(Internal) then 1 else 0)
    {
      hide ValidCriterion, Page, Ordered, Encode, Renderable;
      var valid := ValidateReadCriteria(query);
      if !valid {
        return Err(InvalidArgument);
      }
      // Validated tags always render, so the criteria are not refused a second time.
      forall c | c in query ensures Renderable(Encode(c)) {
        ValidCriterionRenders(c);
      }
      var rendered := RenderCriteria(query);
      var now: nat :| committed <= now <= |full|;
      committed := now;
      var fails: bool := *;
      if fails {
        failures := failures + 1;
        return Err(Internal);
      }
      r := Ok(Page(full[..committed], SelectingAny(Lookups(rendered.value)), from, ascending, count));
      RenderedPage(full[..committed], query, rendered.value, from, ascending, count);
    }
  }
}
