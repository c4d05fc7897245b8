// The subscription reader (orisun/subscription_drain.go): paging forward from a cursor over a
// log that grows meanwhile, and the coalesced wake-ups that set it going.
module SubscriptionDrain {
  import opened Common
  import opened Tags
  import opened EventLog
  import opened EventReads

  const BATCH_SIZE := 100

  // ---- What a page must look like ----

  // At most `count` rows, ascending, none before the cursor; only the first may be the
  // cursor's own event.
  predicate WellFormed(cursor: Option<Position>, batch: Log, count: nat) {
    && |batch| <= count
    && (forall i, j :: 0 <= i < j < |batch| ==> After(batch[j].position, batch[i].position))
    && (cursor.Some? && batch != [] ==> AtOrAfter(batch[0].position, cursor.value))
  }

  // validate: each row against the one before it.
  method Validate(cursor: Option<Position>, batch: Log, count: nat) returns (ok: bool)
    ensures ok <==> WellFormed(cursor, batch, count)
  {
    if |batch| > count {
      return false;
    }
    var previous := cursor;
    for i := 0 to |batch|
      invariant forall k, j :: 0 <= k < j < i ==> After(batch[j].position, batch[k].position)
      invariant i > 0 ==> previous == Some(batch[i - 1].position)
      invariant i == 0 ==> previous == cursor
      invariant i > 0 && cursor.Some? ==> AtOrAfter(batch[0].position, cursor.value)
    {
      var position := batch[i].position;
      if previous.Some? && !After(position, previous.value) {
        if i != 0 || position != previous.value {
          return false;
        }
      }
      previous := Some(position);
    }
    ok := true;
  }

  function Count(initial: bool): nat {
    if initial then 1 else BATCH_SIZE
  }

  // What a turn reads: the newest match for the first look, then forward from the cursor.
  function Read(visible: Log, test: Document -> bool, cursor: Option<Position>, initial: bool): Log {
    Page(visible, test, if initial then None else cursor, !initial, Count(initial))
  }

  // Where a subscription without a position begins, having seen so much of the log.
  function FirstAt(visible: Log, test: Document -> bool): nat {
    var seen := |Selected(visible, test)|;
    if seen == 0 then 0 else seen - 1
  }

  // A full page, and the first event of all, call for another turn.
  predicate CallsForMore(initial: bool, batch: Log) {
    batch != [] && (initial || |batch| == BATCH_SIZE)
  }

  // ---- Progress ----

  lemma UpToPassed(rows: Log, p: Position)
    requires Ordered(rows)
    ensures Passed(rows, UpTo(rows, p), Some(p))
  {
  }

  // The page just read is a run of the matching events, starting at the newest one seen for
  // the first look and else where the cursor left off.
  lemma PageAt(full: Log, committed: nat, test: Document -> bool, next: nat, cursor: Option<Position>, initial: bool, batch: Log)
    returns (lo: nat)
    requires Ordered(full) && committed <= |full|
    requires !initial ==> next <= |Selected(full, test)| && Passed(Selected(full, test), next, cursor)
    requires batch == Read(full[..committed], test, cursor, initial)
    ensures |batch| <= BATCH_SIZE && lo + |batch| <= |Selected(full[..committed], test)| <= |Selected(full, test)|
    ensures batch == Selected(full, test)[lo..lo + |batch|]
    ensures initial ==> lo == FirstAt(full[..committed], test) && lo + |batch| == |Selected(full[..committed], test)| && |batch| <= 1
    ensures initial && batch == [] ==> lo == 0
    ensures !initial && batch != [] ==> lo == if cursor == Some(batch[0].position) then next - 1 else next
    ensures !initial && |batch| < BATCH_SIZE ==> |Selected(full[..committed], test)| <= if batch == [] then next else lo + |batch|
  {
    hide Selected, Passed, Start, Ordered, Page;
    var visible, events := Selected(full[..committed], test), Selected(full, test);
    if initial {
      VisiblePrefix(full, committed, test);
      NewestPage(full[..committed], test);
      lo := if visible == [] then 0 else |visible| - 1;
      assert batch == visible[lo..];
      SliceOfPrefix(events, |visible|, lo, lo + |batch|);
    } else {
      lo := ForwardPage(full, committed, test, next, cursor, BATCH_SIZE, batch);
    }
  }

  // Being contiguous, what is delivered ascends strictly: nothing is skipped or repeated.
  lemma {:induction false} RunAscends(events: Log, i: nat, j: nat)
    requires Ordered(events) && i <= j <= |events|
    ensures Ordered(events[i..j])
  {
  }

  // The page that was asked for is never refused.
  lemma TruePagePasses(full: Log, committed: nat, test: Document -> bool, next: nat, cursor: Option<Position>, initial: bool)
    requires Ordered(full) && committed <= |full|
    requires if initial then cursor == None else next <= |Selected(full, test)| && Passed(Selected(full, test), next, cursor)
    ensures WellFormed(cursor, Read(full[..committed], test, cursor, initial), Count(initial))
  {
    hide Selected, Read, Passed, Ordered;
    var events, batch := Selected(full, test), Read(full[..committed], test, cursor, initial);
    SelectedOrdered(full, test);
    var lo := PageAt(full, committed, test, next, cursor, initial, batch);
    RunPasses(events, lo, lo + |batch|, next, cursor);
  }

  lemma RunPasses(events: Log, i: nat, j: nat, next: nat, cursor: Option<Position>)
    requires Ordered(events) && i <= j <= |events| && (cursor.Some? ==> Passed(events, next, cursor))
    requires cursor.Some? && i < j ==> i == if cursor == Some(events[i].position) then next - 1 else next
    ensures WellFormed(cursor, events[i..j], j - i)
  {
    RunAscends(events, i, j);
    if cursor.Some? && i < j {
      assert events[i..j][0] == events[i];
    }
  }

  datatype Turn = Failed | Finished | Again

  lemma NothingPassed(events: Log)
    ensures Passed(events, 0, None)
  {
  }

  class Subscription {
    const source: Source
    const query: Query
    var cursor: Option<Position>
    var initialized: bool
    var delivered: Log
    // The index, among all matching events, of the first one delivered or to be delivered.
    ghost var start: nat
    // How often the subscription was found inactive, its handler failed, or a page was not the
    // one asked for.
    ghost var setbacks: nat

    ghost function Events(): Log {
      Selected(source.full, Matching(query))
    }

    ghost function Next(): nat
      reads this
    {
      start + |delivered|
    }

    // What has been delivered is a contiguous run of the matching events.
    ghost predicate Contiguous()
      reads this
    {
      Next() <= |Events()| && delivered == Events()[start..Next()]
    }

    ghost predicate Valid()
      reads this, source
    {
      && source.Valid()
      && (!initialized ==> cursor == None && delivered == [])
      && (initialized ==> Contiguous() && Passed(Events(), Next(), cursor))
    }

    // The backend refuses the query.
    ghost predicate Refused() {
      exists c :: c in query && !ValidCriterion(c)
    }

    // Something outside has gone wrong since.
    ghost predicate SetBack(failures: nat, setbacks: nat)
      reads this, source
    {
      source.failures > failures || this.setbacks > setbacks || Refused()
    }

    constructor (source: Source, query: Query, after: Option<Position>)
      requires source.Valid()
      ensures Valid() && this.source == source && this.query == query && delivered == [] && setbacks == 0
      ensures cursor == after && initialized == after.Some?
    {
      this.source, this.query := source, query;
      cursor, initialized, delivered, setbacks := after, after.Some?, [], 0;
      start := if after.Some? then UpTo(Selected(source.full, Matching(query)), after.value) else 0;
      new;
      if after.Some? {
        SelectedOrdered(source.full, Matching(query));
        UpToPassed(Events(), after.value);
      }
    }

    // One read by the backend: the page asked for, an error, or a page whose positions give
    // away that it is not the one asked for.
    method Fetch(initial: bool) returns (r: Result<Log>)
      requires source.Valid()
      modifies source, this`setbacks
      ensures source.Valid() && old(source.committed) <= source.committed
      ensures r.Ok? && WellFormed(cursor, r.value, Count(initial)) ==> r.value == Read(source.Visible(), Matching(query), cursor, initial)
      ensures old(source.failures) <= source.failures && old(setbacks) <= setbacks
      ensures r.Err? ==> source.failures > old(source.failures) || Refused()
      ensures r.Ok? && setbacks == old(setbacks) ==> r.value == Read(source.Visible(), Matching(query), cursor, initial)
    {
      hide Page, WellFormed;
      r := source.GetBatch(query, if initial then None else cursor, !initial, Count(initial));
      var broken: bool := *;
      if broken {
        var rows: Log := *;
        if !WellFormed(cursor, rows, Count(initial)) {
          r := Ok(rows);
          setbacks := setbacks + 1;
        }
      }
    }

    // Hands the next event on and moves the cursor to it, unless the subscription is no longer
    // active or the handler fails.
    method HandOn(event: Row) returns (ok: bool)
      requires Ordered(Events()) && Contiguous() && Next() < |Events()| && event == Events()[Next()]
      modifies this`cursor, this`delivered, this`setbacks
      ensures Contiguous()
      ensures setbacks == old(setbacks) + (if ok then 0 else 1)
      ensures ok ==> delivered == old(delivered) + [event] && cursor == Some(event.position) && Passed(Events(), Next(), cursor)
      ensures !ok ==> delivered == old(delivered) && cursor == old(cursor)
    {
      hide Selected, Passed, Ordered;
      var active: bool, handled: bool := *, *;
      if !active || !handled {
        setbacks := setbacks + 1;
        return false;
      }
      PassedLast(Events(), Next());
      assert Events()[start..Next()] + [event] == Events()[start..Next() + 1];
      delivered := delivered + [event];
      cursor := Some(event.position);
      ok := true;
    }

    // Hands the events of a page on in turn, passing over the cursor's own, until one fails.
    method DeliverBatch(batch: Log, ghost lo: nat) returns (ok: bool)
      requires source.Valid() && Contiguous() && (cursor.Some? ==> Passed(Events(), Next(), cursor))
      requires lo + |batch| <= |Events()| && batch == Events()[lo..lo + |batch|]
      requires batch != [] ==> lo == if cursor == Some(batch[0].position) then Next() - 1 else Next()
      requires !initialized ==> |batch| <= 1 && cursor == None && delivered == []
      modifies this`cursor, this`delivered, this`setbacks
      ensures Contiguous() && old(delivered) <= delivered
      ensures if ok then setbacks == old(setbacks) else setbacks > old(setbacks)
      ensures if ok && batch != [] then Next() == lo + |batch| && cursor == Some(batch[|batch| - 1].position)
              else ok ==> delivered == old(delivered) && cursor == old(cursor)
      ensures cursor.Some? ==> Passed(Events(), Next(), cursor)
      ensures cursor == None ==> old(cursor) == None && delivered == old(delivered)
      ensures !ok && !initialized ==> cursor == None && delivered == []
    {
      hide Selected, Passed, Ordered, Contiguous;
      ghost var events := Events();
      SelectedOrdered(source.full, Matching(query));
      for i := 0 to |batch|
        invariant Contiguous() && old(delivered) <= delivered && setbacks == old(setbacks)
        invariant i == 0 ==> delivered == old(delivered) && cursor == old(cursor)
        invariant i > 0 ==> Next() == lo + i && cursor == Some(batch[i - 1].position)
        invariant cursor.Some? ==> Passed(events, Next(), cursor)
      {
        var event := batch[i];
        assert event == events[lo + i];
        SuccessorDiffers(events, lo + i);
        if cursor.Some? && event.position == cursor.value {
          continue;
        }
        var handled := HandOn(event);
        if !handled {
          return false;
        }
      }
      ok := true;
    }

    // A read that passes validation, and where it lies among the matching events.
    method ReadPage(initial: bool) returns (r: Option<Log>, ghost lo: nat)
      requires Valid() && initial == !initialized
      modifies source, this`setbacks
      ensures source.Valid() && old(source.committed) <= source.committed
      ensures old(source.failures) <= source.failures && old(setbacks) <= setbacks
      ensures r.None? ==> SetBack(old(source.failures), old(setbacks))
      ensures r.Some? ==> lo + |r.value| <= |Events()| && r.value == Events()[lo..lo + |r.value|]
      ensures var seen := |Selected(source.Visible(), Matching(query))|;
        r.Some? ==>
          && (initial ==> lo == FirstAt(source.Visible(), Matching(query)) && lo + |r.value| == seen && |r.value| <= 1 && (r.value == [] ==> lo == 0))
          && (!initial && r.value != [] ==> lo == if cursor == Some(r.value[0].position) then Next() - 1 else Next())
          && (!initial && |r.value| < BATCH_SIZE ==> seen <= if r.value == [] then Next() else lo + |r.value|)
    {
      hide Selected, Page, Read, WellFormed, Ordered, Passed, FirstAt, ValidCriterion;
      r, lo := None, 0;
      var active: bool := *;
      if !active {
        setbacks := setbacks + 1;
        return;
      }
      var batch := Fetch(initial);
      if batch.Err? {
        return;
      }
      var wellFormed := Validate(cursor, batch.value, Count(initial));
      if !wellFormed {
        if setbacks == old(setbacks) {
          TruePagePasses(source.full, source.committed, Matching(query), Next(), cursor, initial);
        }
        return;
      }
      lo := PageAt(source.full, source.committed, Matching(query), Next(), cursor, initial, batch.value);
      r := Some(batch.value);
    }

    // One turn of drain's loop: one read and the delivery of its page.
    method Round() returns (round: Turn)
      requires Valid()
      modifies this`cursor, this`initialized, this`delivered, this`start, this`setbacks, source
      ensures Valid() && old(source.committed) <= source.committed && old(delivered) <= delivered
      ensures old(initialized) ==> initialized && start == old(start)
      ensures !old(initialized) && initialized ==> start == FirstAt(source.Visible(), Matching(query))
      ensures old(source.failures) <= source.failures && old(setbacks) <= setbacks
      ensures round == Failed ==> SetBack(old(source.failures), old(setbacks))
      ensures round == Finished ==> initialized && |Selected(source.Visible(), Matching(query))| <= Next()
      ensures round == Again ==> initialized && (old(initialized) ==> Next() > old(Next()))
    {
      hide Selected, Ordered, Passed, FirstAt, Refused;
      var initial := !initialized;
      ghost var lo;
      var batch;
      batch, lo := ReadPage(initial);
      if batch.None? {
        return Failed;
      }
      if initial {
        start := lo;
      }
      var handled := DeliverBatch(batch.value, lo);
      if !handled {
        return Failed;
      }
      initialized := true;
      NothingPassed(Events());
      if |batch.value| == 0 || (!initial && |batch.value| < BATCH_SIZE) {
        return Finished;
      }
      return Again;
    }

    // drain. With or without success what is delivered stays a contiguous run of the matching
    // events; on success it reaches the end of what the last read saw, and it fails only if
    // something outside it did. `first` is how much of
    // the log a subscription without a position saw when it first looked.
    method Drain() returns (ok: bool, ghost first: nat)
      requires Valid()
      modifies this`cursor, this`initialized, this`delivered, this`start, this`setbacks, source
      ensures Valid() && old(source.committed) <= source.committed && old(delivered) <= delivered
      ensures old(initialized) ==> initialized && start == old(start)
      ensures !old(initialized) && initialized ==> old(source.committed) <= first <= source.committed && start == FirstAt(source.full[..first], Matching(query))
      ensures ok ==> initialized && |Selected(source.Visible(), Matching(query))| <= Next()
      ensures !ok ==> SetBack(old(source.failures), old(setbacks))
    {
      hide Selected, Ordered, Passed, FirstAt, ValidCriterion;
      first := 0;
      while true
        invariant Valid() && old(source.committed) <= source.committed && old(delivered) <= delivered
        invariant old(source.failures) <= source.failures && old(setbacks) <= setbacks
        invariant old(initialized) ==> initialized && start == old(start)
        invariant !old(initialized) && initialized ==> old(source.committed) <= first <= source.committed && start == FirstAt(source.full[..first], Matching(query))
        decreases if initialized then 0 else 1, |Events()| - Next()
      {
        var initial := !initialized;
        var round := Round();
        if initial && initialized {
          first := source.committed;
        }
        if round != Again {
          ok := round == Finished;
          return;
        }
      }
    }
  }
}
