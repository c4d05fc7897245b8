// The coalesced wake-up of a subscription (orisun/subscription_drain.go), as atomic steps of
// committers, notification receivers and the one reader, which pages as in SubscriptionDrain.
module SubscriptionWakeups {
  import opened Common
  import opened Tags
  import opened EventLog
  import opened EventReads
  import opened SubscriptionDrain

  // Where the reader stands: waiting for a wake-up, about to read, with the rest of a page to
  // hand on (and `more` reads to follow), or stopped by an error.
  datatype Reader = Idle | Reading | Delivering(rest: Log, more: bool) | Stopped

  // The first `committed` events of the log exist, the first `hinted` of them before the latest
  // hint. `start` is the index, among all matching events, of the first one to be delivered.
  datatype State = State(
    committed: nat, hinted: nat, pending: bool,
    cursor: Option<Position>, initialized: bool, start: nat, delivered: Log, reader: Reader)

  datatype Step = Commit | Hint | Take | ReadPage | HandOn | FinishPage | Stop

  // A subscription begins after a given position or, with none given, at the newest event its
  // first read finds.
  ghost predicate Initial(full: Log, query: Query, s: State) {
    && s.hinted == 0 && s.committed <= |full| && !s.pending && s.reader == Idle && s.delivered == []
    && s.initialized == s.cursor.Some?
    && s.start == if s.cursor.Some? then UpTo(Selected(full, Matching(query)), s.cursor.value) else 0
  }

  predicate Enabled(full: Log, s: State, step: Step) {
    match step
    case Commit => s.committed < |full|
    case Hint => true
    case Take => s.reader == Idle && s.pending
    case ReadPage => s.reader == Reading
    case HandOn => s.reader.Delivering? && s.reader.rest != []
    case FinishPage => s.reader.Delivering? && s.reader.rest == []
    case Stop => true
  }

  function Apply(full: Log, query: Query, s: State, step: Step): State
    requires s.committed <= |full| && Enabled(full, s, step)
  {
    match step
    case Commit => s.(committed := s.committed + 1)
    // A slot already full stays full.
    case Hint => s.(pending := true, hinted := s.committed)
    // The wake-up is taken before the read it causes.
    case Take => s.(pending := false, reader := Reading)
    case ReadPage =>
      var visible := full[..s.committed];
      var batch := Read(visible, Matching(query), s.cursor, !s.initialized);
      s.(start := if s.initialized then s.start else FirstAt(visible, Matching(query)),
         reader := Delivering(batch, CallsForMore(!s.initialized, batch)))
    // The cursor's own event is passed over.
    case HandOn =>
      var event, left := s.reader.rest[0], Delivering(s.reader.rest[1..], s.reader.more);
      if s.cursor == Some(event.position) then s.(reader := left)
      else s.(delivered := s.delivered + [event], cursor := Some(event.position), reader := left)
    case FinishPage => s.(initialized := true, reader := if s.reader.more then Reading else Idle)
    case Stop => s.(reader := Stopped)
  }

  // A run takes each step that is possible when its turn comes.
  function Run(full: Log, query: Query, s: State, steps: seq<Step>): (t: State)
    requires s.committed <= |full|
    ensures t.committed <= |full|
  {
    if steps == [] then s
    else
      var t, step := Run(full, query, s, steps[..|steps| - 1]), steps[|steps| - 1];
      if Enabled(full, t, step) then Apply(full, query, t, step) else t
  }

  // ---- What every interleaving keeps ----

  function Next(s: State): nat {
    s.start + |s.delivered|
  }

  // The index of the first event of the page at hand, and of the first one after it.
  function From(s: State): int
    requires s.reader.Delivering?
  {
    if s.reader.rest != [] && s.cursor == Some(s.reader.rest[0].position) then Next(s) - 1 else Next(s)
  }

  function End(s: State): int
    requires s.reader.Delivering?
  {
    From(s) + |s.reader.rest|
  }

  ghost predicate InPage(events: Log, s: State)
    requires s.reader.Delivering?
  {
    && 0 <= From(s) && End(s) <= |events| && s.reader.rest == events[From(s)..End(s)]
    && (!s.initialized && s.reader.rest != [] ==> s.cursor.None? && |s.reader.rest| == 1)
    && (!s.initialized && s.reader.rest == [] && s.cursor.None? ==> s.start == 0)
  }

  // What has been delivered is a contiguous run of the matching events, and the cursor is at
  // its end.
  ghost predicate Contiguous(events: Log, s: State) {
    && Next(s) <= |events| && s.delivered == events[s.start..Next(s)]
    && (if s.cursor.Some? then Passed(events, Next(s), s.cursor) else s.delivered == [])
  }

  ghost predicate Inv(full: Log, query: Query, s: State) {
    && s.hinted <= s.committed <= |full|
    && Contiguous(Selected(full, Matching(query)), s)
    && (s.cursor.None? && (s.initialized || s.reader == Idle || s.reader == Reading) ==> s.start == 0)
    && (!s.initialized && (s.reader == Idle || s.reader == Reading) ==> s.cursor.None?)
    && (s.reader.Delivering? ==> InPage(Selected(full, Matching(query)), s))
  }

  ghost function Hinted(full: Log, query: Query, s: State): Log
    requires s.hinted <= |full|
  {
    Selected(full[..s.hinted], Matching(query))
  }

  // Every event committed and then hinted is behind the cursor, or a wake-up is pending, or
  // the reader has it in the page at hand or has another read to make.
  ghost predicate Accounted(full: Log, query: Query, s: State)
    requires s.hinted <= |full|
  {
    || |Hinted(full, query, s)| <= Next(s)
    || s.pending
    || s.reader == Reading
    || (s.reader.Delivering? && (s.reader.more || |Hinted(full, query, s)| <= End(s)))
    || s.reader == Stopped
  }

  // ---- Reading a page ----

  // The read reaches the end of what is visible, or is full, or is the first.
  ghost predicate ReachesOn(visible: nat, s: State, t: State)
    requires t.reader.Delivering?
  {
    && |t.reader.rest| <= BATCH_SIZE && End(t) <= Larger(visible, Next(t)) && Next(t) >= Next(s)
    && (t.reader.more || visible <= End(t))
    && (s.initialized ==> Next(t) == Next(s) && (t.reader.more ==> End(t) >= Next(s) + BATCH_SIZE - 1))
    && (!s.initialized ==> visible == End(t) && |t.reader.rest| <= 1)
  }

  function Larger(a: int, b: int): int {
    if a >= b then a else b
  }

  lemma FirstPage(events: Log, s: State, t: State, lo: nat)
    requires s.cursor.None? && s.delivered == [] && !s.initialized && t.reader.Delivering?
    requires t == s.(start := lo, reader := t.reader) && lo + |t.reader.rest| <= |events| && t.reader.rest == events[lo..lo + |t.reader.rest|]
    requires |t.reader.rest| <= 1 && (t.reader.rest == [] ==> lo == 0)
    ensures Contiguous(events, t) && InPage(events, t) && Next(t) == lo && End(t) == lo + |t.reader.rest|
  {
    assert events[lo..lo] == [];
  }

  lemma NothingYet(events: Log, s: State)
    requires Contiguous(events, s) && s.cursor.None? && s.start == 0
    ensures s.delivered == [] && Next(s) == 0
  {
  }

  lemma FirstPageReaches(visible: nat, s: State, t: State, lo: nat)
    requires !s.initialized && t.reader.Delivering? && |t.reader.rest| <= 1
    requires Next(s) == 0 && Next(t) == lo && End(t) == lo + |t.reader.rest| == visible
    ensures ReachesOn(visible, s, t)
  {
    hide End;
  }

  lemma ReadFirstKeeps(full: Log, query: Query, s: State)
    requires Ordered(full) && Inv(full, query, s) && s.reader == Reading && !s.initialized
    ensures var t := Apply(full, query, s, ReadPage);
      Inv(full, query, t) && ReachesOn(|Selected(full[..s.committed], Matching(query))|, s, t)
  {
    hide Selected, Read, Ordered, Passed, Contiguous, InPage, FirstAt, CallsForMore, ReachesOn, End;
    var test, t := Matching(query), Apply(full, query, s, ReadPage);
    var events, batch := Selected(full, test), Read(full[..s.committed], test, s.cursor, true);
    NothingYet(events, s);
    var lo := PageAt(full, s.committed, test, 0, None, true, batch);
    assert t == s.(start := lo, reader := Delivering(batch, CallsForMore(true, batch)));
    FirstPage(events, s, t, lo);
    FirstPageReaches(|Selected(full[..s.committed], test)|, s, t, lo);
  }

  lemma NextPage(events: Log, s: State, t: State, lo: nat)
    requires Contiguous(events, s) && s.initialized && t.reader.Delivering? && t == s.(reader := t.reader)
    requires lo + |t.reader.rest| <= |events| && t.reader.rest == events[lo..lo + |t.reader.rest|]
    requires t.reader.rest != [] ==> lo == if s.cursor == Some(t.reader.rest[0].position) then Next(s) - 1 else Next(s)
    ensures Contiguous(events, t) && InPage(events, t) && Next(t) == Next(s)
    ensures if t.reader.rest == [] then End(t) == Next(s) else From(t) == lo && End(t) == lo + |t.reader.rest|
  {
    hide Passed;
    assert events[Next(s)..Next(s)] == [];
  }

  lemma NextPageReaches(visible: nat, s: State, t: State, lo: nat)
    requires s.initialized && t.reader.Delivering? && t == s.(reader := t.reader) && t.reader.more == CallsForMore(false, t.reader.rest)
    requires |t.reader.rest| <= BATCH_SIZE && lo + |t.reader.rest| <= visible
    requires t.reader.rest != [] ==> lo == if s.cursor == Some(t.reader.rest[0].position) then Next(s) - 1 else Next(s)
    requires |t.reader.rest| < BATCH_SIZE ==> visible <= if t.reader.rest == [] then Next(s) else lo + |t.reader.rest|
    ensures ReachesOn(visible, s, t)
  {
  }

  lemma ReadOnKeeps(full: Log, query: Query, s: State)
    requires Ordered(full) && Inv(full, query, s) && s.reader == Reading && s.initialized
    ensures var t := Apply(full, query, s, ReadPage);
      Inv(full, query, t) && ReachesOn(|Selected(full[..s.committed], Matching(query))|, s, t)
  {
    hide Selected, Read, Ordered, Passed, Contiguous, InPage, ReachesOn, End, CallsForMore;
    var test, t := Matching(query), Apply(full, query, s, ReadPage);
    var events, batch := Selected(full, test), Read(full[..s.committed], test, s.cursor, false);
    PassedSoFar(events, s);
    var lo := PageAt(full, s.committed, test, Next(s), s.cursor, false, batch);
    assert t == s.(reader := Delivering(batch, CallsForMore(false, batch)));
    NextPage(events, s, t, lo);
    NextPageReaches(|Selected(full[..s.committed], test)|, s, t, lo);
  }

  lemma PassedSoFar(events: Log, s: State)
    requires Contiguous(events, s) && (s.cursor.None? ==> s.start == 0)
    ensures Next(s) <= |events| && Passed(events, Next(s), s.cursor)
  {
  }

  lemma ReadKeeps(full: Log, query: Query, s: State)
    requires Ordered(full) && Inv(full, query, s) && s.reader == Reading
    ensures var t := Apply(full, query, s, ReadPage);
      && Inv(full, query, t) && Accounted(full, query, t)
      && ReachesOn(|Selected(full[..s.committed], Matching(query))|, s, t)
  {
    VisibleGrows(full, s.hinted, s.committed, Matching(query));
    if s.initialized {
      ReadOnKeeps(full, query, s);
    } else {
      ReadFirstKeeps(full, query, s);
    }
    hide Selected, Read, Ordered, Inv;
  }

  // ---- Handing on ----

  lemma SliceTail(events: Log, from: nat, end: nat)
    requires from < end <= |events|
    ensures events[from..end][0] == events[from] && events[from..end][1..] == events[from + 1..end]
    ensures from + 1 < end ==> events[from + 1..end][0] == events[from + 1]
  {
  }

  lemma RunGrows(events: Log, start: nat, next: nat)
    requires start <= next < |events|
    ensures events[start..next] + [events[next]] == events[start..next + 1]
  {
  }

  lemma PassOverKeeps(events: Log, s: State)
    requires Ordered(events) && Contiguous(events, s) && s.reader.Delivering? && s.reader.rest != [] && InPage(events, s)
    requires s.cursor == Some(s.reader.rest[0].position)
    ensures var t := s.(reader := Delivering(s.reader.rest[1..], s.reader.more)); InPage(events, t) && End(t) == End(s)
  {
    hide Contiguous, Ordered;
    SliceTail(events, From(s), End(s));
    if From(s) + 1 < |events| {
      SuccessorDiffers(events, From(s) + 1);
    }
  }

  lemma DeliverKeeps(events: Log, s: State)
    requires Ordered(events) && Contiguous(events, s) && s.reader.Delivering? && s.reader.rest != [] && InPage(events, s)
    requires s.cursor != Some(s.reader.rest[0].position)
    ensures var event := s.reader.rest[0];
      var t := s.(delivered := s.delivered + [event], cursor := Some(event.position), reader := Delivering(s.reader.rest[1..], s.reader.more));
      Contiguous(events, t) && InPage(events, t) && End(t) == End(s)
  {
    hide Ordered, Passed;
    SliceTail(events, From(s), End(s));
    RunGrows(events, s.start, Next(s));
    PassedLast(events, Next(s));
    if From(s) + 1 < |events| {
      SuccessorDiffers(events, From(s) + 1);
    }
  }

  ghost predicate MovesWithin(s: State, t: State) {
    && s.reader.Delivering? && t.reader.Delivering? && End(t) == End(s) && Next(t) >= Next(s)
    && s.delivered <= t.delivered && |t.reader.rest| < |s.reader.rest| && t.reader.more == s.reader.more
  }

  lemma HandOnKeeps(full: Log, query: Query, s: State)
    requires Ordered(full) && Inv(full, query, s) && Enabled(full, s, HandOn)
    ensures Inv(full, query, Apply(full, query, s, HandOn)) && MovesWithin(s, Apply(full, query, s, HandOn))
  {
    var events := Selected(full, Matching(query));
    SelectedOrdered(full, Matching(query));
    hide Selected, Ordered, Contiguous, InPage;
    if s.cursor == Some(s.reader.rest[0].position) {
      PassOverKeeps(events, s);
      SamePlace(events, s, Apply(full, query, s, HandOn));
    } else {
      DeliverKeeps(events, s);
    }
  }

  lemma SamePlace(events: Log, s: State, t: State)
    requires Contiguous(events, s)
    requires t.cursor == s.cursor && t.start == s.start && t.delivered == s.delivered
    ensures Contiguous(events, t)
  {
  }

  // ---- The other steps ----

  lemma OthersKeep(full: Log, query: Query, s: State, step: Step)
    requires Inv(full, query, s) && Accounted(full, query, s) && Enabled(full, s, step)
    requires step.Commit? || step.Hint? || step.Take? || step.Stop?
    ensures Inv(full, query, Apply(full, query, s, step)) && Accounted(full, query, Apply(full, query, s, step))
  {
    var events, t := Selected(full, Matching(query)), Apply(full, query, s, step);
    hide Selected, Contiguous, InPage;
    SamePlace(events, s, t);
    if t.reader.Delivering? {
      SamePage(events, s, t);
    }
  }

  lemma SamePage(events: Log, s: State, t: State)
    requires s.reader.Delivering? && InPage(events, s)
    requires t == State(t.committed, t.hinted, t.pending, s.cursor, s.initialized, s.start, s.delivered, s.reader)
    ensures InPage(events, t) && End(t) == End(s)
  {
  }

  lemma FinishKeeps(full: Log, query: Query, s: State)
    requires Inv(full, query, s) && Accounted(full, query, s) && Enabled(full, s, FinishPage)
    ensures Inv(full, query, Apply(full, query, s, FinishPage)) && Accounted(full, query, Apply(full, query, s, FinishPage))
  {
    var events, t := Selected(full, Matching(query)), Apply(full, query, s, FinishPage);
    assert s.cursor.None? ==> s.start == 0;
    hide Selected, Contiguous, InPage;
    SamePlace(events, s, t);
  }

  lemma StepKeeps(full: Log, query: Query, s: State, step: Step)
    requires Ordered(full) && Inv(full, query, s) && Accounted(full, query, s) && Enabled(full, s, step)
    ensures Inv(full, query, Apply(full, query, s, step)) && Accounted(full, query, Apply(full, query, s, step))
    ensures s.delivered <= Apply(full, query, s, step).delivered
  {
    if step == ReadPage {
      ReadKeeps(full, query, s);
    } else if step == HandOn {
      HandOnKeeps(full, query, s);
    } else if step == FinishPage {
      FinishKeeps(full, query, s);
    } else {
      OthersKeep(full, query, s, step);
    }
    hide Selected, Ordered, Read, Contiguous, InPage;
  }

  lemma InitialKeeps(full: Log, query: Query, s: State)
    requires Ordered(full) && Initial(full, query, s)
    ensures Inv(full, query, s) && Accounted(full, query, s)
  {
    SelectedOrdered(full, Matching(query));
    assert full[..0] == [];
    if s.cursor.Some? {
      UpToPassed(Selected(full, Matching(query)), s.cursor.value);
    }
  }

  lemma {:induction false} NoLostWakeUp(full: Log, query: Query, s: State, steps: seq<Step>)
    requires Ordered(full) && Initial(full, query, s)
    ensures Inv(full, query, Run(full, query, s, steps)) && Accounted(full, query, Run(full, query, s, steps))
  {
    InitialKeeps(full, query, s);
    hide Inv, Accounted, Ordered, Apply, Enabled;
    if steps != [] {
      NoLostWakeUp(full, query, s, steps[..|steps| - 1]);
      var t, step := Run(full, query, s, steps[..|steps| - 1]), steps[|steps| - 1];
      if Enabled(full, t, step) {
        StepKeeps(full, query, t, step);
      }
    }
  }

  // Everything hinted from the start on has been handed on, in order and without a gap.
  ghost predicate CaughtUp(full: Log, query: Query, s: State)
    requires s.hinted <= |full|
  {
    var hinted := Hinted(full, query, s);
    s.start <= |hinted| ==> hinted[s.start..] <= s.delivered
  }

  lemma PassedIsDelivered(full: Log, query: Query, s: State)
    requires Inv(full, query, s) && |Hinted(full, query, s)| <= Next(s)
    ensures CaughtUp(full, query, s)
  {
    hide Selected, InPage, Passed;
    VisiblePrefix(full, s.hinted, Matching(query));
    var events, hinted := Selected(full, Matching(query)), Hinted(full, query, s);
    if s.start <= |hinted| {
      PrefixSlice(events, hinted, s.start, Next(s));
    }
  }

  lemma PrefixSlice(events: Log, prefix: Log, start: nat, next: nat)
    requires prefix <= events && start <= |prefix| <= next <= |events|
    ensures prefix[start..] <= events[start..next]
  {
    assert forall i :: 0 <= i < |prefix| ==> prefix[i] == events[i];
  }

  // Whenever the reader is back to waiting with no wake-up pending, every hinted event is
  // delivered.
  lemma {:induction false} QuietMeansDelivered(full: Log, query: Query, s: State, steps: seq<Step>)
    requires Ordered(full) && Initial(full, query, s)
    requires Run(full, query, s, steps).reader == Idle && !Run(full, query, s, steps).pending
    ensures var t := Run(full, query, s, steps); t.hinted <= |full| && CaughtUp(full, query, t)
  {
    hide Ordered, Run, Contiguous, InPage, Selected, CaughtUp;
    NoLostWakeUp(full, query, s, steps);
    PassedIsDelivered(full, query, Run(full, query, s, steps));
  }

  // ---- Where it begins ----

  // A subscription after a position begins right after it, in every run.
  lemma {:induction false} BeginsAfterPosition(full: Log, query: Query, s: State, steps: seq<Step>)
    requires Initial(full, query, s) && s.cursor.Some?
    ensures var t := Run(full, query, s, steps);
      t.initialized && t.start == UpTo(Selected(full, Matching(query)), s.cursor.value)
  {
    hide Selected, Read, UpTo;
    if steps != [] {
      BeginsAfterPosition(full, query, s, steps[..|steps| - 1]);
    }
  }

  predicate HasLooked(s: State) {
    s.initialized || s.reader.Delivering?
  }

  lemma LookedOnce(full: Log, query: Query, s: State, step: Step)
    requires s.committed <= |full| && Enabled(full, s, step) && HasLooked(Apply(full, query, s, step))
    ensures if HasLooked(s) then Apply(full, query, s, step).start == s.start
            else step == ReadPage && Apply(full, query, s, step).start == FirstAt(full[..s.committed], Matching(query))
  {
    hide Read, FirstAt;
  }

  // One without a position begins at the newest event its one first look found.
  lemma {:induction false} BeginsAtNewest(full: Log, query: Query, s: State, steps: seq<Step>) returns (k: nat)
    requires Initial(full, query, s) && s.cursor.None?
    requires HasLooked(Run(full, query, s, steps))
    ensures k < |steps| && steps[k] == ReadPage
    ensures var look := Run(full, query, s, steps[..k]);
      && !HasLooked(look) && look.reader == Reading
      && Run(full, query, s, steps).start == FirstAt(full[..look.committed], Matching(query))
  {
    var before := steps[..|steps| - 1];
    var t := Run(full, query, s, before);
    hide Apply, FirstAt;
    if Enabled(full, t, steps[|before|]) {
      LookedOnce(full, query, t, steps[|before|]);
    }
    if HasLooked(t) {
      k := BeginsAtNewest(full, query, s, before);
      assert before[..k] == steps[..k];
    } else {
      k := |before|;
    }
  }

  // ---- The reader settles down ----

  // The reader's own steps, short of stopping.
  predicate Own(step: Step) {
    step.Take? || step.ReadPage? || step.HandOn? || step.FinishPage?
  }

  function Ahead(visible: int, next: int): nat {
    if visible > next then visible - next else 0
  }

  ghost function Visible(full: Log, query: Query, s: State): nat
    requires s.committed <= |full|
  {
    |Selected(full[..s.committed], Matching(query))|
  }

  // A bound on the steps the reader still has before it, with so many matching events visible,
  // if nothing more is committed or hinted.
  function Work(visible: nat, s: State): nat {
    var ahead := Ahead(visible, Next(s));
    var wakeUp := if s.pending then 3 * ahead + 12 else 0;
    wakeUp + (match s.reader
      case Idle => 0
      case Reading => if s.initialized then 3 * ahead + 3 else 10
      case Delivering(rest, more) => |rest| + 1 + (if more then 3 * Ahead(visible, End(s)) + 4 else 0)
      case Stopped => 0)
  }

  // Until it is quiet or stopped the reader has a step to take.
  lemma ReaderMovesOn(full: Log, s: State) returns (step: Step)
    requires s.reader != Stopped && (s.reader != Idle || s.pending)
    ensures Enabled(full, s, step) && Own(step)
  {
    match s.reader
    case Idle => step := Take;
    case Reading => step := ReadPage;
    case Delivering(rest, _) => step := if rest != [] then HandOn else FinishPage;
  }

  lemma ReadCounts(visible: nat, s: State, t: State)
    requires s.reader == Reading && t.reader.Delivering? && t.pending == s.pending && ReachesOn(visible, s, t)
    requires |t.reader.rest| <= Ahead(End(t), Next(t)) + 1
    ensures Work(visible, t) < Work(visible, s)
  {
  }

  lemma HandOnCounts(visible: nat, s: State, t: State)
    requires MovesWithin(s, t) && t.pending == s.pending
    ensures Work(visible, t) < Work(visible, s)
  {
    hide End;
  }

  lemma ShortStepCounts(full: Log, query: Query, s: State, step: Step, visible: nat)
    requires s.committed <= |full| && Enabled(full, s, step) && (step.Take? || step.FinishPage?)
    ensures Work(visible, Apply(full, query, s, step)) < Work(visible, s)
  {
    hide Read, FirstAt;
  }

  // And each step it takes brings it closer to being quiet.
  lemma EveryStepCounts(full: Log, query: Query, s: State, step: Step)
    requires Ordered(full) && Inv(full, query, s) && Enabled(full, s, step) && Own(step)
    ensures var t := Apply(full, query, s, step);
      t.committed == s.committed && t.hinted == s.hinted && Work(Visible(full, query, s), t) < Work(Visible(full, query, s), s)
  {
    var t := Apply(full, query, s, step);
    hide Ordered, Inv, Selected, Read, FirstAt, Work, MovesWithin, ReachesOn;
    if step == ReadPage {
      ReadKeeps(full, query, s);
      ReadCounts(Visible(full, query, s), s, t);
    } else if step == HandOn {
      HandOnKeeps(full, query, s);
      HandOnCounts(Visible(full, query, s), s, t);
    } else {
      ShortStepCounts(full, query, s, step, Visible(full, query, s));
    }
  }

  lemma RunOne(full: Log, query: Query, s: State, steps: seq<Step>, step: Step)
    requires s.committed <= |full| && Enabled(full, Run(full, query, s, steps), step)
    ensures Run(full, query, s, steps + [step]) == Apply(full, query, Run(full, query, s, steps), step)
  {
    hide Apply, Enabled;
    assert (steps + [step])[..|steps|] == steps;
  }

  // Left to itself, from any moment of any run the reader takes finitely many steps of its own
  // and then has delivered everything hinted, unless it was stopped.
  lemma {:induction false} HintedIsDelivered(full: Log, query: Query, s: State, steps: seq<Step>) returns (more: seq<Step>)
    requires Ordered(full) && Initial(full, query, s) && Run(full, query, s, steps).reader != Stopped
    ensures forall step :: step in more ==> Own(step)
    ensures var t := Run(full, query, s, steps + more);
      t.hinted == Run(full, query, s, steps).hinted <= |full| && CaughtUp(full, query, t)
    decreases Work(Visible(full, query, Run(full, query, s, steps)), Run(full, query, s, steps))
  {
    var t := Run(full, query, s, steps);
    hide Ordered, Initial, Run, Selected, CaughtUp, Apply, Work, Matching, Own, Enabled;
    NoLostWakeUp(full, query, s, steps);
    hide Inv, Accounted;
    if t.reader == Idle && !t.pending {
      more := [];
      assert steps + more == steps;
      QuietMeansDelivered(full, query, s, steps);
    } else {
      var step := ReaderMovesOn(full, t);
      EveryStepCounts(full, query, t, step);
      RunOne(full, query, s, steps, step);
      OwnKeepsReader(full, query, t, step);
      var rest := HintedIsDelivered(full, query, s, steps + [step]);
      more := [step] + rest;
      OneMore(steps, step, rest);
    }
  }

  lemma OneMore(steps: seq<Step>, step: Step, rest: seq<Step>)
    requires Own(step) && forall r :: r in rest ==> Own(r)
    ensures steps + ([step] + rest) == steps + [step] + rest
    ensures forall r :: r in [step] + rest ==> Own(r)
  {
    hide Own;
  }

  lemma OwnKeepsReader(full: Log, query: Query, s: State, step: Step)
    requires s.committed <= |full| && Enabled(full, s, step) && Own(step)
    ensures Apply(full, query, s, step).reader != Stopped
  {
    hide Read, FirstAt;
  }

  // ---- Committed, then hinted, then delivered ----

  lemma StepGrows(full: Log, query: Query, s: State, step: Step)
    requires s.hinted <= s.committed <= |full| && Enabled(full, s, step)
    ensures var t := Apply(full, query, s, step);
      && s.committed <= t.committed && s.hinted <= t.hinted <= t.committed
      && (step == Commit ==> t.committed == s.committed + 1) && (step == Hint ==> t.hinted == s.committed)
  {
    hide Read, FirstAt;
  }

  lemma {:induction false} HintedIsCommitted(full: Log, query: Query, s: State, steps: seq<Step>)
    requires s.hinted <= s.committed <= |full|
    ensures Run(full, query, s, steps).hinted <= Run(full, query, s, steps).committed
  {
    hide Apply, Enabled;
    if steps != [] {
      var t, step := Run(full, query, s, steps[..|steps| - 1]), steps[|steps| - 1];
      HintedIsCommitted(full, query, s, steps[..|steps| - 1]);
      if Enabled(full, t, step) {
        StepGrows(full, query, t, step);
      }
    }
  }

  lemma {:induction false} RunGrowsOn(full: Log, query: Query, s: State, steps: seq<Step>, more: seq<Step>)
    requires s.hinted <= s.committed <= |full|
    ensures var a, b := Run(full, query, s, steps), Run(full, query, s, steps + more);
      a.hinted <= a.committed && a.committed <= b.committed && a.hinted <= b.hinted <= b.committed
  {
    hide Apply, Enabled;
    HintedIsCommitted(full, query, s, steps);
    if more == [] {
      assert steps + more == steps;
    } else {
      var init, last := more[..|more| - 1], more[|more| - 1];
      assert (steps + more)[..|steps + more| - 1] == steps + init && (steps + more)[|steps + more| - 1] == last;
      RunGrowsOn(full, query, s, steps, init);
      if Enabled(full, Run(full, query, s, steps + init), last) {
        StepGrows(full, query, Run(full, query, s, steps + init), last);
      }
    }
  }

  // All matching events among the first so many, from the start on, have been delivered in order.
  ghost predicate Delivered(full: Log, query: Query, s: State, committed: nat)
    requires committed <= |full|
  {
    var seen := Selected(full[..committed], Matching(query));
    s.start <= |seen| ==> seen[s.start..] <= s.delivered
  }

  lemma CaughtUpDelivers(full: Log, query: Query, s: State, committed: nat)
    requires committed <= s.hinted <= |full| && CaughtUp(full, query, s)
    ensures Delivered(full, query, s, committed)
  {
    hide Selected;
    assert full[..s.hinted][..committed] == full[..committed];
    VisiblePrefix(full[..s.hinted], committed, Matching(query));
    var seen, hinted := Selected(full[..committed], Matching(query)), Hinted(full, query, s);
    if s.start <= |seen| {
      PrefixTail(seen, hinted, s.start);
    }
  }

  lemma PrefixTail(a: Log, b: Log, start: nat)
    requires a <= b && start <= |a|
    ensures a[start..] <= b[start..]
  {
  }

  lemma HintCounts(full: Log, query: Query, s: State, before: seq<Step>, after: seq<Step>)
    requires s.hinted <= s.committed <= |full|
    ensures Run(full, query, s, before).committed <= Run(full, query, s, before + [Hint] + after).hinted
  {
    hide Apply;
    RunGrowsOn(full, query, s, before, []);
    assert before + [] == before;
    RunOne(full, query, s, before, Hint);
    StepGrows(full, query, Run(full, query, s, before), Hint);
    RunGrowsOn(full, query, s, before + [Hint], after);
  }

  // Everything committed before a hint is delivered by the time the reader is quiet again.
  lemma {:induction false} HintIsHeard(full: Log, query: Query, s: State, before: seq<Step>, after: seq<Step>)
    requires Ordered(full) && Initial(full, query, s)
    requires var t := Run(full, query, s, before + [Hint] + after); t.reader == Idle && !t.pending
    ensures Delivered(full, query, Run(full, query, s, before + [Hint] + after), Run(full, query, s, before).committed)
  {
    hide Run, Ordered, CaughtUp, Delivered;
    assert s.hinted <= s.committed;
    hide Initial;
    HintCounts(full, query, s, before, after);
    QuietMeansDelivered(full, query, s, before + [Hint] + after);
    CaughtUpDelivers(full, query, Run(full, query, s, before + [Hint] + after), Run(full, query, s, before).committed);
  }

  // And from the hint on, finitely many steps of the reader's own deliver it, unless it is stopped.
  lemma {:induction false} HintIsActedOn(full: Log, query: Query, s: State, before: seq<Step>, after: seq<Step>) returns (more: seq<Step>)
    requires Ordered(full) && Initial(full, query, s) && Run(full, query, s, before + [Hint] + after).reader != Stopped
    ensures forall step :: step in more ==> Own(step)
    ensures Delivered(full, query, Run(full, query, s, before + [Hint] + after + more), Run(full, query, s, before).committed)
  {
    hide Run, Ordered, CaughtUp, Delivered, Own;
    assert s.hinted <= s.committed;
    hide Initial;
    HintCounts(full, query, s, before, after);
    more := HintedIsDelivered(full, query, s, before + [Hint] + after);
    CaughtUpDelivers(full, query, Run(full, query, s, before + [Hint] + after + more), Run(full, query, s, before).committed);
  }

  lemma CommitIsSeen(full: Log, query: Query, s: State, before: seq<Step>, between: seq<Step>)
    requires s.hinted <= s.committed <= |full| && Run(full, query, s, before).committed < |full|
    ensures Run(full, query, s, before).committed < Run(full, query, s, before + [Commit] + between).committed
  {
    hide Apply;
    RunGrowsOn(full, query, s, before, []);
    assert before + [] == before;
    RunOne(full, query, s, before, Commit);
    StepGrows(full, query, Run(full, query, s, before), Commit);
    RunGrowsOn(full, query, s, before + [Commit], between);
  }

  lemma DeliveredHasEvent(full: Log, query: Query, s: State, committed: nat, k: nat)
    requires k < committed <= |full| && Delivered(full, query, s, committed)
    requires QueryHolds(full[k].doc, query) && s.start <= |Selected(full[..k], Matching(query))|
    ensures full[k] in s.delivered
  {
    hide QueryHolds;
    var earlier, seen := Selected(full[..k], Matching(query)), Selected(full[..committed], Matching(query));
    assert Selected(full[..k + 1], Matching(query)) == earlier + [full[k]] by {
      assert full[..k + 1][..k] == full[..k] && full[..k + 1][k] == full[k];
    }
    hide Selected;
    assert full[..committed][..k + 1] == full[..k + 1];
    VisiblePrefix(full[..committed], k + 1, Matching(query));
    assert seen[|earlier|] == full[k];
    assert seen[s.start..][|earlier| - s.start] == full[k];
  }

  // An event that matches, committed and then hinted in any interleaving, has been delivered
  // whenever the reader is quiet after that; unless it comes before where the subscription begins.
  lemma {:induction false} CommittedThenHinted(full: Log, query: Query, s: State, before: seq<Step>, between: seq<Step>, after: seq<Step>)
    requires Ordered(full) && Initial(full, query, s) && Run(full, query, s, before).committed < |full|
    requires QueryHolds(full[Run(full, query, s, before).committed].doc, query)
    requires var t := Run(full, query, s, before + [Commit] + between + [Hint] + after);
      && t.reader == Idle && !t.pending
      && t.start <= |Selected(full[..Run(full, query, s, before).committed], Matching(query))|
    ensures full[Run(full, query, s, before).committed] in Run(full, query, s, before + [Commit] + between + [Hint] + after).delivered
  {
    hide Run, Ordered, Delivered, Selected, QueryHolds;
    assert s.hinted <= s.committed <= |full|;
    var k := Run(full, query, s, before).committed;
    CommitIsSeen(full, query, s, before, between);
    HintIsHeard(full, query, s, before + [Commit] + between, after);
    DeliveredHasEvent(full, query, Run(full, query, s, before + [Commit] + between + [Hint] + after), Run(full, query, s, before + [Commit] + between).committed, k);
  }

  // ---- Stopped ----

  lemma StoppedStays(full: Log, query: Query, s: State, step: Step)
    requires s.committed <= |full| && Enabled(full, s, step) && s.reader == Stopped
    ensures Apply(full, query, s, step).reader == Stopped && Apply(full, query, s, step).delivered == s.delivered
  {
  }

  // A reader that stopped delivers nothing more.
  lemma {:induction false} StoppedDeliversNothing(full: Log, query: Query, s: State, before: seq<Step>, after: seq<Step>)
    requires s.committed <= |full|
    ensures var t := Run(full, query, s, before + [Stop] + after);
      t.reader == Stopped && t.delivered == Run(full, query, s, before).delivered
  {
    var stopped := before + [Stop];
    if after == [] {
      assert stopped + after == stopped;
      RunOne(full, query, s, before, Stop);
    } else {
      var init, last := after[..|after| - 1], after[|after| - 1];
      assert (stopped + after)[..|stopped + after| - 1] == stopped + init && (stopped + after)[|stopped + after| - 1] == last;
      StoppedDeliversNothing(full, query, s, before, init);
      hide Apply;
      if Enabled(full, Run(full, query, s, stopped + init), last) {
        StoppedStays(full, query, Run(full, query, s, stopped + init), last);
      }
    }
  }
}
