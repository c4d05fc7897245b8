// Close always returns: once it has been called, every further step of the coordinator
// (internal/groupcommit/coordinator.go) uses up part of a finite amount of work.
module GroupCommitClose {
  import opened Common
  import opened Ordering
  import opened GroupCommitLane
  import opened GroupCommit
  import opened GroupCommitProgress

  // ---- Sums over finite sets ----

  ghost function Total<K>(keys: set<K>, f: K -> nat): nat {
    if keys == {} then 0
    else
      var k :| k in keys;
      f(k) + Total(keys - {k}, f)
  }

  lemma {:induction false} TotalRemove<K>(keys: set<K>, f: K -> nat, k: K)
    requires k in keys
    ensures Total(keys, f) == f(k) + Total(keys - {k}, f)
    decreases |keys|
  {
    var j :| j in keys && Total(keys, f) == f(j) + Total(keys - {j}, f);
    if j != k {
      TotalRemove(keys - {j}, f, k);
      TotalRemove(keys - {k}, f, j);
      assert keys - {j} - {k} == keys - {k} - {j};
    }
  }

  lemma {:induction false} TotalSame<K>(keys: set<K>, f: K -> nat, g: K -> nat)
    requires forall k :: k in keys ==> f(k) == g(k)
    ensures Total(keys, f) == Total(keys, g)
    decreases |keys|
  {
    if keys != {} {
      var k :| k in keys;
      TotalSame(keys - {k}, f, g);
      TotalRemove(keys, f, k);
      TotalRemove(keys, g, k);
    }
  }

  // Changing or adding one key changes the sum by that key's difference.
  lemma TotalUpdate<K>(before: set<K>, f: K -> nat, after: set<K>, g: K -> nat, k: K)
    requires after == before + {k} && forall j :: j in before && j != k ==> f(j) == g(j)
    ensures Total(after, g) + (if k in before then f(k) else 0) == Total(before, f) + g(k)
  {
    var rest := after - {k};
    TotalRemove(after, g, k);
    assert rest == before - {k};
    TotalSame(rest, f, g);
    if k in before {
      TotalRemove(before, f, k);
    } else {
      assert rest == before;
    }
  }

  // ---- The work left after Close is called ----

  function CallerWork(stage: Caller): nat {
    match stage
    case Arrived => 2
    case Locking => 1
    case Checked => 17
    case Sending => 13
    case Admitted => 0
    case Left => 0
  }

  ghost function CloserWork(s: State): nat {
    match s.closer
    case Open => 0
    case Signalled => |s.lanes.Keys| + 4
    case Collected(names) => |names| + 3
    case Shutting(names) => |names| + 2
    case Joining => 1
    case Done => 0
  }

  ghost function CallersWork(s: State): nat {
    Total(s.callers.Keys, r => if r in s.callers then CallerWork(s.callers[r]) else 0)
  }

  ghost function LanesWork(s: State): nat {
    Total(s.lanes.Keys, name => if name in s.lanes then LaneWork(s.lanes[name]) else 0)
  }

  ghost function Remaining(s: State): nat {
    CallersWork(s) + LanesWork(s) + CloserWork(s)
  }

  // ---- Every step uses some of it up ----

  lemma CallerMoves(s: State, t: State, r: Request)
    requires r in s.callers && r in t.callers && t.callers == s.callers[r := t.callers[r]]
    ensures CallersWork(t) + CallerWork(s.callers[r]) == CallersWork(s) + CallerWork(t.callers[r])
  {
    hide CallerWork, Total;
    var f := (q: Request) => if q in s.callers then CallerWork(s.callers[q]) else 0;
    var g := (q: Request) => if q in t.callers then CallerWork(t.callers[q]) else 0;
    TotalUpdate(s.callers.Keys, f, t.callers.Keys, g, r);
  }

  lemma LaneMoves(s: State, t: State, name: string)
    requires name in t.lanes && t.lanes == s.lanes[name := t.lanes[name]]
    ensures LanesWork(t) + (if name in s.lanes then LaneWork(s.lanes[name]) else 0) == LanesWork(s) + LaneWork(t.lanes[name])
  {
    hide LaneWork, Total;
    var f := (n: string) => if n in s.lanes then LaneWork(s.lanes[n]) else 0;
    var g := (n: string) => if n in t.lanes then LaneWork(t.lanes[n]) else 0;
    TotalUpdate(s.lanes.Keys, f, t.lanes.Keys, g, name);
  }

  lemma SameLanes(s: State, t: State)
    requires t.lanes == s.lanes
    ensures LanesWork(t) == LanesWork(s)
  {
    TotalSame(s.lanes.Keys, (n: string) => if n in s.lanes then LaneWork(s.lanes[n]) else 0,
              (n: string) => if n in t.lanes then LaneWork(t.lanes[n]) else 0);
  }

  lemma SameCallers(s: State, t: State)
    requires t.callers == s.callers
    ensures CallersWork(t) == CallersWork(s)
  {
    TotalSame(s.callers.Keys, (q: Request) => if q in s.callers then CallerWork(s.callers[q]) else 0,
              (q: Request) => if q in t.callers then CallerWork(t.callers[q]) else 0);
  }

  lemma SameCloser(s: State, t: State)
    requires t.closer == s.closer && t.lanes.Keys == s.lanes.Keys
    ensures CloserWork(t) == CloserWork(s)
  {
  }

  predicate OfCaller(step: Step) {
    step.Lock? || step.FindClosed? || step.GiveUp?
  }

  lemma CallerStepCounts(c: Config, s: State, step: Step)
    requires Closed(s) && Enabled(c, s, step) && OfCaller(step)
    ensures Remaining(Apply(c, s, step)) < Remaining(s)
  {
    hide CallersWork, LanesWork, CloserWork, LaneEnabled, LaneApply;
    var t := Apply(c, s, step);
    CallerMoves(s, t, step.r);
    SameLanes(s, t);
    SameCloser(s, t);
  }

  // Where Register leaves the lanes.
  lemma LanesAfterRegister(s: State, t: State, boundary: string)
    requires t.lanes == if boundary in s.lanes then s.lanes else s.lanes[boundary := NEW_LANE]
    ensures LanesWork(t) <= LanesWork(s) + 2 && |t.lanes.Keys| <= |s.lanes.Keys| + 1
  {
    hide LanesWork;
    if boundary in s.lanes {
      SameLanes(s, t);
    } else {
      LaneMoves(s, t, boundary);
      assert LaneWork(NEW_LANE) == 2;
      assert t.lanes.Keys == s.lanes.Keys + {boundary};
    }
  }

  lemma RegisterCounts(c: Config, s: State, r: Request)
    requires s.closer == Signalled && At(s, r, Checked)
    ensures Remaining(Apply(c, s, Register(r))) < Remaining(s)
  {
    hide CallersWork, LanesWork, LaneEnabled, LaneApply, LaneWork, NEW_LANE;
    var t := Apply(c, s, Register(r));
    CallerMoves(s, t, r);
    LanesAfterRegister(s, t, r.boundary);
  }

  lemma EnqueueCounts(c: Config, s: State, r: Request)
    requires Enabled(c, s, Enqueue(r))
    ensures Remaining(Apply(c, s, Enqueue(r))) < Remaining(s)
  {
    hide CallersWork, LanesWork, CloserWork, LaneEnabled, LaneApply;
    var t := Apply(c, s, Enqueue(r));
    CallerMoves(s, t, r);
    LaneMoves(s, t, r.boundary);
    assert t.lanes.Keys == s.lanes.Keys;
    SameCloser(s, t);
  }

  lemma WorkCounts(c: Config, s: State, name: string, step: LaneStep)
    requires Closed(s) && Enabled(c, s, Work(name, step)) && WorkerBounded(c, s.lanes[name].worker)
    ensures Remaining(Apply(c, s, Work(name, step))) < Remaining(s)
  {
    hide CallersWork, LanesWork, CloserWork, LaneWork, LaneApply, LaneEnabled, WorkerBounded;
    var t := Apply(c, s, Work(name, step));
    WorkerStepCounts(c, true, s.cancelled, s.lanes[name], step);
    LaneMoves(s, t, name);
    SameCallers(s, t);
    assert t.lanes.Keys == s.lanes.Keys;
    SameCloser(s, t);
  }

  lemma ShutQueueCounts(c: Config, s: State, name: string)
    requires Enabled(c, s, ShutQueue(name))
    ensures Remaining(Apply(c, s, ShutQueue(name))) < Remaining(s)
  {
    hide CallersWork, LanesWork, LaneEnabled, LaneApply;
    var t := Apply(c, s, ShutQueue(name));
    LaneMoves(s, t, name);
    SameCallers(s, t);
  }

  lemma CloseStepCounts(c: Config, s: State, step: Step)
    requires Closed(s) && Enabled(c, s, step) && OfClose(step)
    ensures Remaining(Apply(c, s, step)) < Remaining(s)
  {
    hide CallersWork, LanesWork, LaneEnabled, LaneApply;
    var t := Apply(c, s, step);
    SameLanes(s, t);
    SameCallers(s, t);
  }

  lemma CheckedBeforeCollect(c: Config, s: State, r: Request)
    requires Inv(c, s) && Closed(s) && At(s, r, Checked)
    ensures s.closer == Signalled
  {
    hide LanesKept, OwnRequests;
  }

  lemma WorkerIsBounded(c: Config, s: State, name: string)
    requires Inv(c, s) && name in s.lanes
    ensures WorkerBounded(c, s.lanes[name].worker)
  {
    hide LanesKept, WorkerBounded;
    KeptLaneBounded(c, s, name);
  }

  // Once Close has been called every step of the coordinator itself uses up some of the work
  // left, so in no schedule can more than that many follow.
  lemma {:induction false} EveryStepCounts(c: Config, s: State, step: Step)
    requires Inv(c, s) && Closed(s) && Enabled(c, s, step) && !FromOutside(step)
    ensures Remaining(Apply(c, s, step)) < Remaining(s) && Closed(Apply(c, s, step))
  {
    hide Inv, Remaining, LaneEnabled, LaneApply, WorkerBounded;
    match step
    case Register(r) =>
      CheckedBeforeCollect(c, s, r);
      RegisterCounts(c, s, r);
    case Enqueue(r) => EnqueueCounts(c, s, r);
    case Work(name, laneStep) =>
      WorkerIsBounded(c, s, name);
      WorkCounts(c, s, name, laneStep);
    case ShutQueue(name) => ShutQueueCounts(c, s, name);
    case _ =>
      if OfClose(step) {
        CloseStepCounts(c, s, step);
      } else {
        CallerStepCounts(c, s, step);
      }
  }

  // A caller's cancellation adds none, and nobody new gets in.
  lemma {:induction false} OutsideAddsNothing(c: Config, s: State, step: Step)
    requires Closed(s) && Enabled(c, s, step) && FromOutside(step)
    ensures Remaining(Apply(c, s, step)) == Remaining(s) && Closed(Apply(c, s, step))
  {
    hide CallersWork, LanesWork, CloserWork;
    var t := Apply(c, s, step);
    SameLanes(s, t);
    SameCallers(s, t);
    SameCloser(s, t);
  }

  lemma NextStep(c: Config, steps: seq<Step>) returns (step: Step)
    requires ValidConfig(c) && Closed(Run(c, steps)) && Run(c, steps).closer != Done
    ensures Closed(Run(c, steps + [step])) && Remaining(Run(c, steps + [step])) < Remaining(Run(c, steps))
  {
    hide Inv, Remaining, Enabled, Apply;
    RunKeepsInv(c, steps);
    step := CloseNeverStuck(c, steps);
    EveryStepCounts(c, Run(c, steps), step);
    assert (steps + [step])[..|steps|] == steps;
  }

  // Whenever Close was called, a schedule that keeps taking steps brings it to its return, in
  // at most as many steps as there is work left.
  lemma {:induction false} CloseReturns(c: Config, steps: seq<Step>) returns (more: seq<Step>)
    requires ValidConfig(c) && Closed(Run(c, steps))
    ensures Run(c, steps + more).closer == Done && |more| <= Remaining(Run(c, steps))
    decreases Remaining(Run(c, steps))
  {
    hide Run, Remaining;
    if Run(c, steps).closer == Done {
      more := [];
      assert steps + more == steps;
    } else {
      var step := NextStep(c, steps);
      var rest := CloseReturns(c, steps + [step]);
      more := [step] + rest;
      assert steps + more == steps + [step] + rest;
    }
  }

  // How many steps of the coordinator itself the rest of a run takes.
  function CoordinatorSteps(c: Config, steps: seq<Step>, more: seq<Step>): nat {
    if more == [] then 0
    else
      var init, last := more[..|more| - 1], more[|more| - 1];
      CoordinatorSteps(c, steps, init) + (if Enabled(c, Run(c, steps + init), last) && !FromOutside(last) then 1 else 0)
  }

  // Whatever the schedule, no more steps of the coordinator follow the call of Close than there
  // is work left; and by CloseNeverStuck it can only stop once Close has returned.
  lemma {:induction false} CloseIsBounded(c: Config, steps: seq<Step>, more: seq<Step>)
    requires ValidConfig(c) && Closed(Run(c, steps))
    ensures Closed(Run(c, steps + more))
    ensures CoordinatorSteps(c, steps, more) + Remaining(Run(c, steps + more)) <= Remaining(Run(c, steps))
  {
    hide Remaining, Inv, Apply, Enabled, Closed;
    if more == [] {
      assert steps + more == steps;
    } else {
      var init, last := more[..|more| - 1], more[|more| - 1];
      assert (steps + more)[..|steps + more| - 1] == steps + init && (steps + more)[|steps + more| - 1] == last;
      CloseIsBounded(c, steps, init);
      RunKeepsInv(c, steps + init);
      if Enabled(c, Run(c, steps + init), last) {
        if FromOutside(last) {
          OutsideAddsNothing(c, Run(c, steps + init), last);
        } else {
          EveryStepCounts(c, Run(c, steps + init), last);
        }
      }
    }
  }
}
