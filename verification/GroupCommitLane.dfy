// One boundary of the group-commit coordinator (internal/groupcommit/coordinator.go): its
// queue and its worker, as atomic steps, and the account every step keeps.
module GroupCommitLane {
  import opened Common
  import opened Ordering
  import Store = SqliteStore

  // One submitted request, told apart by its id.
  datatype Request = Request(id: nat, boundary: string, events: nat)

  // `delayed` is whether MaxDelay is positive, so that a batch may wait for company.
  datatype Config = Config(maxBatchRequests: nat, maxBatchEvents: nat, maxPending: nat, delayed: bool)

  predicate ValidConfig(c: Config) {
    c.maxBatchRequests > 0 && c.maxBatchEvents > 0 && c.maxPending > 0
  }

  // What the executor returns for one request.
  type Value = Store.Outcome

  // How the executor ends: with outcomes, an error, or a panic.
  datatype Ending = Returned(outcomes: seq<Value>) | Errored | Panicked

  datatype Answer = Outcome(value: Value) | FlushFailed | WrongCount | FlushPanicked | CallerGone | ShutDown

  // What became of a request taken off its queue: handed to the executor, dropped because
  // its caller had gone, or refused because the coordinator was closed.
  datatype Fate = Live | Dropped | Refused

  datatype Settled = Settled(request: Request, fate: Fate)

  // Where runWorker stands.
  datatype Worker =
    | Waiting(carry: Option<Request>)
    | Holding(first: Request)
    | Draining(batch: seq<Request>, events: nat)
    | Drained(batch: seq<Request>, carry: Option<Request>)
    | Filtering(batch: seq<Request>, next: nat, live: seq<Request>, carry: Option<Request>)
    | Executing(batch: seq<Request>, live: seq<Request>, carry: Option<Request>)
    | Flushed(carry: Option<Request>)
    | Refusing(held: seq<Request>)
    | Exited

  // One boundary: its queue (a channel, `shut` once closed) and worker; the requests in the
  // order the queue took them and their fates; the executor's inputs and how each call
  // ended; and the completions delivered.
  datatype Lane = Lane(
    queue: seq<Request>,
    shut: bool,
    worker: Worker,
    admitted: seq<Request>,
    settled: seq<Settled>,
    calls: seq<seq<Request>>,
    endings: seq<Ending>,
    answers: map<Request, Answer>)

  const NEW_LANE := Lane([], false, Waiting(None), [], [], [], [], map[])

  datatype LaneStep =
    | TakeCarry
    | TakeQueued
    | SeeClosedWaiting
    | SeeQueueShut
    | RefuseFirst
    | StartBatch
    | AddToBatch
    | CarryOver
    | EndBatch
    | RefuseBatch
    | StartFlush
    | DropCancelled
    | KeepLive
    | FlushNothing
    | Execute
    | FinishExecution(ending: Ending)
    | RefuseCarry
    | Continue
    | RefuseHeld
    | RefuseQueued
    | Exit

  // ---- Delivery ----

  // deliver: the first completion of a request is the only one.
  function Deliver(answers: map<Request, Answer>, r: Request, answer: Answer): map<Request, Answer> {
    if r in answers then answers else answers[r := answer]
  }

  function DeliverAll(answers: map<Request, Answer>, batch: seq<Request>, given: seq<Answer>): map<Request, Answer>
    requires |batch| == |given|
  {
    if batch == [] then answers
    else
      var last := |batch| - 1;
      Deliver(DeliverAll(answers, batch[..last], given[..last]), batch[last], given[last])
  }

  // What the j-th of n requests in a call is told.
  function AnswerFor(ending: Ending, n: nat, j: nat): Answer
    requires j < n
  {
    match ending
    case Returned(outcomes) => if |outcomes| == n then Outcome(outcomes[j]) else WrongCount
    case Errored => FlushFailed
    case Panicked => FlushPanicked
  }

  // A panic fails the whole batch, where those already told that they were cancelled are
  // passed over; every other ending answers the live requests.
  function Told(batch: seq<Request>, live: seq<Request>, ending: Ending): (seq<Request>, seq<Answer>) {
    if ending.Panicked? then (batch, seq(|batch|, _ => FlushPanicked))
    else (live, seq(|live|, j requires 0 <= j < |live| => AnswerFor(ending, |live|, j)))
  }

  function Settle(lane: Lane, r: Request, fate: Fate, answer: Answer): Lane {
    lane.(settled := lane.settled + [Settled(r, fate)], answers := Deliver(lane.answers, r, answer))
  }

  // ---- The worker ----

  function Optional(carry: Option<Request>): seq<Request> {
    if carry.Some? then [carry.value] else []
  }

  predicate Room(c: Config, batch: seq<Request>, events: nat) {
    |batch| < c.maxBatchRequests && events < c.maxBatchEvents
  }

  predicate LaneEnabled(c: Config, closed: bool, cancelled: set<Request>, lane: Lane, step: LaneStep) {
    var w := lane.worker;
    match step
    case TakeCarry => w.Waiting? && w.carry.Some?
    case TakeQueued => w == Waiting(None) && lane.queue != []
    case SeeClosedWaiting => w == Waiting(None) && closed
    case SeeQueueShut => w == Waiting(None) && lane.queue == [] && lane.shut
    case RefuseFirst => w.Holding? && closed
    case StartBatch => w.Holding? && !closed
    case AddToBatch =>
      w.Draining? && Room(c, w.batch, w.events) && lane.queue != [] && w.events + lane.queue[0].events <= c.maxBatchEvents
    case CarryOver =>
      w.Draining? && Room(c, w.batch, w.events) && lane.queue != [] && w.events + lane.queue[0].events > c.maxBatchEvents
    case EndBatch => w.Draining? && (!Room(c, w.batch, w.events) || lane.queue == [] || c.delayed)
    case RefuseBatch => w.Drained? && closed
    case StartFlush => w.Drained? && !closed
    case DropCancelled => w.Filtering? && w.next < |w.batch| && w.batch[w.next] in cancelled
    case KeepLive => w.Filtering? && w.next < |w.batch| && w.batch[w.next] !in cancelled
    case FlushNothing => w.Filtering? && w.next == |w.batch| && w.live == []
    case Execute => w.Filtering? && w.next == |w.batch| && w.live != []
    case FinishExecution(_) => w.Executing?
    case RefuseCarry => w.Flushed? && closed
    case Continue => w.Flushed? && !closed
    case RefuseHeld => w.Refusing? && w.held != []
    case RefuseQueued => w.Refusing? && w.held == [] && lane.queue != []
    case Exit => w.Refusing? && w.held == [] && lane.queue == [] && lane.shut
  }

  function LaneApply(c: Config, closed: bool, cancelled: set<Request>, lane: Lane, step: LaneStep): Lane
    requires LaneEnabled(c, closed, cancelled, lane, step)
  {
    var w := lane.worker;
    match step
    case TakeCarry => lane.(worker := Holding(w.carry.value))
    case TakeQueued => lane.(queue := lane.queue[1..], worker := Holding(lane.queue[0]))
    case SeeClosedWaiting => lane.(worker := Refusing([]))
    case SeeQueueShut => lane.(worker := Exited)
    case RefuseFirst => lane.(worker := Refusing([w.first]))
    case StartBatch => lane.(worker := Draining([w.first], w.first.events))
    case AddToBatch =>
      lane.(queue := lane.queue[1..], worker := Draining(w.batch + [lane.queue[0]], w.events + lane.queue[0].events))
    case CarryOver => lane.(queue := lane.queue[1..], worker := Drained(w.batch, Some(lane.queue[0])))
    case EndBatch => lane.(worker := Drained(w.batch, None))
    case RefuseBatch => lane.(worker := Refusing(w.batch + Optional(w.carry)))
    case StartFlush => lane.(worker := Filtering(w.batch, 0, [], w.carry))
    case DropCancelled => Settle(lane.(worker := w.(next := w.next + 1)), w.batch[w.next], Dropped, CallerGone)
    case KeepLive =>
      lane.(worker := w.(next := w.next + 1, live := w.live + [w.batch[w.next]]),
            settled := lane.settled + [Settled(w.batch[w.next], Live)])
    case FlushNothing => lane.(worker := Flushed(w.carry))
    case Execute => lane.(worker := Executing(w.batch, w.live, w.carry), calls := lane.calls + [w.live])
    case FinishExecution(ending) =>
      var (told, given) := Told(w.batch, w.live, ending);
      lane.(worker := Flushed(w.carry),
            endings := lane.endings + [ending],
            answers := DeliverAll(lane.answers, told, given))
    case RefuseCarry => lane.(worker := Refusing(Optional(w.carry)))
    case Continue => lane.(worker := Waiting(w.carry))
    case RefuseHeld => Settle(lane.(worker := Refusing(w.held[1..])), w.held[0], Refused, ShutDown)
    case RefuseQueued => Settle(lane.(queue := lane.queue[1..]), lane.queue[0], Refused, ShutDown)
    case Exit => lane.(worker := Exited)
  }

  // ---- What every worker step keeps ----

  function Requests(settled: seq<Settled>): seq<Request> {
    seq(|settled|, i requires 0 <= i < |settled| => settled[i].request)
  }

  // The requests handed to the executor, in order.
  function Kept(settled: seq<Settled>): seq<Request> {
    if settled == [] then []
    else
      var last := settled[|settled| - 1];
      Kept(settled[..|settled| - 1]) + (if last.fate == Live then [last.request] else [])
  }

  // Taken off the queue and not yet settled, in order.
  function InHand(w: Worker): seq<Request> {
    match w
    case Waiting(carry) => Optional(carry)
    case Holding(first) => [first]
    case Draining(batch, _) => batch
    case Drained(batch, carry) => batch + Optional(carry)
    case Filtering(batch, next, _, carry) => (if next <= |batch| then batch[next..] else []) + Optional(carry)
    case Executing(_, _, carry) => Optional(carry)
    case Flushed(carry) => Optional(carry)
    case Refusing(held) => held
    case Exited => []
  }

  // Every admitted request is settled, in hand or queued, in admission order, once.
  ghost predicate Accounted(lane: Lane) {
    lane.admitted == Requests(lane.settled) + (InHand(lane.worker) + lane.queue) && Distinct(lane.admitted)
  }

  function Gathering(w: Worker): seq<Request> {
    if w.Filtering? then w.live else []
  }

  // The executor's inputs, end to end, are the settled requests that were neither dropped
  // nor refused; and at most one call is running.
  ghost predicate InOrder(lane: Lane) {
    && Kept(lane.settled) == Flatten(lane.calls) + Gathering(lane.worker)
    && |lane.calls| == |lane.endings| + (if lane.worker.Executing? then 1 else 0)
    && (lane.worker.Executing? ==> lane.calls[|lane.endings|] == lane.worker.live)
  }

  function Events(batch: seq<Request>): nat {
    if batch == [] then 0 else Events(batch[..|batch| - 1]) + batch[|batch| - 1].events
  }

  predicate WithinBounds(c: Config, batch: seq<Request>) {
    |batch| <= c.maxBatchRequests && (|batch| <= 1 || Events(batch) <= c.maxBatchEvents)
  }

  predicate WorkerBounded(c: Config, w: Worker) {
    match w
    case Draining(batch, events) => batch != [] && events == Events(batch) && WithinBounds(c, batch)
    case Drained(batch, _) => batch != [] && WithinBounds(c, batch)
    case Filtering(batch, next, live, _) =>
      && WithinBounds(c, batch) && next <= |batch|
      && |live| <= next && Events(live) <= Events(batch[..next])
    case _ => true
  }

  ghost predicate Bounded(c: Config, lane: Lane) {
    && |lane.queue| <= c.maxPending && WorkerBounded(c, lane.worker)
    && forall i :: 0 <= i < |lane.calls| ==> lane.calls[i] != [] && WithinBounds(c, lane.calls[i])
  }

  // Live requests not answered yet.
  function Unanswered(w: Worker): seq<Request> {
    if w.Filtering? || w.Executing? then w.live else []
  }

  // Who in the current batch has been dealt with: told that it was cancelled, or live.
  ghost predicate Sorted(lane: Lane) {
    var w := lane.worker;
    && (w.Filtering? ==> forall k :: 0 <= k < w.next && k < |w.batch| ==> w.batch[k] in lane.answers || w.batch[k] in w.live)
    && (w.Executing? ==> forall r :: r in w.batch ==> r in lane.answers || r in w.live)
    && (w.Filtering? || w.Executing? ==> Distinct(w.live) && forall r :: r in w.live ==> r in w.batch && r in Requests(lane.settled))
  }

  // Only settled requests are answered, and each is told what its fate says: a caller that
  // went to the executor gets the outcome in its own place, or that call's failure.
  ghost predicate Answered(lane: Lane) {
    && (forall r :: r in lane.answers ==> r in Requests(lane.settled))
    && (forall r :: r in Unanswered(lane.worker) ==> r !in lane.answers)
    && (forall i :: 0 <= i < |lane.settled| ==> FateTold(lane, lane.settled[i]))
    && (forall i, j :: 0 <= i < |lane.endings| && i < |lane.calls| && 0 <= j < |lane.calls[i]| ==> OutcomeTold(lane, i, j))
  }

  ghost predicate FateTold(lane: Lane, s: Settled) {
    && (s.fate == Dropped ==> s.request in lane.answers && lane.answers[s.request] == CallerGone)
    && (s.fate == Refused ==> s.request in lane.answers && lane.answers[s.request] == ShutDown)
  }

  // The j-th of the n requests of a call hears how the call ended: that it failed, that it
  // panicked, that it came back with the wrong number of outcomes, or the outcome in its place.
  predicate Hears(answer: Answer, ending: Ending, n: nat, j: nat) {
    && (ending.Errored? ==> answer == FlushFailed)
    && (ending.Panicked? ==> answer == FlushPanicked)
    && (ending.Returned? && |ending.outcomes| != n ==> answer == WrongCount)
    && (ending.Returned? && |ending.outcomes| == n && j < n ==> answer == Outcome(ending.outcomes[j]))
  }

  ghost predicate OutcomeTold(lane: Lane, i: nat, j: nat)
    requires i < |lane.endings| && i < |lane.calls| && j < |lane.calls[i]|
  {
    var r := lane.calls[i][j];
    r in lane.answers && Hears(lane.answers[r], lane.endings[i], |lane.calls[i]|, j)
  }

  // Requests are dropped only for their caller's sake and refused only after Close.
  ghost predicate Justified(closed: bool, cancelled: set<Request>, lane: Lane) {
    && (forall i :: 0 <= i < |lane.settled| ==>
      && (lane.settled[i].fate == Dropped ==> lane.settled[i].request in cancelled)
      && (lane.settled[i].fate == Refused ==> closed))
    && (lane.worker.Refusing? ==> closed)
    && (lane.worker.Exited? ==> lane.shut && lane.queue == [])
  }

  ghost predicate LaneInv(c: Config, closed: bool, cancelled: set<Request>, lane: Lane) {
    && Accounted(lane) && InOrder(lane) && Bounded(c, lane) && Sorted(lane) && Answered(lane)
    && Justified(closed, cancelled, lane)
  }

  predicate Settles(step: LaneStep) {
    step.DropCancelled? || step.KeepLive? || step.RefuseHeld? || step.RefuseQueued?
  }

  lemma RequestsAppend(settled: seq<Settled>, s: Settled)
    ensures Requests(settled + [s]) == Requests(settled) + [s.request]
  {
  }

  lemma KeptAppend(settled: seq<Settled>, s: Settled)
    ensures Kept(settled + [s]) == Kept(settled) + (if s.fate == Live then [s.request] else [])
  {
    assert (settled + [s])[..|settled|] == settled;
  }

  lemma HeadFirst<T>(s: seq<T>)
    requires s != []
    ensures [s[0]] + s[1..] == s
  {
  }

  predicate Takes(step: LaneStep) {
    step.TakeQueued? || step.AddToBatch? || step.CarryOver?
  }

  lemma TakingKeepsAccount(c: Config, closed: bool, cancelled: set<Request>, lane: Lane, step: LaneStep)
    requires Accounted(lane) && LaneEnabled(c, closed, cancelled, lane, step) && Takes(step)
    ensures Accounted(LaneApply(c, closed, cancelled, lane, step))
  {
    hide Requests;
    var t := LaneApply(c, closed, cancelled, lane, step);
    HeadFirst(lane.queue);
    Associative(InHand(lane.worker), [lane.queue[0]], lane.queue[1..]);
    assert InHand(t.worker) == InHand(lane.worker) + [lane.queue[0]];
  }

  lemma MovingKeepsAccount(c: Config, closed: bool, cancelled: set<Request>, lane: Lane, step: LaneStep)
    requires Accounted(lane) && WorkerBounded(c, lane.worker)
    requires LaneEnabled(c, closed, cancelled, lane, step) && !Settles(step) && !Takes(step)
    ensures Accounted(LaneApply(c, closed, cancelled, lane, step))
  {
    hide Events, DeliverAll, Told, Requests, WithinBounds, Room;
    var t := LaneApply(c, closed, cancelled, lane, step);
    assert InHand(t.worker) == InHand(lane.worker);
  }

  // The request a settling step settles, and how.
  function Settling(c: Config, closed: bool, cancelled: set<Request>, lane: Lane, step: LaneStep): Settled
    requires LaneEnabled(c, closed, cancelled, lane, step) && Settles(step)
  {
    var w := lane.worker;
    match step
    case DropCancelled => Settled(w.batch[w.next], Dropped)
    case KeepLive => Settled(w.batch[w.next], Live)
    case RefuseHeld => Settled(w.held[0], Refused)
    case RefuseQueued => Settled(lane.queue[0], Refused)
  }

  // Settling takes the oldest request in hand, or failing that the head of the queue.
  lemma SettlesOldest(c: Config, closed: bool, cancelled: set<Request>, lane: Lane, step: LaneStep)
    requires LaneEnabled(c, closed, cancelled, lane, step) && Settles(step)
    ensures var t := LaneApply(c, closed, cancelled, lane, step);
      && t.settled == lane.settled + [Settling(c, closed, cancelled, lane, step)]
      && InHand(lane.worker) + lane.queue == [Settling(c, closed, cancelled, lane, step).request] + (InHand(t.worker) + t.queue)
  {
    hide Deliver, LaneInv, Requests, Events, WithinBounds, Room;
    var w := lane.worker;
    match step
    case DropCancelled => FilteringTakesNext(w.batch, w.next, w.carry, lane.queue);
    case KeepLive => FilteringTakesNext(w.batch, w.next, w.carry, lane.queue);
    case RefuseHeld =>
      HeadFirst(w.held);
      Associative([w.held[0]], w.held[1..], lane.queue);
    case RefuseQueued => HeadFirst(lane.queue);
  }

  lemma FilteringTakesNext(batch: seq<Request>, next: nat, carry: Option<Request>, queue: seq<Request>)
    requires next < |batch|
    ensures (batch[next..] + Optional(carry)) + queue == [batch[next]] + ((batch[next + 1..] + Optional(carry)) + queue)
  {
    var rest := batch[next + 1..];
    assert batch[next..] == [batch[next]] + rest;
    Associative([batch[next]], rest, Optional(carry));
    Associative([batch[next]], rest + Optional(carry), queue);
  }

  lemma {:induction false} SettlingKeepsAccount(c: Config, closed: bool, cancelled: set<Request>, lane: Lane, step: LaneStep)
    requires Accounted(lane) && LaneEnabled(c, closed, cancelled, lane, step) && Settles(step)
    ensures Accounted(LaneApply(c, closed, cancelled, lane, step))
    ensures Settling(c, closed, cancelled, lane, step).request !in Requests(lane.settled)
  {
    hide Requests, LaneApply, InHand, LaneEnabled;
    var t := LaneApply(c, closed, cancelled, lane, step);
    var x := Settling(c, closed, cancelled, lane, step);
    SettlesOldest(c, closed, cancelled, lane, step);
    RequestsAppend(lane.settled, x);
    Associative(Requests(lane.settled), [x.request], InHand(t.worker) + t.queue);
    assert lane.admitted[|Requests(lane.settled)|] == x.request;
    assert forall i :: 0 <= i < |Requests(lane.settled)| ==> lane.admitted[i] == Requests(lane.settled)[i];
    assert t.admitted == lane.admitted by {
      SettlingAdmitsNone(c, closed, cancelled, lane, step);
    }
  }

  lemma SettlingAdmitsNone(c: Config, closed: bool, cancelled: set<Request>, lane: Lane, step: LaneStep)
    requires LaneEnabled(c, closed, cancelled, lane, step)
    ensures LaneApply(c, closed, cancelled, lane, step).admitted == lane.admitted
    ensures LaneApply(c, closed, cancelled, lane, step).shut == lane.shut
  {
  }

  lemma {:induction false} KeepsOrder(c: Config, closed: bool, cancelled: set<Request>, lane: Lane, step: LaneStep)
    requires InOrder(lane) && LaneEnabled(c, closed, cancelled, lane, step)
    ensures InOrder(LaneApply(c, closed, cancelled, lane, step))
  {
    hide Kept, Flatten, DeliverAll, Told;
    var t := LaneApply(c, closed, cancelled, lane, step);
    if Settles(step) {
      KeptAppend(lane.settled, Settling(c, closed, cancelled, lane, step));
      Associative(Flatten(lane.calls), Gathering(lane.worker), [Settling(c, closed, cancelled, lane, step).request]);
    } else if step.Execute? {
      FlattenAppend(lane.calls, lane.worker.live);
    }
  }

  lemma EventsAppend(batch: seq<Request>, r: Request)
    ensures Events(batch + [r]) == Events(batch) + r.events
  {
    assert (batch + [r])[..|batch|] == batch;
  }

  lemma EventsStep(batch: seq<Request>, next: nat)
    requires next < |batch|
    ensures Events(batch[..next + 1]) == Events(batch[..next]) + batch[next].events
  {
    assert batch[..next + 1] == batch[..next] + [batch[next]];
    EventsAppend(batch[..next], batch[next]);
  }

  lemma SmallerWithin(c: Config, batch: seq<Request>, live: seq<Request>)
    requires WithinBounds(c, batch) && |live| <= |batch| && Events(live) <= Events(batch)
    ensures WithinBounds(c, live)
  {
  }

  lemma WorkerKeepsBounds(c: Config, closed: bool, cancelled: set<Request>, lane: Lane, step: LaneStep)
    requires ValidConfig(c) && WorkerBounded(c, lane.worker) && LaneEnabled(c, closed, cancelled, lane, step)
    ensures WorkerBounded(c, LaneApply(c, closed, cancelled, lane, step).worker)
  {
    hide DeliverAll, Told, Events;
    var w := lane.worker;
    assert Events([]) == 0 by {
      NoEvents();
    }
    match step
    case StartBatch => EventsAppend([], w.first); assert [] + [w.first] == [w.first];
    case AddToBatch => EventsAppend(w.batch, lane.queue[0]);
    case DropCancelled => EventsStep(w.batch, w.next);
    case KeepLive => EventsStep(w.batch, w.next); EventsAppend(w.live, w.batch[w.next]);
    case _ =>
  }

  lemma NoEvents()
    ensures Events([]) == 0
  {
  }

  lemma {:induction false} KeepsBounds(c: Config, closed: bool, cancelled: set<Request>, lane: Lane, step: LaneStep)
    requires ValidConfig(c) && Bounded(c, lane) && LaneEnabled(c, closed, cancelled, lane, step)
    ensures Bounded(c, LaneApply(c, closed, cancelled, lane, step))
  {
    WorkerKeepsBounds(c, closed, cancelled, lane, step);
    if step.Execute? {
      assert lane.worker.batch[..lane.worker.next] == lane.worker.batch;
      SmallerWithin(c, lane.worker.batch, lane.worker.live);
    }
    hide DeliverAll, Told, WorkerBounded, WithinBounds;
  }

  lemma {:induction false} DeliversAll(answers: map<Request, Answer>, batch: seq<Request>, given: seq<Answer>)
    requires |batch| == |given|
    ensures forall r :: r in answers ==> r in DeliverAll(answers, batch, given) && DeliverAll(answers, batch, given)[r] == answers[r]
    ensures forall r :: r in DeliverAll(answers, batch, given) ==> r in answers || r in batch
    ensures forall r :: r in batch ==> r in DeliverAll(answers, batch, given)
    ensures forall r :: r in DeliverAll(answers, batch, given) && r !in answers ==> exists j :: 0 <= j < |batch| && batch[j] == r && DeliverAll(answers, batch, given)[r] == given[j]
  {
    if batch != [] {
      var last := |batch| - 1;
      DeliversAll(answers, batch[..last], given[..last]);
    }
  }

  // What a step that answers nobody keeps.
  lemma SilenceKeepsAnswers(lane: Lane, t: Lane)
    requires Answered(lane)
    requires t.settled == lane.settled && t.answers == lane.answers && t.endings == lane.endings
    requires lane.calls <= t.calls && |lane.endings| <= |lane.calls|
    requires forall r :: r in Unanswered(t.worker) ==> r in Unanswered(lane.worker)
    ensures Answered(t)
  {
    hide Unanswered, AnswerFor;
    forall i | 0 <= i < |t.settled| ensures FateTold(t, t.settled[i]) {
      assert FateTold(lane, lane.settled[i]);
    }
    forall i, j | 0 <= i < |t.endings| && i < |t.calls| && 0 <= j < |t.calls[i]| ensures OutcomeTold(t, i, j) {
      assert t.calls[i] == lane.calls[i] && OutcomeTold(lane, i, j);
    }
  }

  // A newly settled request is told, and nobody else is.
  lemma SettlingKeepsAnswers(lane: Lane, t: Lane, s: Settled)
    requires Answered(lane) && s.request !in Requests(lane.settled)
    requires t.settled == lane.settled + [s] && t.endings == lane.endings && t.calls == lane.calls
    requires |lane.endings| <= |lane.calls|
    requires t.answers == (match s.fate
      case Live => lane.answers
      case Dropped => Deliver(lane.answers, s.request, CallerGone)
      case Refused => Deliver(lane.answers, s.request, ShutDown))
    requires forall r :: r in Unanswered(t.worker) ==> r in Unanswered(lane.worker) || (r == s.request && s.fate == Live)
    requires s.fate == Dropped || s.fate == Refused ==> s.request !in Unanswered(t.worker)
    ensures Answered(t)
  {
    hide Unanswered, AnswerFor, Requests;
    RequestsAppend(lane.settled, s);
    assert s.request !in lane.answers;
    forall i | 0 <= i < |t.settled| ensures FateTold(t, t.settled[i]) {
      assert i < |lane.settled| ==> t.settled[i] == lane.settled[i] && FateTold(lane, lane.settled[i]);
    }
    forall i, j | 0 <= i < |t.endings| && i < |t.calls| && 0 <= j < |t.calls[i]| ensures OutcomeTold(t, i, j) {
      assert OutcomeTold(lane, i, j);
    }
  }

  // What FinishExecution delivers: nobody already answered is touched, and every live
  // request hears how the call ended for it.
  lemma {:induction false} TellingLive(answers: map<Request, Answer>, batch: seq<Request>, live: seq<Request>, ending: Ending)
    requires Distinct(live) && forall r :: r in live ==> r !in answers
    requires forall r :: r in batch ==> r in answers || r in live
    requires forall r :: r in live ==> r in batch
    ensures var (told, given) := Told(batch, live, ending);
      var after := DeliverAll(answers, told, given);
      && (forall r :: r in answers ==> r in after && after[r] == answers[r])
      && (forall r :: r in after ==> r in answers || r in live)
      && (forall j :: 0 <= j < |live| ==> live[j] in after && Hears(after[live[j]], ending, |live|, j))
  {
    var (told, given) := Told(batch, live, ending);
    DeliversAll(answers, told, given);
    forall j | 0 <= j < |live| ensures live[j] in DeliverAll(answers, told, given) && Hears(DeliverAll(answers, told, given)[live[j]], ending, |live|, j) {
      assert live[j] in live;
    }
  }

  lemma FinishingKeepsAnswers(lane: Lane, t: Lane, ending: Ending)
    requires Answered(lane) && Sorted(lane) && InOrder(lane) && lane.worker.Executing?
    requires t.settled == lane.settled && t.endings == lane.endings + [ending] && t.calls == lane.calls
    requires t.answers == DeliverAll(lane.answers, Told(lane.worker.batch, lane.worker.live, ending).0, Told(lane.worker.batch, lane.worker.live, ending).1)
    requires t.worker.Flushed?
    ensures Answered(t)
  {
    var w := lane.worker;
    TellingLive(lane.answers, w.batch, w.live, ending);
    hide Hears, Requests, DeliverAll, Told, Flatten, Kept;
    forall i | 0 <= i < |t.settled| ensures FateTold(t, t.settled[i]) {
      assert FateTold(lane, lane.settled[i]);
    }
    forall i, j | 0 <= i < |t.endings| && i < |t.calls| && 0 <= j < |t.calls[i]| ensures OutcomeTold(t, i, j) {
      assert i < |lane.endings| ==> OutcomeTold(lane, i, j);
    }
  }

  lemma SettlingStepKeepsAnswers(c: Config, closed: bool, cancelled: set<Request>, lane: Lane, step: LaneStep)
    requires LaneInv(c, closed, cancelled, lane) && LaneEnabled(c, closed, cancelled, lane, step) && Settles(step)
    ensures Answered(LaneApply(c, closed, cancelled, lane, step))
  {
    hide Answered, Accounted, Bounded, Justified, Requests, Kept, Flatten;
    SettlingKeepsAccount(c, closed, cancelled, lane, step);
    SettlingKeepsAnswers(lane, LaneApply(c, closed, cancelled, lane, step), Settling(c, closed, cancelled, lane, step));
  }

  lemma KeepsAnswers(c: Config, closed: bool, cancelled: set<Request>, lane: Lane, step: LaneStep)
    requires LaneInv(c, closed, cancelled, lane) && LaneEnabled(c, closed, cancelled, lane, step)
    ensures Answered(LaneApply(c, closed, cancelled, lane, step))
  {
    hide Answered, Accounted, Bounded, Justified, Sorted, Requests, Kept, Flatten, DeliverAll, Told, Room;
    if Settles(step) {
      SettlingStepKeepsAnswers(c, closed, cancelled, lane, step);
    } else if step.FinishExecution? {
      FinishingKeepsAnswers(lane, LaneApply(c, closed, cancelled, lane, step), step.ending);
    } else {
      SilenceKeepsAnswers(lane, LaneApply(c, closed, cancelled, lane, step));
    }
  }

  // Looking at one more request of the batch.
  lemma FilteringKeepsSorted(lane: Lane, t: Lane, r: Request, fate: Fate)
    requires Sorted(lane) && lane.worker.Filtering? && t.worker.Filtering? && r !in Requests(lane.settled)
    requires t.settled == lane.settled + [Settled(r, fate)]
    requires t.worker.batch == lane.worker.batch && t.worker.next == lane.worker.next + 1
    requires lane.worker.next < |lane.worker.batch| && r == lane.worker.batch[lane.worker.next]
    requires t.worker.live == lane.worker.live + (if fate == Live then [r] else [])
    requires t.answers == (if fate == Live then lane.answers else Deliver(lane.answers, r, CallerGone))
    ensures Sorted(t)
  {
    hide Requests;
    RequestsAppend(lane.settled, Settled(r, fate));
  }

  lemma FilterStepKeepsSorted(c: Config, closed: bool, cancelled: set<Request>, lane: Lane, step: LaneStep)
    requires LaneInv(c, closed, cancelled, lane) && LaneEnabled(c, closed, cancelled, lane, step)
    requires step.DropCancelled? || step.KeepLive?
    ensures Sorted(LaneApply(c, closed, cancelled, lane, step))
  {
    hide Answered, Accounted, Justified, InOrder, Requests, Bounded, Sorted;
    var x := Settling(c, closed, cancelled, lane, step);
    SettlingKeepsAccount(c, closed, cancelled, lane, step);
    FilteringKeepsSorted(lane, LaneApply(c, closed, cancelled, lane, step), x.request, x.fate);
  }

  lemma ExecutingKeepsSorted(lane: Lane, t: Lane)
    requires Sorted(lane) && lane.worker.Filtering? && lane.worker.next == |lane.worker.batch|
    requires t.worker == Executing(lane.worker.batch, lane.worker.live, lane.worker.carry)
    requires t.settled == lane.settled && t.answers == lane.answers
    ensures Sorted(t)
  {
    hide Requests;
  }

  lemma KeepsSorted(c: Config, closed: bool, cancelled: set<Request>, lane: Lane, step: LaneStep)
    requires LaneInv(c, closed, cancelled, lane) && LaneEnabled(c, closed, cancelled, lane, step)
    ensures Sorted(LaneApply(c, closed, cancelled, lane, step))
  {
    var t := LaneApply(c, closed, cancelled, lane, step);
    if step.DropCancelled? || step.KeepLive? {
      hide *;
      FilterStepKeepsSorted(c, closed, cancelled, lane, step);
    } else if step.Execute? {
      hide Sorted;
      ExecutingKeepsSorted(lane, t);
    } else {
      assert t.worker.Filtering? ==> t.worker.live == [] && t.worker.next == 0;
      assert !t.worker.Executing?;
      hide LaneApply, LaneEnabled, LaneInv;
    }
  }

  lemma KeepsJustified(c: Config, closed: bool, cancelled: set<Request>, lane: Lane, step: LaneStep)
    requires Justified(closed, cancelled, lane) && LaneEnabled(c, closed, cancelled, lane, step)
    ensures Justified(closed, cancelled, LaneApply(c, closed, cancelled, lane, step))
  {
    hide DeliverAll, Told;
  }

  // Every step of a worker keeps its boundary's account.
  lemma {:induction false} LaneStepKeepsInv(c: Config, closed: bool, cancelled: set<Request>, lane: Lane, step: LaneStep)
    requires ValidConfig(c) && LaneInv(c, closed, cancelled, lane) && LaneEnabled(c, closed, cancelled, lane, step)
    ensures LaneInv(c, closed, cancelled, LaneApply(c, closed, cancelled, lane, step))
  {
    KeepsAnswers(c, closed, cancelled, lane, step);
    KeepsSorted(c, closed, cancelled, lane, step);
    hide LaneApply, LaneEnabled, Sorted, Answered, Accounted, InOrder, Justified;
    if Settles(step) {
      SettlingKeepsAccount(c, closed, cancelled, lane, step);
    } else if Takes(step) {
      TakingKeepsAccount(c, closed, cancelled, lane, step);
    } else {
      MovingKeepsAccount(c, closed, cancelled, lane, step);
    }
    KeepsOrder(c, closed, cancelled, lane, step);
    KeepsBounds(c, closed, cancelled, lane, step);
    KeepsJustified(c, closed, cancelled, lane, step);
  }
}
