// The renewable lease lock over a revisioned key-value bucket
// (orisun/jetstream_lock_provider.go), as atomic steps of any number of callers, the bucket
// and one shared clock. Requests may be applied late, never, or more than once; replies may
// be lost; a read may return any value the key ever had.
module LeaseLock {
  import opened Common

  type Token = string

  // jetStreamLockValue.
  datatype Value = Value(owner: string, token: Token, expires: int)

  datatype Entry = Entry(revision: nat, value: Value)

  // A value once stored under a name; its revision identifies it for good.
  datatype Stored = Stored(name: string, value: Value)

  datatype Request =
    | Create(token: Token, expires: int)
    | Update(token: Token, expires: int, expected: nat)
    | Delete(token: Token, expected: nat)

  // The reply to a successful Create or Update.
  datatype Reply = Reply(request: Request, revision: nat)

  const MAX_RETRIES := 3

  // Where one AcquireLock call stands; `now` is the time its attempt began.
  datatype Phase =
    | Ready
    | Creating(now: int)
    | Inspecting(now: int)
    | Reclaiming(now: int, expected: nat)
    | Finished

  datatype Call = Call(name: string, owner: string, duration: nat, attempt: nat, phase: Phase)

  // jetStreamLockLeaseHandle. `released` once stop or the parent context has ended it;
  // `renewing` holds the expiry of a renewal whose reply is awaited.
  datatype Lease = Lease(revision: nat, expires: int, released: bool, lost: bool, renewing: Option<int>)

  datatype State = State(
    clock: int,
    last: nat,
    bucket: map<string, Entry>,
    history: map<nat, Stored>,
    sent: set<Request>,
    replies: set<Reply>,
    calls: map<Token, Call>,
    leases: map<Token, Lease>)

  const INITIAL := State(0, 0, map[], map[], {}, {}, map[], map[])

  datatype Step =
    | Tick(elapsed: nat)
    | Acquire(token: Token, name: string, owner: string, duration: nat)
    | SendCreate(token: Token)
    | CreateSucceeds(token: Token, revision: nat)
    | CreateFindsKey(token: Token)
    | CreateFails(token: Token)
    | InspectFinds(token: Token, revision: nat)
    | InspectFindsNothing(token: Token)
    | InspectFails(token: Token)
    | ReclaimSucceeds(token: Token, revision: nat)
    | ReclaimFails(token: Token)
    | SendRenewal(token: Token)
    | RenewalSucceeds(token: Token, revision: nat)
    | RenewalFails(token: Token)
    | ExpireLease(token: Token)
    | FindNotOwned(token: Token, revision: nat)
    | FindNoKey(token: Token)
    | Release(token: Token)
    | SendDelete(token: Token, revision: nat)
    | Serve(request: Request)

  // ---- The bucket ----

  function Put(s: State, name: string, value: Value, request: Request): State {
    var revision := s.last + 1;
    s.(last := revision,
       bucket := s.bucket[name := Entry(revision, value)],
       history := s.history[revision := Stored(name, value)],
       replies := s.replies + {Reply(request, revision)})
  }

  // Create needs the key absent; Update and Delete need the expected revision to be current.
  function ServeRequest(s: State, request: Request): State
    requires request.token in s.calls
  {
    var call := s.calls[request.token];
    match request
    case Create(token, expires) =>
      if call.name !in s.bucket then Put(s, call.name, Value(call.owner, token, expires), request) else s
    case Update(token, expires, expected) =>
      if call.name in s.bucket && s.bucket[call.name].revision == expected
      then Put(s, call.name, Value(call.owner, token, expires), request) else s
    case Delete(token, expected) =>
      if call.name in s.bucket && s.bucket[call.name].revision == expected
      then s.(last := s.last + 1, bucket := s.bucket - {call.name}) else s
  }

  // ---- The callers ----

  function InPhase(s: State, token: Token, phase: Phase): State
    requires token in s.calls
  {
    s.(calls := s.calls[token := s.calls[token].(phase := phase)])
  }

  // The next attempt, or giving up after the last.
  function Retry(s: State, token: Token): State
    requires token in s.calls
  {
    var call := s.calls[token];
    var next := if call.attempt + 1 < MAX_RETRIES then Ready else Finished;
    s.(calls := s.calls[token := call.(attempt := call.attempt + 1, phase := next)])
  }

  // startLease.
  function StartLease(s: State, token: Token, revision: nat, expires: int): State
    requires token in s.calls
  {
    var t := InPhase(s, token, Finished);
    t.(leases := t.leases[token := Lease(revision, expires, false, false, None)])
  }

  function WithLease(s: State, token: Token, lease: Lease): State {
    s.(leases := s.leases[token := lease])
  }

  function Send(s: State, request: Request): State {
    s.(sent := s.sent + {request})
  }

  predicate WasStored(s: State, revision: nat, name: string) {
    revision in s.history && s.history[revision].name == name
  }

  predicate Active(s: State, token: Token) {
    token in s.leases && !s.leases[token].released && !s.leases[token].lost
  }

  predicate Owns(s: State, token: Token, v: Value)
    requires token in s.calls
  {
    v.owner == s.calls[token].owner && v.token == token && v.expires > s.clock
  }

  predicate Enabled(s: State, step: Step) {
    match step
    case Tick(_) => true
    case Acquire(token, _, _, _) => token !in s.calls
    case SendCreate(token) => token in s.calls && s.calls[token].phase == Ready
    case CreateSucceeds(token, revision) =>
      && token in s.calls && s.calls[token].phase.Creating?
      && Reply(Create(token, s.calls[token].phase.now + s.calls[token].duration), revision) in s.replies
    case CreateFindsKey(token) => token in s.calls && s.calls[token].phase.Creating?
    case CreateFails(token) => token in s.calls && s.calls[token].phase.Creating?
    case InspectFinds(token, revision) =>
      token in s.calls && s.calls[token].phase.Inspecting? && WasStored(s, revision, s.calls[token].name)
    case InspectFindsNothing(token) => token in s.calls && s.calls[token].phase.Inspecting?
    case InspectFails(token) => token in s.calls && s.calls[token].phase.Inspecting?
    case ReclaimSucceeds(token, revision) =>
      && token in s.calls && s.calls[token].phase.Reclaiming?
      && var call := s.calls[token];
         Reply(Update(token, call.phase.now + call.duration, call.phase.expected), revision) in s.replies
    case ReclaimFails(token) => token in s.calls && s.calls[token].phase.Reclaiming?
    case SendRenewal(token) => token in s.calls && Active(s, token) && s.leases[token].renewing == None
    case RenewalSucceeds(token, revision) =>
      && token in s.leases && s.leases[token].renewing.Some?
      && Reply(Update(token, s.leases[token].renewing.value, s.leases[token].revision), revision) in s.replies
    case RenewalFails(token) => token in s.leases && s.leases[token].renewing.Some?
    case ExpireLease(token) => token in s.leases && s.clock >= s.leases[token].expires
    case FindNotOwned(token, revision) =>
      && token in s.calls && token in s.leases && WasStored(s, revision, s.calls[token].name)
      && !Owns(s, token, s.history[revision].value)
    case FindNoKey(token) => token in s.leases
    case Release(token) => token in s.leases
    case SendDelete(token, revision) =>
      && token in s.calls && token in s.leases && s.leases[token].released
      && WasStored(s, revision, s.calls[token].name)
      && s.history[revision].value.owner == s.calls[token].owner && s.history[revision].value.token == token
    case Serve(request) => request in s.sent && request.token in s.calls
  }

  function Apply(s: State, step: Step): State
    requires Enabled(s, step)
  {
    match step
    case Tick(elapsed) => s.(clock := s.clock + elapsed)
    case Acquire(token, name, owner, duration) => s.(calls := s.calls[token := Call(name, owner, duration, 0, Ready)])
    case SendCreate(token) =>
      Send(InPhase(s, token, Creating(s.clock)), Create(token, s.clock + s.calls[token].duration))
    case CreateSucceeds(token, revision) =>
      StartLease(s, token, revision, s.calls[token].phase.now + s.calls[token].duration)
    case CreateFindsKey(token) => InPhase(s, token, Inspecting(s.calls[token].phase.now))
    case CreateFails(token) => InPhase(s, token, Finished)
    case InspectFinds(token, revision) =>
      var now, duration := s.calls[token].phase.now, s.calls[token].duration;
      // Only a lease already expired when the attempt began may be replaced.
      if s.history[revision].value.expires <= now
      then Send(InPhase(s, token, Reclaiming(now, revision)), Update(token, now + duration, revision))
      else Retry(s, token)
    case InspectFindsNothing(token) => Retry(s, token)
    case InspectFails(token) => InPhase(s, token, Finished)
    case ReclaimSucceeds(token, revision) =>
      StartLease(s, token, revision, s.calls[token].phase.now + s.calls[token].duration)
    case ReclaimFails(token) => Retry(s, token)
    case SendRenewal(token) =>
      var expires := s.clock + s.calls[token].duration;
      Send(WithLease(s, token, s.leases[token].(renewing := Some(expires))),
           Update(token, expires, s.leases[token].revision))
    case RenewalSucceeds(token, revision) =>
      var lease := s.leases[token];
      WithLease(s, token, lease.(revision := revision, expires := lease.renewing.value, renewing := None))
    case RenewalFails(token) => WithLease(s, token, s.leases[token].(renewing := None))
    case ExpireLease(token) => WithLease(s, token, s.leases[token].(lost := true))
    case FindNotOwned(token, _) => WithLease(s, token, s.leases[token].(lost := true))
    case FindNoKey(token) => WithLease(s, token, s.leases[token].(lost := true))
    case Release(token) => WithLease(s, token, s.leases[token].(released := true))
    case SendDelete(token, revision) => Send(s, Delete(token, revision))
    case Serve(request) => ServeRequest(s, request)
  }

  // A run takes each step that is possible when its turn comes.
  function Run(steps: seq<Step>): State {
    if steps == [] then INITIAL
    else
      var s, step := Run(steps[..|steps| - 1]), steps[|steps| - 1];
      if Enabled(s, step) then Apply(s, step) else s
  }

  // ---- The invariant ----

  // The bucket shows the newest stored value of each key, under its revision.
  ghost predicate BucketMatchesHistory(s: State) {
    && (forall name :: name in s.bucket ==>
      && s.bucket[name].revision in s.history
      && s.history[s.bucket[name].revision] == Stored(name, s.bucket[name].value))
    && (forall r :: r in s.history ==> r <= s.last)
  }

  // A stored value names a call on that key, made no longer ago than its expiry says.
  ghost predicate ValuesFromCalls(s: State) {
    forall r :: r in s.history ==>
      var stored := s.history[r];
      && stored.value.token in s.calls
      && s.calls[stored.value.token].name == stored.name
      && s.calls[stored.value.token].owner == stored.value.owner
      && stored.value.expires <= s.clock + s.calls[stored.value.token].duration
  }

  ghost predicate SoundRequest(s: State, request: Request) {
    && request.token in s.calls
    && (request.Create? ==> request.expires <= s.clock + s.calls[request.token].duration)
    && (request.Update? ==>
      && request.expires <= s.clock + s.calls[request.token].duration
      && WasStored(s, request.expected, s.calls[request.token].name)
      && var current := s.history[request.expected].value;
         if current.token == request.token then request.expires >= current.expires else current.expires <= s.clock)
    && (request.Delete? ==>
      && request.token in s.leases && s.leases[request.token].released
      && WasStored(s, request.expected, s.calls[request.token].name)
      && s.history[request.expected].value.token == request.token)
  }

  ghost predicate SoundReply(s: State, reply: Reply) {
    && !reply.request.Delete? && reply.request.token in s.calls
    && WasStored(s, reply.revision, s.calls[reply.request.token].name)
    && s.history[reply.revision].value.token == reply.request.token
    && s.history[reply.revision].value.expires == reply.request.expires
  }

  ghost predicate SoundPhases(s: State) {
    forall token :: token in s.calls && !s.calls[token].phase.Ready? && !s.calls[token].phase.Finished? ==>
      s.calls[token].phase.now <= s.clock
  }

  // A lease's local expiry is that of the value stored under its revision.
  ghost predicate SoundLease(s: State, token: Token)
    requires token in s.leases
  {
    && token in s.calls && s.calls[token].phase == Finished
    && WasStored(s, s.leases[token].revision, s.calls[token].name)
    && s.history[s.leases[token].revision].value.token == token
    && s.history[s.leases[token].revision].value.expires == s.leases[token].expires
  }

  ghost predicate Unreleased(s: State, token: Token) {
    token in s.leases ==> !s.leases[token].released
  }

  // An unexpired value of a lease nobody released is still what the bucket holds, or the
  // same lease has since been extended there.
  ghost predicate ClaimStands(s: State, stored: Stored) {
    && stored.name in s.bucket
    && s.bucket[stored.name].value.token == stored.value.token
    && s.bucket[stored.name].value.expires >= stored.value.expires
  }

  ghost predicate ClaimsStand(s: State) {
    forall r :: r in s.history && s.history[r].value.expires > s.clock && Unreleased(s, s.history[r].value.token) ==>
      ClaimStands(s, s.history[r])
  }

  ghost predicate Inv(s: State) {
    && BucketMatchesHistory(s) && ValuesFromCalls(s) && SoundPhases(s) && ClaimsStand(s)
    && (forall request :: request in s.sent ==> SoundRequest(s, request))
    && (forall reply :: reply in s.replies ==> SoundReply(s, reply))
    && (forall token :: token in s.leases ==> SoundLease(s, token))
  }

  // States that agree on all that requests, replies and leases are judged by.
  ghost predicate SameJudgement(s: State, t: State) {
    && t.clock == s.clock && t.history == s.history && t.leases == s.leases && t.calls.Keys == s.calls.Keys
    && forall token :: token in s.calls ==>
      && t.calls[token].name == s.calls[token].name && t.calls[token].owner == s.calls[token].owner
      && t.calls[token].duration == s.calls[token].duration
  }

  lemma RequestsCarryOver(s: State, t: State)
    requires SameJudgement(s, t) && t.sent == s.sent && forall r :: r in s.sent ==> SoundRequest(s, r)
    ensures forall r :: r in t.sent ==> SoundRequest(t, r)
  {
    forall r | r in t.sent ensures SoundRequest(t, r) {
      assert SoundRequest(s, r);
    }
  }

  lemma RepliesCarryOver(s: State, t: State)
    requires SameJudgement(s, t) && t.replies == s.replies && forall r :: r in s.replies ==> SoundReply(s, r)
    ensures forall r :: r in t.replies ==> SoundReply(t, r)
  {
    forall r | r in t.replies ensures SoundReply(t, r) {
      assert SoundReply(s, r);
    }
  }

  lemma ValuesCarryOver(s: State, t: State)
    requires SameJudgement(s, t) && ValuesFromCalls(s)
    ensures ValuesFromCalls(t)
  {
  }

  lemma ClaimsCarryOver(s: State, t: State)
    requires t.bucket == s.bucket && t.history == s.history && t.last == s.last && t.clock >= s.clock
    requires BucketMatchesHistory(s) && ClaimsStand(s)
    requires forall token :: Unreleased(t, token) ==> Unreleased(s, token)
    ensures BucketMatchesHistory(t) && ClaimsStand(t)
  {
    forall r | r in t.history && t.history[r].value.expires > t.clock && Unreleased(t, t.history[r].value.token)
      ensures ClaimStands(t, t.history[r])
    {
      assert ClaimStands(s, s.history[r]);
    }
  }

  lemma SameValues(s: State, t: State)
    requires t.history == s.history && t.calls == s.calls && t.clock == s.clock && ValuesFromCalls(s)
    ensures ValuesFromCalls(t)
  {
  }

  // Time passing, or a new call: everything already judged stays sound.
  lemma GrowthKeepsInv(s: State, t: State)
    requires Inv(s) && t.clock >= s.clock && t.calls.Keys >= s.calls.Keys && SoundPhases(t)
    requires forall token :: token in s.calls ==> t.calls[token] == s.calls[token]
    requires t == s.(clock := t.clock, calls := t.calls)
    ensures Inv(t)
  {
    hide ClaimsStand, BucketMatchesHistory, SoundPhases;
    ClaimsCarryOver(s, t);
    forall r | r in t.sent ensures SoundRequest(t, r) {
      assert SoundRequest(s, r);
    }
    forall r | r in t.replies ensures SoundReply(t, r) {
      assert SoundReply(s, r);
    }
    forall token | token in t.leases ensures SoundLease(t, token) {
      assert SoundLease(s, token);
    }
  }

  lemma BeginKeepsInv(s: State, step: Step)
    requires Inv(s) && Enabled(s, step) && (step.Tick? || step.Acquire?)
    ensures Inv(Apply(s, step))
  {
    assert SoundPhases(Apply(s, step));
    hide Inv;
    GrowthKeepsInv(s, Apply(s, step));
  }

  // A call moving on without sending anything.
  lemma PhaseKeepsInv(s: State, token: Token, call: Call)
    requires Inv(s) && token in s.calls && s.calls[token].phase != Finished
    requires call.name == s.calls[token].name && call.owner == s.calls[token].owner && call.duration == s.calls[token].duration
    requires !call.phase.Ready? && !call.phase.Finished? ==> call.phase.now <= s.clock
    ensures Inv(s.(calls := s.calls[token := call]))
  {
    hide SoundRequest, SoundReply, ValuesFromCalls, ClaimsStand, BucketMatchesHistory;
    var t := s.(calls := s.calls[token := call]);
    RequestsCarryOver(s, t);
    RepliesCarryOver(s, t);
    ValuesCarryOver(s, t);
    ClaimsCarryOver(s, t);
    assert token !in s.leases by {
      assert token in s.leases ==> SoundLease(s, token);
    }
    forall other | other in t.leases ensures SoundLease(t, other) {
      assert SoundLease(s, other) && other != token;
    }
  }

  lemma SendKeepsInv(s: State, request: Request)
    requires Inv(s) && SoundRequest(s, request)
    ensures Inv(Send(s, request))
  {
    hide ClaimsStand, BucketMatchesHistory, ValuesFromCalls, SoundReply;
    var t := Send(s, request);
    RepliesCarryOver(s, t);
    ClaimsCarryOver(s, t);
    SameValues(s, t);
    forall r | r in t.sent ensures SoundRequest(t, r) {
      assert SoundRequest(s, r);
    }
    forall token | token in t.leases ensures SoundLease(t, token) {
      assert SoundLease(s, token);
    }
  }

  // A lease whose revision and expiry are those of a value stored for it, and which never
  // comes back from release.
  lemma LeaseKeepsInv(s: State, token: Token, lease: Lease)
    requires Inv(s) && token in s.calls && s.calls[token].phase == Finished
    requires token in s.leases && s.leases[token].released ==> lease.released
    requires WasStored(s, lease.revision, s.calls[token].name)
    requires s.history[lease.revision].value.token == token && s.history[lease.revision].value.expires == lease.expires
    ensures Inv(WithLease(s, token, lease))
  {
    hide ValuesFromCalls, BucketMatchesHistory, ClaimStands;
    var t := WithLease(s, token, lease);
    forall r | r in t.sent ensures SoundRequest(t, r) {
      assert SoundRequest(s, r);
    }
    forall r | r in t.replies ensures SoundReply(t, r) {
      assert SoundReply(s, r);
    }
    forall other | other in t.leases ensures SoundLease(t, other) {
      assert other != token ==> SoundLease(s, other);
    }
    ClaimsCarryOver(s, t);
    assert ValuesFromCalls(t) by {
      SameValues(s, t);
    }
  }

  lemma StartLeaseKeepsInv(s: State, token: Token, request: Request, revision: nat)
    requires Inv(s) && token in s.calls && s.calls[token].phase != Finished
    requires !request.Delete? && request.token == token && Reply(request, revision) in s.replies
    ensures Inv(StartLease(s, token, revision, request.expires))
  {
    assert SoundReply(s, Reply(request, revision));
    assert token in s.leases ==> SoundLease(s, token);
    PhaseKeepsInv(s, token, s.calls[token].(phase := Finished));
    LeaseKeepsInv(InPhase(s, token, Finished), token, Lease(revision, request.expires, false, false, None));
  }

  lemma UpdateLeaseKeepsInv(s: State, token: Token, lease: Lease)
    requires Inv(s) && token in s.leases
    requires s.leases[token].released ==> lease.released
    requires lease.revision == s.leases[token].revision && lease.expires == s.leases[token].expires
    ensures Inv(WithLease(s, token, lease))
  {
    assert SoundLease(s, token);
    LeaseKeepsInv(s, token, lease);
  }

  lemma RenewalIsSound(s: State, token: Token, lease: Lease)
    requires Inv(s) && token in s.leases
    ensures token in s.calls
    ensures var expires := s.clock + s.calls[token].duration;
      SoundRequest(WithLease(s, token, lease), Update(token, expires, s.leases[token].revision))
  {
    assert SoundLease(s, token);
  }

  lemma SendRenewalKeepsInv(s: State, token: Token)
    requires Inv(s) && Enabled(s, SendRenewal(token))
    ensures Inv(Apply(s, SendRenewal(token)))
  {
    hide Inv;
    var expires := s.clock + s.calls[token].duration;
    var lease := s.leases[token].(renewing := Some(expires));
    RenewalIsSound(s, token, lease);
    UpdateLeaseKeepsInv(s, token, lease);
    SendKeepsInv(WithLease(s, token, lease), Update(token, expires, lease.revision));
  }

  lemma RenewalSucceedsKeepsInv(s: State, token: Token, revision: nat)
    requires Inv(s) && Enabled(s, RenewalSucceeds(token, revision))
    ensures Inv(Apply(s, RenewalSucceeds(token, revision)))
  {
    var lease := s.leases[token];
    assert SoundLease(s, token);
    assert SoundReply(s, Reply(Update(token, lease.renewing.value, lease.revision), revision));
    LeaseKeepsInv(s, token, lease.(revision := revision, expires := lease.renewing.value, renewing := None));
  }

  lemma ReclaimIsSound(s: State, token: Token, revision: nat)
    requires Inv(s) && Enabled(s, InspectFinds(token, revision))
    requires s.history[revision].value.expires <= s.calls[token].phase.now
    ensures var now := s.calls[token].phase.now;
      SoundRequest(InPhase(s, token, Reclaiming(now, revision)), Update(token, now + s.calls[token].duration, revision))
  {
  }

  lemma ReclaimKeepsInv(s: State, token: Token, revision: nat)
    requires Inv(s) && Enabled(s, InspectFinds(token, revision))
    requires s.history[revision].value.expires <= s.calls[token].phase.now
    ensures var now := s.calls[token].phase.now;
      Inv(Send(InPhase(s, token, Reclaiming(now, revision)), Update(token, now + s.calls[token].duration, revision)))
  {
    hide Inv;
    var call := s.calls[token];
    ReclaimIsSound(s, token, revision);
    PhaseKeepsInv(s, token, call.(phase := Reclaiming(call.phase.now, revision)));
    SendKeepsInv(InPhase(s, token, Reclaiming(call.phase.now, revision)), Update(token, call.phase.now + call.duration, revision));
  }

  lemma InspectKeepsInv(s: State, token: Token, revision: nat)
    requires Inv(s) && Enabled(s, InspectFinds(token, revision))
    ensures Inv(Apply(s, InspectFinds(token, revision)))
  {
    hide Inv;
    if s.history[revision].value.expires <= s.calls[token].phase.now {
      ReclaimKeepsInv(s, token, revision);
    } else {
      RetryKeepsInv(s, token);
    }
  }

  lemma RetryKeepsInv(s: State, token: Token)
    requires Inv(s) && token in s.calls && s.calls[token].phase != Finished
    ensures Inv(Retry(s, token))
  {
    hide Inv;
    var call := s.calls[token];
    var next := if call.attempt + 1 < MAX_RETRIES then Ready else Finished;
    PhaseKeepsInv(s, token, call.(attempt := call.attempt + 1, phase := next));
  }

  // ---- The bucket serving a request ----

  // Nobody's unexpired, unreleased claim on the key stands in the way of this value.
  ghost predicate Free(s: State, name: string, value: Value) {
    forall r :: r in s.history && s.history[r].name == name && s.history[r].value.expires > s.clock
      && Unreleased(s, s.history[r].value.token)
      ==> s.history[r].value.token == value.token && s.history[r].value.expires <= value.expires
  }

  lemma PutKeepsBucket(s: State, name: string, value: Value, request: Request)
    requires BucketMatchesHistory(s) && ClaimsStand(s) && Free(s, name, value)
    ensures BucketMatchesHistory(Put(s, name, value, request))
    ensures ClaimsStand(Put(s, name, value, request))
  {
    var t := Put(s, name, value, request);
    assert s.last + 1 !in s.history;
    forall r | r in t.history && t.history[r].value.expires > t.clock && Unreleased(t, t.history[r].value.token)
      ensures ClaimStands(t, t.history[r])
    {
      if r in s.history {
        assert t.history[r] == s.history[r] && ClaimStands(s, s.history[r]);
      }
    }
  }

  lemma PutKeepsMessages(s: State, name: string, value: Value, request: Request)
    requires Inv(s) && request in s.sent && !request.Delete? && s.calls[request.token].name == name
    requires value == Value(s.calls[request.token].owner, request.token, request.expires)
    ensures var t := Put(s, name, value, request);
      && (forall r :: r in t.sent ==> SoundRequest(t, r))
      && (forall r :: r in t.replies ==> SoundReply(t, r))
      && (forall token :: token in t.leases ==> SoundLease(t, token))
  {
    hide ClaimsStand, ValuesFromCalls, SoundPhases;
    var t := Put(s, name, value, request);
    assert SoundRequest(s, request);
    assert s.last + 1 !in s.history;
    forall r | r in t.sent ensures SoundRequest(t, r) {
      assert SoundRequest(s, r);
    }
    forall r | r in t.replies ensures SoundReply(t, r) {
      assert r != Reply(request, s.last + 1) ==> SoundReply(s, r);
    }
    forall token | token in t.leases ensures SoundLease(t, token) {
      assert SoundLease(s, token);
    }
  }

  lemma PutKeepsInv(s: State, request: Request, value: Value)
    requires Inv(s) && request in s.sent && !request.Delete?
    requires value == Value(s.calls[request.token].owner, request.token, request.expires)
    requires Free(s, s.calls[request.token].name, value)
    ensures Inv(Put(s, s.calls[request.token].name, value, request))
  {
    hide ClaimsStand, BucketMatchesHistory, SoundReply, SoundLease;
    var name := s.calls[request.token].name;
    PutKeepsBucket(s, name, value, request);
    PutKeepsMessages(s, name, value, request);
    assert SoundRequest(s, request);
  }

  lemma ServeKeepsInv(s: State, request: Request)
    requires Inv(s) && request in s.sent
    ensures request.token in s.calls && Inv(ServeRequest(s, request))
  {
    assert SoundRequest(s, request);
    var name := s.calls[request.token].name;
    match request
    case Create(token, expires) =>
      if name !in s.bucket {
        PutKeepsInv(s, request, Value(s.calls[token].owner, token, expires));
      }
    case Update(token, expires, expected) =>
      if name in s.bucket && s.bucket[name].revision == expected {
        PutKeepsInv(s, request, Value(s.calls[token].owner, token, expires));
      }
    case Delete(token, expected) =>
      if name in s.bucket && s.bucket[name].revision == expected {
        DeleteKeepsInv(s, request);
      }
  }

  lemma DeleteKeepsInv(s: State, request: Request)
    requires Inv(s) && request in s.sent && request.Delete?
    requires s.calls[request.token].name in s.bucket
    requires s.bucket[s.calls[request.token].name].revision == request.expected
    ensures Inv(ServeRequest(s, request))
  {
    var t := ServeRequest(s, request);
    assert SoundRequest(s, request);
    RequestsCarryOver(s, t);
    RepliesCarryOver(s, t);
    hide SoundRequest, SoundReply, ValuesFromCalls, SoundPhases;
    ValuesCarryOver(s, t);
    forall token | token in t.leases ensures SoundLease(t, token) {
      assert SoundLease(s, token);
    }
    assert SoundPhases(t) by {
      PhasesCarryOver(s, t);
    }
  }

  lemma PhasesCarryOver(s: State, t: State)
    requires SoundPhases(s) && t.calls == s.calls && t.clock == s.clock
    ensures SoundPhases(t)
  {
  }

  predicate OfCall(step: Step) {
    step.SendCreate? || step.CreateSucceeds? || step.CreateFindsKey? || step.CreateFails? || step.InspectFinds?
    || step.InspectFindsNothing? || step.InspectFails? || step.ReclaimSucceeds? || step.ReclaimFails?
  }

  lemma SendCreateKeepsInv(s: State, token: Token)
    requires Inv(s) && Enabled(s, SendCreate(token))
    ensures Inv(Apply(s, SendCreate(token)))
  {
    hide Inv;
    PhaseKeepsInv(s, token, s.calls[token].(phase := Creating(s.clock)));
    SendKeepsInv(InPhase(s, token, Creating(s.clock)), Create(token, s.clock + s.calls[token].duration));
  }

  lemma CreateFindsKeyKeepsInv(s: State, token: Token)
    requires Inv(s) && Enabled(s, CreateFindsKey(token))
    ensures Inv(Apply(s, CreateFindsKey(token)))
  {
    PhaseKeepsInv(s, token, s.calls[token].(phase := Inspecting(s.calls[token].phase.now)));
  }

  lemma CallStepKeepsInv(s: State, step: Step)
    requires Inv(s) && Enabled(s, step) && OfCall(step)
    ensures Inv(Apply(s, step))
  {
    hide Inv;
    var token := step.token;
    var call := s.calls[token];
    match step
    case SendCreate(_) => SendCreateKeepsInv(s, token);
    case CreateSucceeds(_, revision) => StartLeaseKeepsInv(s, token, Create(token, call.phase.now + call.duration), revision);
    case CreateFindsKey(_) => CreateFindsKeyKeepsInv(s, token);
    case CreateFails(_) => PhaseKeepsInv(s, token, call.(phase := Finished));
    case InspectFinds(_, revision) => InspectKeepsInv(s, token, revision);
    case InspectFindsNothing(_) => RetryKeepsInv(s, token);
    case InspectFails(_) => PhaseKeepsInv(s, token, call.(phase := Finished));
    case ReclaimSucceeds(_, revision) =>
      StartLeaseKeepsInv(s, token, Update(token, call.phase.now + call.duration, call.phase.expected), revision);
    case ReclaimFails(_) => RetryKeepsInv(s, token);
  }

  lemma {:induction false} StepKeepsInv(s: State, step: Step)
    requires Inv(s) && Enabled(s, step)
    ensures Inv(Apply(s, step))
  {
    hide Inv;
    if OfCall(step) {
      CallStepKeepsInv(s, step);
    } else {
      match step
      case Tick(elapsed) => BeginKeepsInv(s, step);
      case Acquire(token, name, owner, duration) => BeginKeepsInv(s, step);
      case SendRenewal(token) => SendRenewalKeepsInv(s, token);
      case RenewalSucceeds(token, revision) => RenewalSucceedsKeepsInv(s, token, revision);
      case RenewalFails(token) => UpdateLeaseKeepsInv(s, token, s.leases[token].(renewing := None));
      case ExpireLease(token) => UpdateLeaseKeepsInv(s, token, s.leases[token].(lost := true));
      case FindNotOwned(token, _) => UpdateLeaseKeepsInv(s, token, s.leases[token].(lost := true));
      case FindNoKey(token) => UpdateLeaseKeepsInv(s, token, s.leases[token].(lost := true));
      case Release(token) => UpdateLeaseKeepsInv(s, token, s.leases[token].(released := true));
      case SendDelete(token, revision) => SendKeepsInv(s, Delete(token, revision));
      case Serve(request) => ServeKeepsInv(s, request);
    }
  }

  lemma {:induction false} RunKeepsInv(steps: seq<Step>)
    ensures Inv(Run(steps))
  {
    if steps != [] {
      var s, step := Run(steps[..|steps| - 1]), steps[|steps| - 1];
      RunKeepsInv(steps[..|steps| - 1]);
      if Enabled(s, step) {
        StepKeepsInv(s, step);
      }
    }
  }

  // ---- Lock safety ----

  // A handle that has not been released and whose local expiry lies ahead.
  ghost predicate Held(s: State, token: Token) {
    token in s.leases && !s.leases[token].released && s.clock < s.leases[token].expires
  }

  // After any interleaving, with requests and replies delayed or lost, at most one handle per
  // lock name is held; handles marked lost are not even needed as an exception.
  lemma {:induction false} AtMostOneHolder(steps: seq<Step>, a: Token, b: Token)
    requires Held(Run(steps), a) && Held(Run(steps), b)
    requires a in Run(steps).calls && b in Run(steps).calls && Run(steps).calls[a].name == Run(steps).calls[b].name
    ensures a == b
  {
    var s := Run(steps);
    RunKeepsInv(steps);
    HolderIsStored(s, a);
    HolderIsStored(s, b);
  }

  lemma {:induction false} HolderIsStored(s: State, token: Token)
    requires Inv(s) && Held(s, token)
    ensures token in s.calls && s.calls[token].name in s.bucket
    ensures s.bucket[s.calls[token].name].value.token == token
    ensures s.bucket[s.calls[token].name].value.expires >= s.leases[token].expires
  {
    assert SoundLease(s, token);
    assert ClaimStands(s, s.history[s.leases[token].revision]);
  }

  // A delete that takes effect removes a value of the very lease that sent it.
  lemma {:induction false} DeletesOnlyOwnEntry(steps: seq<Step>, request: Request)
    requires Enabled(Run(steps), Serve(request)) && request.Delete?
    ensures var s := Run(steps);
      var t := Apply(s, Serve(request));
      forall name :: name in s.bucket && name !in t.bucket ==> s.bucket[name].value.token == request.token
  {
    hide Inv, Run;
    RunKeepsInv(steps);
    DeleteTakesOwn(Run(steps), request);
  }

  lemma DeleteTakesOwn(s: State, request: Request)
    requires Inv(s) && request in s.sent && request.Delete? && request.token in s.calls
    ensures forall name :: name in s.bucket && name !in ServeRequest(s, request).bucket ==> s.bucket[name].value.token == request.token
  {
    hide ClaimsStand, ValuesFromCalls, SoundPhases, SoundReply, SoundLease;
    assert SoundRequest(s, request);
  }

  // The moment a fresh read shows a lease's own unexpired value, as Check requires, nobody
  // else holds the lock.
  lemma {:induction false} CheckedLeaseIsExclusive(steps: seq<Step>, token: Token, other: Token)
    requires var s := Run(steps);
      && token in s.calls && s.calls[token].name in s.bucket && Owns(s, token, s.bucket[s.calls[token].name].value)
      && other in s.calls && s.calls[other].name == s.calls[token].name && other != token
    ensures !Held(Run(steps), other)
    ensures var s := Run(steps);
      var value := s.bucket[s.calls[token].name].value;
      value.token == token && value.owner == s.calls[token].owner && value.expires > s.clock
  {
    RunKeepsInv(steps);
    if Held(Run(steps), other) {
      HolderIsStored(Run(steps), other);
    }
  }

  // ---- The lock can be had ----

  lemma RunStep(steps: seq<Step>, step: Step)
    requires Enabled(Run(steps), step)
    ensures Run(steps + [step]) == Apply(Run(steps), step)
  {
    assert (steps + [step])[..|steps|] == steps;
  }

  // The first two steps of an attempt.
  lemma BeginAttempt(steps: seq<Step>, token: Token, name: string, owner: string, duration: nat) returns (more: seq<Step>)
    requires token !in Run(steps).calls
    ensures var s, t := Run(steps), Run(steps + more);
      t == Send(s.(calls := s.calls[token := Call(name, owner, duration, 0, Creating(s.clock))]), Create(token, s.clock + duration))
  {
    hide Run;
    var s := Run(steps);
    var one := steps + [Acquire(token, name, owner, duration)];
    RunStep(steps, Acquire(token, name, owner, duration));
    RunStep(one, SendCreate(token));
    more := [Acquire(token, name, owner, duration), SendCreate(token)];
    assert steps + more == one + [SendCreate(token)];
    assert s.calls[token := Call(name, owner, duration, 0, Ready)][token := Call(name, owner, duration, 0, Creating(s.clock))]
      == s.calls[token := Call(name, owner, duration, 0, Creating(s.clock))];
  }

  // The bucket shows a handle's value under the handle's own revision, and both end then.
  ghost predicate HoldsUntil(s: State, token: Token, name: string, owner: string, expires: int) {
    && name in s.bucket && s.bucket[name].value == Value(owner, token, expires)
    && token in s.calls && s.calls[token].name == name && s.calls[token].owner == owner
    && token in s.leases && s.leases[token] == Lease(s.bucket[name].revision, expires, false, false, None)
  }

  // At any moment of any run, a lock whose key is absent can be acquired by a fresh caller, at
  // once and for its whole duration.
  lemma {:induction false} FreeLockObtainable(steps: seq<Step>, token: Token, name: string, owner: string, duration: nat)
    returns (more: seq<Step>)
    requires token !in Run(steps).calls && name !in Run(steps).bucket && duration > 0
    ensures var s, t := Run(steps), Run(steps + more);
      Held(t, token) && t.clock == s.clock && HoldsUntil(t, token, name, owner, s.clock + duration)
  {
    hide Run;
    var s := Run(steps);
    var create := Create(token, s.clock + duration);
    var begun := BeginAttempt(steps, token, name, owner, duration);
    var sent := steps + begun;
    RunStep(sent, Serve(create));
    var served := sent + [Serve(create)];
    RunStep(served, CreateSucceeds(token, s.last + 1));
    more := begun + [Serve(create), CreateSucceeds(token, s.last + 1)];
    assert steps + more == served + [CreateSucceeds(token, s.last + 1)];
  }

  // Finding the key and an expired lease, the caller sends its reclaim.
  lemma BeginReclaim(steps: seq<Step>, token: Token, revision: nat) returns (more: seq<Step>)
    requires token in Run(steps).calls && Run(steps).calls[token].phase.Creating?
    requires WasStored(Run(steps), revision, Run(steps).calls[token].name)
    requires Run(steps).history[revision].value.expires <= Run(steps).calls[token].phase.now
    ensures var s, t := Run(steps), Run(steps + more);
      var call := s.calls[token];
      && t == s.(calls := t.calls, sent := t.sent)
      && token in t.calls && t.calls[token] == call.(phase := Reclaiming(call.phase.now, revision))
      && Update(token, call.phase.now + call.duration, revision) in t.sent
  {
    hide Run;
    RunStep(steps, CreateFindsKey(token));
    var found := steps + [CreateFindsKey(token)];
    RunStep(found, InspectFinds(token, revision));
    more := [CreateFindsKey(token), InspectFinds(token, revision)];
    assert steps + more == found + [InspectFinds(token, revision)];
  }

  lemma FinishReclaim(steps: seq<Step>, token: Token) returns (more: seq<Step>)
    requires token in Run(steps).calls && Run(steps).calls[token].phase.Reclaiming?
    requires var s := Run(steps);
      var call := s.calls[token];
      && Update(token, call.phase.now + call.duration, call.phase.expected) in s.sent
      && call.name in s.bucket && s.bucket[call.name].revision == call.phase.expected
      && s.clock < call.phase.now + call.duration
    ensures var s, t := Run(steps), Run(steps + more);
      var call := s.calls[token];
      Held(t, token) && t.clock == s.clock && HoldsUntil(t, token, call.name, call.owner, call.phase.now + call.duration)
  {
    hide Run;
    var s := Run(steps);
    var update := Update(token, s.calls[token].phase.now + s.calls[token].duration, s.calls[token].phase.expected);
    RunStep(steps, Serve(update));
    var served := steps + [Serve(update)];
    RunStep(served, ReclaimSucceeds(token, s.last + 1));
    more := [Serve(update), ReclaimSucceeds(token, s.last + 1)];
    assert steps + more == served + [ReclaimSucceeds(token, s.last + 1)];
  }

  lemma OneAfterAnother<T>(a: seq<T>, b: seq<T>, c: seq<T>, d: seq<T>)
    ensures a + (b + c + d) == a + b + c + d
  {
  }

  // And one whose stored lease has expired can be reclaimed.
  lemma {:induction false} ExpiredLockReclaimable(steps: seq<Step>, token: Token, name: string, owner: string, duration: nat)
    returns (more: seq<Step>)
    requires token !in Run(steps).calls && duration > 0
    requires name in Run(steps).bucket && Run(steps).bucket[name].value.expires <= Run(steps).clock
    ensures var s, t := Run(steps), Run(steps + more);
      Held(t, token) && t.clock == s.clock && HoldsUntil(t, token, name, owner, s.clock + duration)
  {
    var revision := Run(steps).bucket[name].revision;
    assert WasStored(Run(steps), revision, name) && Run(steps).history[revision].value.expires <= Run(steps).clock by {
      RunKeepsInv(steps);
    }
    hide Run, Held, WasStored, Inv, HoldsUntil;
    var begun := BeginAttempt(steps, token, name, owner, duration);
    var found := BeginReclaim(steps + begun, token, revision);
    var finished := FinishReclaim(steps + begun + found, token);
    more := begun + found + finished;
    OneAfterAnother(steps, begun, found, finished);
  }
}
