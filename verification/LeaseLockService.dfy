// What the lease lock (orisun/jetstream_lock_provider.go) does for its callers: a release frees the
// lock, a renewal extends it, the lock of a holder that died can be had once its lease runs out,
// and a handle that is lost or released is so for good.
module LeaseLockService {
  import opened Common
  import opened LeaseLock

  // ---- Release ----

  // The bucket shows a value of this handle.
  ghost predicate Shown(s: State, token: Token) {
    token in s.calls && token in s.leases && s.calls[token].name in s.bucket && s.bucket[s.calls[token].name].value.token == token
  }

  lemma HeldIsShown(steps: seq<Step>, token: Token)
    requires Held(Run(steps), token)
    ensures Shown(Run(steps), token)
  {
    hide Run, Inv;
    RunKeepsInv(steps);
    HolderIsStored(Run(steps), token);
  }

  lemma ShownIsStored(s: State, token: Token)
    requires Inv(s) && Shown(s, token)
    ensures var entry := s.bucket[s.calls[token].name];
      WasStored(s, entry.revision, s.calls[token].name) && s.history[entry.revision].value == entry.value
      && entry.value.owner == s.calls[token].owner
  {
    hide ClaimsStand, SoundPhases, SoundRequest, SoundReply, SoundLease;
  }

  // What Release does: end the handle, then delete the key at the revision just read.
  function Releasing(token: Token, revision: nat): seq<Step> {
    [Release(token), SendDelete(token, revision), Serve(Delete(token, revision))]
  }

  // At any moment of any run, releasing a handle whose value the bucket shows, above all one that
  // is held, removes the key, with no time passing and no other lock touched.
  lemma {:induction false} ReleaseFreesLock(steps: seq<Step>, token: Token)
    requires Shown(Run(steps), token)
    ensures var s := Run(steps);
      var name := s.calls[token].name;
      var t := Run(steps + Releasing(token, s.bucket[name].revision));
      && t.bucket == s.bucket - {name} && t.clock == s.clock && t.calls == s.calls
      && token in t.leases && t.leases[token].released
  {
    hide Run, Inv;
    var s := Run(steps);
    RunKeepsInv(steps);
    ShownIsStored(s, token);
    var revision := s.bucket[s.calls[token].name].revision;
    var released := steps + [Release(token)];
    var sent := released + [SendDelete(token, revision)];
    RunStep(steps, Release(token));
    RunStep(released, SendDelete(token, revision));
    RunStep(sent, Serve(Delete(token, revision)));
    assert steps + Releasing(token, revision) == sent + [Serve(Delete(token, revision))];
  }

  // So the next caller has it at once.
  lemma {:induction false} ReleasedLockObtainable(steps: seq<Step>, token: Token, next: Token, owner: string, duration: nat)
    returns (more: seq<Step>)
    requires Held(Run(steps), token) && next !in Run(steps).calls && duration > 0
    ensures token in Run(steps).calls
    ensures var s, t := Run(steps), Run(steps + more);
      Held(t, next) && t.clock == s.clock && HoldsUntil(t, next, s.calls[token].name, owner, s.clock + duration)
  {
    hide Run, Held, HoldsUntil, Shown;
    HeldIsShown(steps, token);
    var name := NameShown(Run(steps), token);
    var releasing := Releasing(token, Run(steps).bucket[name].revision);
    ReleaseFreesLock(steps, token);
    var rest := FreeLockObtainable(steps + releasing, next, name, owner, duration);
    more := releasing + rest;
    assert steps + more == steps + releasing + rest;
  }

  lemma NameShown(s: State, token: Token) returns (name: string)
    requires Shown(s, token)
    ensures token in s.calls && name == s.calls[token].name && name in s.bucket
  {
    name := s.calls[token].name;
  }

  // ---- Renewal ----

  // What a heartbeat does, `sending` after which its update is applied and `answering` after
  // which its reply comes back.
  function Renewing(token: Token, expires: int, revision: nat, sending: nat, answering: nat, next: nat): seq<Step> {
    [SendRenewal(token), Tick(sending), Serve(Update(token, expires, revision)), Tick(answering), RenewalSucceeds(token, next)]
  }

  // The handle is live, not awaiting a reply, and its revision is the one the bucket shows.
  ghost predicate Renewable(s: State, token: Token) {
    && Shown(s, token) && Active(s, token) && s.leases[token].renewing == None
    && s.bucket[s.calls[token].name].revision == s.leases[token].revision
  }

  // A renewal sent at some time, and applied and answered whenever after, leaves handle and stored
  // value ending one duration after that time; so it outlasts the expiry it had before.
  lemma {:induction false} RenewalExtends(steps: seq<Step>, token: Token, sending: nat, answering: nat)
    requires Renewable(Run(steps), token)
    ensures var s := Run(steps);
      var call, expires := s.calls[token], s.clock + s.calls[token].duration;
      var t := Run(steps + Renewing(token, expires, s.leases[token].revision, sending, answering, s.last + 1));
      && t.clock == s.clock + sending + answering
      && HoldsUntil(t, token, call.name, call.owner, expires)
      && (Held(t, token) <==> sending + answering < call.duration)
  {
    hide Run;
    var s := Run(steps);
    var expires, revision := s.clock + s.calls[token].duration, s.leases[token].revision;
    RenewalIsApplied(steps, token, sending);
    var d := steps + Applying(token, expires, revision, sending);
    RenewalIsAnswered(d, token, answering, s.last + 1);
    assert steps + Renewing(token, expires, revision, sending, answering, s.last + 1) == d + [Tick(answering)] + [RenewalSucceeds(token, s.last + 1)];
  }

  function Applying(token: Token, expires: int, revision: nat, sending: nat): seq<Step> {
    [SendRenewal(token), Tick(sending), Serve(Update(token, expires, revision))]
  }

  lemma RenewalIsApplied(steps: seq<Step>, token: Token, sending: nat)
    requires Renewable(Run(steps), token)
    ensures var s := Run(steps);
      var call, lease, expires := s.calls[token], s.leases[token], s.clock + s.calls[token].duration;
      var t := Run(steps + Applying(token, expires, lease.revision, sending));
      && t.clock == s.clock + sending && t.calls == s.calls
      && t.bucket == s.bucket[call.name := Entry(s.last + 1, Value(call.owner, token, expires))]
      && t.leases == s.leases[token := lease.(renewing := Some(expires))]
      && Reply(Update(token, expires, lease.revision), s.last + 1) in t.replies
  {
    hide Run;
    var s := Run(steps);
    var expires, revision := s.clock + s.calls[token].duration, s.leases[token].revision;
    var update := Update(token, expires, revision);
    var a := steps + [SendRenewal(token)];
    var b := a + [Tick(sending)];
    RunStep(steps, SendRenewal(token));
    RunStep(a, Tick(sending));
    RunStep(b, Serve(update));
    assert steps + Applying(token, expires, revision, sending) == b + [Serve(update)];
  }

  lemma RenewalIsAnswered(steps: seq<Step>, token: Token, answering: nat, revision: nat)
    requires token in Run(steps).leases && Run(steps).leases[token].renewing.Some?
    requires var lease := Run(steps).leases[token];
      Reply(Update(token, lease.renewing.value, lease.revision), revision) in Run(steps).replies
    ensures var s, t := Run(steps), Run(steps + [Tick(answering)] + [RenewalSucceeds(token, revision)]);
      && t.clock == s.clock + answering && t.calls == s.calls && t.bucket == s.bucket && token in t.leases
      && t.leases[token] == s.leases[token].(revision := revision, expires := s.leases[token].renewing.value, renewing := None)
  {
    hide Run;
    RunStep(steps, Tick(answering));
    RunStep(steps + [Tick(answering)], RenewalSucceeds(token, revision));
  }

  // In every run the expiry a renewal awaits is one duration after it was sent.
  lemma {:induction false} RenewingSince(steps: seq<Step>, token: Token) returns (k: nat)
    requires token in Run(steps).leases && Run(steps).leases[token].renewing.Some?
    ensures k < |steps| && steps[k] == SendRenewal(token) && Enabled(Run(steps[..k]), SendRenewal(token))
    ensures token in Run(steps).calls
    ensures Run(steps).leases[token].renewing.value == Run(steps[..k]).clock + Run(steps).calls[token].duration
  {
    var init, last := steps[..|steps| - 1], steps[|steps| - 1];
    var s := Run(init);
    if Enabled(s, last) {
      RenewingStep(s, last, token);
    }
    hide Apply, Enabled;
    if last == SendRenewal(token) && Enabled(s, last) {
      k := |init|;
    } else {
      k := RenewingSince(init, token);
      assert init[..k] == steps[..k];
    }
  }

  lemma RenewingStep(s: State, step: Step, token: Token)
    requires Enabled(s, step) && token in Apply(s, step).leases && Apply(s, step).leases[token].renewing.Some?
    ensures if step == SendRenewal(token)
      then token in Apply(s, step).calls && Apply(s, step).leases[token].renewing.value == s.clock + Apply(s, step).calls[token].duration
      else && token in s.leases && s.leases[token].renewing == Apply(s, step).leases[token].renewing
           && (token in s.calls ==> token in Apply(s, step).calls && Apply(s, step).calls[token].duration == s.calls[token].duration)
  {
    if step.Serve? {
      hide ServeRequest;
      ServingLeavesLeases(s, step.request);
    } else if OfCall(step) {
      CallRenewsNothing(s, step, token);
      hide Apply;
    }
  }

  lemma CallRenewsNothing(s: State, step: Step, token: Token)
    requires Enabled(s, step) && OfCall(step)
    ensures var t := Apply(s, step);
      && (token in t.leases && t.leases[token].renewing.Some? ==> token in s.leases && t.leases[token].renewing == s.leases[token].renewing)
      && (token in s.calls ==> token in t.calls && t.calls[token].duration == s.calls[token].duration)
  {
  }

  // ---- A holder that died ----

  // Once the stored lease has run out, and not a moment later, anybody can have the lock,
  // whatever became of its holder.
  lemma {:induction false} DeadHoldersLockObtainable(steps: seq<Step>, token: Token, name: string, owner: string, duration: nat)
    returns (more: seq<Step>)
    requires token !in Run(steps).calls && name in Run(steps).bucket && duration > 0
    ensures var s, t := Run(steps), Run(steps + more);
      var since := if s.bucket[name].value.expires > s.clock then s.bucket[name].value.expires else s.clock;
      Held(t, token) && t.clock == since && HoldsUntil(t, token, name, owner, since + duration)
  {
    hide Run, Held, HoldsUntil;
    var s := Run(steps);
    var wait := if s.bucket[name].value.expires > s.clock then s.bucket[name].value.expires - s.clock else 0;
    RunStep(steps, Tick(wait));
    var rest := ExpiredLockReclaimable(steps + [Tick(wait)], token, name, owner, duration);
    more := [Tick(wait)] + rest;
    assert steps + more == steps + [Tick(wait)] + rest;
  }

  // ---- Lost and released for good ----

  lemma StepKeepsEnded(s: State, step: Step, token: Token)
    requires Inv(s) && Enabled(s, step) && token in s.leases
    ensures token in Apply(s, step).leases
    ensures s.leases[token].lost ==> Apply(s, step).leases[token].lost
    ensures s.leases[token].released ==> Apply(s, step).leases[token].released
  {
    hide Inv;
    LeaseIsOver(s, token);
    if OfCall(step) {
      CallLeavesLeases(s, step, token);
    } else if step.Serve? {
      ServingLeavesLeases(s, step.request);
    }
  }

  // The call of a handle has returned.
  lemma LeaseIsOver(s: State, token: Token)
    requires Inv(s) && token in s.leases
    ensures token in s.calls && s.calls[token].phase == Finished
  {
    assert SoundLease(s, token);
  }

  lemma CallLeavesLeases(s: State, step: Step, token: Token)
    requires Enabled(s, step) && OfCall(step) && token in s.leases && token in s.calls && s.calls[token].phase == Finished
    ensures token in Apply(s, step).leases && Apply(s, step).leases[token] == s.leases[token]
  {
  }

  lemma ServingLeavesLeases(s: State, request: Request)
    requires request.token in s.calls
    ensures ServeRequest(s, request).leases == s.leases && ServeRequest(s, request).calls == s.calls
  {
  }

  lemma {:induction false} RunKeepsEnded(steps: seq<Step>, more: seq<Step>, token: Token)
    requires token in Run(steps).leases
    ensures token in Run(steps + more).leases
    ensures Run(steps).leases[token].lost ==> Run(steps + more).leases[token].lost
    ensures Run(steps).leases[token].released ==> Run(steps + more).leases[token].released
  {
    hide Inv, Apply, Enabled;
    if more == [] {
      assert steps + more == steps;
    } else {
      var init, last := more[..|more| - 1], more[|more| - 1];
      assert (steps + more)[..|steps + more| - 1] == steps + init && (steps + more)[|steps + more| - 1] == last;
      RunKeepsEnded(steps, init, token);
      RunKeepsInv(steps + init);
      if Enabled(Run(steps + init), last) {
        StepKeepsEnded(Run(steps + init), last, token);
      }
    }
  }

  // A handle that ran out, or found the key gone or not its own, and one that was released.
  predicate Ends(step: Step, token: Token) {
    || step == ExpireLease(token) || step == FindNoKey(token) || step == Release(token)
    || (step.FindNotOwned? && step.token == token)
  }

  // From then on, in every longer run, it sends no renewal; and once released it is not held.
  lemma {:induction false} EndedForGood(steps: seq<Step>, step: Step, more: seq<Step>, token: Token)
    requires Enabled(Run(steps), step) && Ends(step, token)
    ensures var t := Run(steps + [step] + more);
      && !Enabled(t, SendRenewal(token)) && token in t.leases
      && (if step.Release? then t.leases[token].released && !Held(t, token) else t.leases[token].lost)
  {
    hide Run;
    RunStep(steps, step);
    RunKeepsEnded(steps + [step], more, token);
  }

  // ---- A bounded number of attempts ----

  // How often a call sends its Create in a run.
  function Attempts(steps: seq<Step>, token: Token): nat {
    if steps == [] then 0
    else
      var init, last := steps[..|steps| - 1], steps[|steps| - 1];
      Attempts(init, token) + (if last == SendCreate(token) && Enabled(Run(init), last) then 1 else 0)
  }

  // The attempts of a call so far, the one under way included.
  function Begun(call: Call): nat {
    call.attempt + (if call.phase.Creating? || call.phase.Inspecting? || call.phase.Reclaiming? then 1 else 0)
  }

  ghost predicate Counted(s: State, token: Token, attempts: nat) {
    if token !in s.calls then attempts == 0
    else
      var call := s.calls[token];
      && call.attempt <= MAX_RETRIES && (call.phase != Finished ==> call.attempt < MAX_RETRIES)
      && attempts <= MAX_RETRIES && (call.phase != Finished ==> attempts == Begun(call))
  }

  lemma StepCounts(s: State, step: Step, token: Token, attempts: nat)
    requires Enabled(s, step) && Counted(s, token, attempts)
    ensures Counted(Apply(s, step), token, attempts + (if step == SendCreate(token) then 1 else 0))
  {
    if step.Serve? {
      hide Counted;
      ServingLeavesLeases(s, step.request);
      SameCount(s, Apply(s, step), token, attempts);
    } else if !OfCall(step) && !step.Acquire? {
      hide Counted;
      SameCount(s, Apply(s, step), token, attempts);
    } else if step.Acquire? {
      AcquireCounts(s, step, token, attempts);
    } else {
      CallCounts(s, step, token, attempts);
    }
  }

  lemma SameCount(s: State, t: State, token: Token, attempts: nat)
    requires Counted(s, token, attempts) && t.calls == s.calls
    ensures Counted(t, token, attempts)
  {
  }

  lemma AcquireCounts(s: State, step: Step, token: Token, attempts: nat)
    requires Enabled(s, step) && Counted(s, token, attempts) && step.Acquire?
    ensures Counted(Apply(s, step), token, attempts)
  {
  }

  lemma CallCounts(s: State, step: Step, token: Token, attempts: nat)
    requires Enabled(s, step) && Counted(s, token, attempts) && OfCall(step)
    ensures Counted(Apply(s, step), token, attempts + (if step == SendCreate(token) then 1 else 0))
  {
    if step.token != token {
      OthersCalls(s, step, token);
      hide Apply, Enabled;
    }
  }

  lemma OthersCalls(s: State, step: Step, token: Token)
    requires Enabled(s, step) && OfCall(step) && step.token != token
    ensures var t := Apply(s, step); (token in t.calls <==> token in s.calls) && (token in s.calls ==> t.calls[token] == s.calls[token])
  {
  }

  lemma {:induction false} AttemptsCounted(steps: seq<Step>, token: Token)
    ensures Counted(Run(steps), token, Attempts(steps, token))
  {
    hide Apply, Enabled, Counted;
    if steps == [] {
      NothingCounted(token);
    } else {
      var init, last := steps[..|steps| - 1], steps[|steps| - 1];
      AttemptsCounted(init, token);
      if Enabled(Run(init), last) {
        StepCounts(Run(init), last, token, Attempts(init, token));
      }
    }
  }

  lemma NothingCounted(token: Token)
    ensures Counted(INITIAL, token, 0)
  {
  }

  // No call ever makes more than three attempts.
  lemma {:induction false} AtMostThreeAttempts(steps: seq<Step>, token: Token)
    ensures Attempts(steps, token) <= 3
  {
    AttemptsCounted(steps, token);
  }

  // ---- Trying again ----

  // The call found the key and then no longer, or another caller's lease alive, or lost the race
  // to replace an expired one.
  predicate Misses(s: State, step: Step, token: Token)
    requires token in s.calls
  {
    || step == InspectFindsNothing(token) || step == ReclaimFails(token)
    || (step.InspectFinds? && step.token == token && WasStored(s, step.revision, s.calls[token].name)
        && s.calls[token].phase.Inspecting? && s.history[step.revision].value.expires > s.calls[token].phase.now)
  }

  lemma MissedTriesAgain(s: State, step: Step, token: Token)
    requires token in s.calls && Misses(s, step, token) && Enabled(s, step) && s.calls[token].attempt + 1 < MAX_RETRIES
    ensures Apply(s, step) == s.(calls := s.calls[token := s.calls[token].(attempt := s.calls[token].attempt + 1, phase := Ready)])
  {
  }

  // Unless it was the last, an attempt that misses is followed by another, which has the lock if it
  // is free by then.
  lemma {:induction false} NextAttemptObtains(steps: seq<Step>, step: Step, token: Token) returns (more: seq<Step>)
    requires token in Run(steps).calls && Misses(Run(steps), step, token) && Enabled(Run(steps), step)
    requires Run(steps).calls[token].attempt + 1 < MAX_RETRIES && Run(steps).calls[token].name !in Run(steps).bucket && Run(steps).calls[token].duration > 0
    ensures var s, t := Run(steps), Run(steps + more);
      var call := s.calls[token];
      && more != [] && more[0] == step && t.clock == s.clock
      && Held(t, token) && HoldsUntil(t, token, call.name, call.owner, s.clock + call.duration)
  {
    hide Run, Misses;
    var s := Run(steps);
    var create := Create(token, s.clock + s.calls[token].duration);
    MissedTriesAgain(s, step, token);
    var a := steps + [step];
    var b := a + [SendCreate(token)];
    RunStep(steps, step);
    hide Enabled, Apply;
    AttemptObtains(a, token);
    more := [step] + [SendCreate(token), Serve(create), CreateSucceeds(token, Run(a).last + 1)];
    assert steps + more == a + [SendCreate(token), Serve(create), CreateSucceeds(token, Run(a).last + 1)];
  }

  lemma AttemptObtains(steps: seq<Step>, token: Token)
    requires token in Run(steps).calls && Run(steps).calls[token].phase == Ready
    requires Run(steps).calls[token].name !in Run(steps).bucket && Run(steps).calls[token].duration > 0
    ensures var s := Run(steps);
      var call := s.calls[token];
      var t := Run(steps + [SendCreate(token), Serve(Create(token, s.clock + call.duration)), CreateSucceeds(token, s.last + 1)]);
      t.clock == s.clock && Held(t, token) && HoldsUntil(t, token, call.name, call.owner, s.clock + call.duration)
  {
    hide Run;
    var s := Run(steps);
    var create := Create(token, s.clock + s.calls[token].duration);
    var b := steps + [SendCreate(token)];
    RunStep(steps, SendCreate(token));
    CreateObtains(b, token);
    assert steps + [SendCreate(token), Serve(create), CreateSucceeds(token, s.last + 1)]
        == b + [Serve(create)] + [CreateSucceeds(token, s.last + 1)];
  }

  lemma CreateObtains(steps: seq<Step>, token: Token)
    requires token in Run(steps).calls && Run(steps).calls[token].phase.Creating?
    requires var s := Run(steps);
      var call := s.calls[token];
      call.name !in s.bucket && Create(token, call.phase.now + call.duration) in s.sent && s.clock < call.phase.now + call.duration
    ensures var s := Run(steps);
      var call := s.calls[token];
      var t := Run(steps + [Serve(Create(token, call.phase.now + call.duration))] + [CreateSucceeds(token, s.last + 1)]);
      t.clock == s.clock && Held(t, token) && HoldsUntil(t, token, call.name, call.owner, call.phase.now + call.duration)
  {
    hide Run;
    var s := Run(steps);
    var create := Create(token, s.calls[token].phase.now + s.calls[token].duration);
    RunStep(steps, Serve(create));
    RunStep(steps + [Serve(create)], CreateSucceeds(token, s.last + 1));
  }

  // ---- A call that fails ----

  ghost predicate GaveUp(s: State, token: Token) {
    token in s.calls && s.calls[token].phase == Finished && token !in s.leases
  }

  lemma StepKeepsGivenUp(s: State, step: Step, token: Token)
    requires Enabled(s, step) && GaveUp(s, token)
    ensures GaveUp(Apply(s, step), token)
  {
    if step.Serve? {
      hide ServeRequest;
      ServingLeavesLeases(s, step.request);
    } else if OfCall(step) {
      OthersCalls(s, step, token);
      CallStartsOwn(s, step, token);
      hide Apply;
    }
  }

  lemma CallStartsOwn(s: State, step: Step, token: Token)
    requires Enabled(s, step) && OfCall(step) && step.token != token
    ensures token in Apply(s, step).leases <==> token in s.leases
  {
  }

  lemma {:induction false} RunKeepsGivenUp(steps: seq<Step>, more: seq<Step>, token: Token)
    requires GaveUp(Run(steps), token)
    ensures GaveUp(Run(steps + more), token)
  {
    hide GaveUp, Apply, Enabled;
    if more == [] {
      assert steps + more == steps;
    } else {
      var init, last := more[..|more| - 1], more[|more| - 1];
      assert (steps + more)[..|steps + more| - 1] == steps + init && (steps + more)[|steps + more| - 1] == last;
      RunKeepsGivenUp(steps, init, token);
      if Enabled(Run(steps + init), last) {
        StepKeepsGivenUp(Run(steps + init), last, token);
      }
    }
  }

  // A call that ends in an error of the bucket never holds the lock afterwards.
  lemma {:induction false} FailedCallNeverHolds(steps: seq<Step>, step: Step, more: seq<Step>, token: Token)
    requires (step == CreateFails(token) || step == InspectFails(token)) && Enabled(Run(steps), step)
    ensures !Held(Run(steps + [step] + more), token)
  {
    hide Run, Inv;
    RunKeepsInv(steps);
    if token in Run(steps).leases {
      LeaseIsOver(Run(steps), token);
    }
    RunStep(steps, step);
    RunKeepsGivenUp(steps + [step], more, token);
  }

  // ---- Renewing again ----

  // A renewal that failed without taking effect can be sent again.
  lemma {:induction false} FailedRenewalCanBeRepeated(steps: seq<Step>, token: Token)
    requires Shown(Run(steps), token) && Active(Run(steps), token) && Run(steps).leases[token].renewing.Some?
    requires Run(steps).bucket[Run(steps).calls[token].name].revision == Run(steps).leases[token].revision
    ensures Renewable(Run(steps + [RenewalFails(token)]), token)
  {
    hide Run;
    RunStep(steps, RenewalFails(token));
  }
}
