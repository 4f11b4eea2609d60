/** The dead-man switch over whole runs: silence past the grace cannot end
    itself, and timely heartbeats never run into it. */
module Deadman {
  import opened Types
  import opened LedgerSpec
  import opened EngineSpec
  import opened ValidationSpec
  import opened StagingFacts
  import opened ContractSpec
  import opened Runs
  import opened Authorized

  /** The switch has run out at time `t` under the policy in force. */
  predicate Lapsed(s: State, t: u64) {
    s.policy.Some? && HeartbeatLapsed(s.policy.value, Heartbeat(s), t)
  }

  /** An edit to this policy leaves the silence expired: the switch stays on, with
      a grace the silence has outlasted already. */
  predicate StaysExpired(cfg: PolicyConfig, s: State, now: u64) {
    0 < cfg.dmsGraceSecs < now - Heartbeat(s)
  }

  /** The calls that end an expired silence: one is the admin's liveness
      attestation, one drops the policy, and an edit can move the grace past the
      silence or turn the switch off. Refused, they do not. */
  predicate Revives(self: Address, s: State, e: Event) {
    && Succeeds(self, s, e)
    && (e.action.Unfreeze? || e.action.RevokePolicy?
        || (e.action.SetPolicy? && !StaysExpired(e.action.config, s, e.now)))
  }

  predicate AsksForSomething(a: Action) {
    (a.CheckAuth? && a.contexts != []) || a.Beat?
  }

  /** Exactly what passes a closed account gate: a signed request for nothing. */
  lemma ClosedGatePasses(self: Address, s: State, now: u64, ctxs: seq<Context>, signed: bool)
    requires AccountGate(s.policy, Account(s), now).Some?
    ensures Authorize(self, s, now, ctxs, signed).outcome == Done <==>
      ctxs == [] && signed && s.agentKey.Some? && s.policy.Some?
  {
    RefusedUpFront(self, s.policy, Account(s), LoadWindow(s), now, ctxs);
    hide AccountGate, Evaluate, LoadWindow;
  }

  /** Exactly when an edit leaves an expired silence expired. */
  lemma EditRevives(self: Address, s: State, e: Event, t: u64)
    requires Inv(self, s, t) && t <= e.now && Lapsed(s, t) && e.action.SetPolicy? && Succeeds(self, s, e)
    ensures Lapsed(Apply(self, s, e).state, e.now) <==> StaysExpired(e.action.config, s, e.now)
  {
    hide ValidPolicy, StoredCoherent;
  }

  lemma LapsedStep(self: Address, s: State, e: Event, t: u64)
    requires Inv(self, s, t) && t <= e.now && Lapsed(s, t) && !Revives(self, s, e)
    ensures AsksForSomething(e.action) ==> !Succeeds(self, s, e)
    ensures var s' := Apply(self, s, e).state; Heartbeat(s') == Heartbeat(s) && Lapsed(s', e.now)
  {
    hide AuthRuling, ValidPolicy, StoredCoherent, HeartbeatContext, SavesBack;
    assert AccountGate(s.policy, Account(s), e.now).Some?;
    if e.action.CheckAuth? || e.action.Beat? {
      ClosedGatePasses(self, s, e.now, e.action.contexts, SignedBy(s, e.action.signer));
    }
  }

  /** From an expired state, through edits that leave it expired and as long as no
      other edit, `unfreeze` or `revoke_policy` succeeds, every non-empty
      authorization is refused, heartbeats included, and the recorded heartbeat
      never moves. */
  lemma {:induction false} SilenceCannotSelfRevive(self: Address, t0: u64, states: seq<State>, events: seq<Event>, n: nat)
    requires IsRun(self, t0, states, events) && n <= |events|
    requires Inv(self, states[0], t0) && Lapsed(states[0], t0)
    requires forall i :: 0 <= i < n ==> !Revives(self, states[i], events[i])
    ensures Lapsed(states[n], Clock(t0, events, n)) && Heartbeat(states[n]) == Heartbeat(states[0])
    ensures forall i :: 0 <= i < n && AsksForSomething(events[i].action) ==> !Succeeds(self, states[i], events[i])
  {
    if n > 0 {
      SilenceCannotSelfRevive(self, t0, states, events, n - 1);
      RunKeepsInv(self, t0, states, events, n - 1);
      assert StepAt(self, states, events, n - 1);
      LapsedStep(self, states[n - 1], events[n - 1], Clock(t0, events, n - 1));
      hide Apply, Lapsed, Inv, Revives;
    }
  }

  // ---- Timely heartbeats ----

  /** A heartbeat of the agent's own: signed with its key, and asking for nothing else. */
  predicate IsPlainBeat(self: Address, s: State, a: Action) {
    a.Beat? && a.contexts == [HeartbeatContext(self)] && SignedBy(s, a.signer)
  }

  /** The time of the last plain heartbeat call among the first `n`, or of the
      heartbeat recorded before. */
  function LastBeat(self: Address, recorded: u64, states: seq<State>, events: seq<Event>, n: nat): u64
    requires n <= |events| < |states|
  {
    if n == 0 then recorded
    else if IsPlainBeat(self, states[n - 1], events[n - 1].action) then events[n - 1].now
    else LastBeat(self, recorded, states, events, n - 1)
  }

  /** Nothing but the dead-man switch could refuse the agent. */
  predicate OtherwiseUngated(s: State, now: u64) {
    && s.policy.Some? && !s.policy.value.paused
    && !Or(s.adminFrozen, false) && !OutsideActive(s.policy.value, now)
  }

  /** At call `i` the last plain heartbeat call is at most the grace in force old,
      and if the call is one itself, nothing else gates it. */
  predicate TimelyAt(self: Address, states: seq<State>, events: seq<Event>, i: nat)
    requires i < |events| < |states|
  {
    && (IsPlainBeat(self, states[i], events[i].action) ==> OtherwiseUngated(states[i], events[i].now))
    && (states[i].policy.Some? ==>
        var grace := states[i].policy.value.dmsGraceSecs;
        grace == 0 || events[i].now - LastBeat(self, Heartbeat(states[0]), states, events, i) <= grace)
  }

  lemma PlainBeatSucceeds(self: Address, s: State, e: Event, t: u64)
    requires Inv(self, s, t) && IsPlainBeat(self, s, e.action)
    requires OtherwiseUngated(s, e.now) && !Lapsed(s, e.now)
    ensures Succeeds(self, s, e) && Heartbeat(Apply(self, s, e).state) == e.now
  {
    hide Evaluate, ValidPolicy, StoredCoherent, LoadWindow, Current, Commit, SavesBack, OutsideActive;
    var cfg := s.policy.value;
    assert AccountGate(s.policy, Account(s), e.now).None?;
    EvaluateOne(self, cfg, Current(cfg, LoadWindow(s), e.now), e.now, HeartbeatContext(self));
    assert AuthRuling(self, s, e.now, e.action.contexts).verdicts == [Allowed];
    hide AuthRuling;
  }

  /** Once initialized, no call of any kind moves the recorded heartbeat back. */
  lemma HeartbeatKept(self: Address, s: State, e: Event, t: u64)
    requires Inv(self, s, t) && t <= e.now && s.initialized
    ensures Apply(self, s, e).state.initialized && Heartbeat(s) <= Heartbeat(Apply(self, s, e).state)
  {
    hide AuthRuling, ValidPolicy, StoredCoherent, HeartbeatLapsed;
  }

  /** From any initialized state with a recorded heartbeat, such as an install at
      a nonzero time: an agent whose plain heartbeats come at most the grace apart
      and are gated by nothing else is never past the grace, and all of them
      succeed. Whatever else is called in between, by whomever: refused or bundled
      heartbeats, pauses, freezes, revocations, and edits as long as no grace in
      force is shorter than the gaps. */
  lemma {:induction false} TimelyNeverExpires(self: Address, t0: u64, states: seq<State>, events: seq<Event>, n: nat)
    requires IsRun(self, t0, states, events) && n <= |events|
    requires Inv(self, states[0], t0) && states[0].initialized && Heartbeat(states[0]) > 0
    requires forall i :: 0 <= i < n ==> TimelyAt(self, states, events, i)
    ensures states[n].initialized && 0 < LastBeat(self, Heartbeat(states[0]), states, events, n) <= Heartbeat(states[n])
    ensures forall i :: 0 <= i < n ==> !Lapsed(states[i], events[i].now)
    ensures forall i :: 0 <= i < n && IsPlainBeat(self, states[i], events[i].action) ==> Succeeds(self, states[i], events[i])
  {
    hide Apply, Inv, OutsideActive, HeartbeatContext, StepAt, IsPlainBeat, HeartbeatLapsed;
    if n == 0 {
      assert Heartbeat(states[0]) <= t0 by { RecordedNotAfter(self, states[0], t0); }
    } else {
      var s, e, t := states[n - 1], events[n - 1], Clock(t0, events, n - 1);
      assert TimelyAt(self, states, events, n - 1);
      TimelyNeverExpires(self, t0, states, events, n - 1);
      RunStep(self, t0, states, events, n - 1);
      hide IsRun;
      RecentNotLapsed(s, e.now, LastBeat(self, Heartbeat(states[0]), states, events, n - 1));
      HeartbeatKept(self, s, e, t);
      if IsPlainBeat(self, s, e.action) {
        PlainBeatSucceeds(self, s, e, t);
      }
      hide Lapsed;
    }
  }

  lemma RecentNotLapsed(s: State, now: u64, last: u64)
    requires 0 < last <= Heartbeat(s)
    requires s.policy.Some? ==> s.policy.value.dmsGraceSecs == 0 || now - last <= s.policy.value.dmsGraceSecs
    ensures !Lapsed(s, now)
  {
  }

  lemma RecordedNotAfter(self: Address, s: State, t: u64)
    requires Inv(self, s, t)
    ensures Heartbeat(s) <= t
  {
  }
}
