/** What each entry point writes and when each error comes up, field by field and
    error by error, and what that means over runs: the agent key, the freeze, the
    pause, the admin and its nominee, and the recorded expiry are what the latest
    successful call of the right kind made them. */
module EntryPoints {
  import opened Types
  import opened EngineSpec
  import opened ValidationSpec
  import opened ContractSpec
  import opened Runs
  import opened Governance
  import opened LedgerSpec
  import opened ErrorTable

  // ---- Who writes which field ----

  /** After a successful call, every field but window and revision. */
  lemma FieldsWritten(self: Address, s: State, e: Event)
    requires Succeeds(self, s, e)
    ensures var s', a := Apply(self, s, e).state, e.action;
      && s'.initialized == (a.Initialize? || s.initialized)
      && s'.admin == (if a.Initialize? then Some(a.admin) else if a.ConfirmAdmin? then s.pendingAdmin else s.admin)
      && s'.pendingAdmin == (if a.ProposeAdmin? then Some(a.nominee)
                             else if a.ConfirmAdmin? || a.CancelAdmin? then None else s.pendingAdmin)
      && s'.agentKey == (if a.Initialize? then Some(a.key) else if a.RotateAgentKey? then Some(a.newKey) else s.agentKey)
      && s'.policy == (if a.SetPolicy? then Some(a.config) else if a.RevokePolicy? then None
                       else if a.SetPaused? && s.policy.Some? then Some(s.policy.value.(paused := a.paused)) else s.policy)
      && s'.adminFrozen == (if a.Freeze? then Some(true)
                            else if a.Unfreeze? || a.Initialize? then Some(false) else s.adminFrozen)
      && Heartbeat(s') == (if a.Initialize? then 0
                           else if a.Beat? || a.Unfreeze? || (a.SetPolicy? && s.policy.None?) then e.now else Heartbeat(s))
      && Or(s'.autoFrozenAt, 0) == (if a.RefreshDeadman? && Or(s.autoFrozenAt, 0) == 0 && SilentTooLong(s, e.now)
                                    then e.now else Or(s.autoFrozenAt, 0))
  {
    hide AuthRuling, ValidPolicy;
  }

  /** The silence has outlasted the grace. */
  predicate SilentTooLong(s: State, now: u64) {
    && s.policy.Some? && s.policy.value.dmsGraceSecs > 0
    && Heartbeat(s) > 0 && now - Heartbeat(s) > s.policy.value.dmsGraceSecs
  }

  // ---- When which error comes up ----

  /** The call is one only the admin can make. */
  predicate ForAdmin(a: Action) {
    a.SetPolicy? || a.ResetWindow? || a.SetPaused? || a.RevokePolicy? || a.RotateAgentKey? || a.ProposeAdmin?
    || a.CancelAdmin? || a.Freeze? || a.Unfreeze?
  }

  predicate ByAdmin(s: State, e: Event) {
    s.admin.Some? && s.admin.value in e.auths
  }

  /** Every refusal of every administrative entry point: it traps exactly for want
      of an authorization, and each error has exactly these causes. */
  lemma RefusedExactly(self: Address, s: State, e: Event, t: u64)
    requires Inv(self, s, t) && !e.action.CheckAuth? && !e.action.Beat?
    ensures var o, a := Apply(self, s, e).outcome, e.action;
      && (o == Trapped <==>
          || (ForAdmin(a) && s.admin.Some? && s.admin.value !in e.auths)
          || (a.Initialize? && !s.initialized && a.admin !in e.auths)
          || (a.ConfirmAdmin? && s.pendingAdmin.Some? && s.pendingAdmin.value !in e.auths))
      && (o == Failed(AlreadyInitialized) <==> a.Initialize? && s.initialized)
      && (o == Failed(NotInitialized) <==> (ForAdmin(a) || a.ConfirmAdmin?) && s.admin.None?)
      && (o == Failed(InvalidConfig) <==>
          ByAdmin(s, e) && ((a.SetPolicy? && !SoundPolicy(self, a.config)) || (a.ProposeAdmin? && s.admin == Some(a.nominee))))
      && (o == Failed(NoPolicy) <==> ByAdmin(s, e) && a.SetPaused? && s.policy.None?)
      && (o == Failed(NoPendingAdmin) <==>
          s.pendingAdmin.None? && ((ByAdmin(s, e) && a.CancelAdmin?) || (s.admin.Some? && a.ConfirmAdmin?)))
      && (o == Done || o == Trapped
          || (o.Failed? && o.error in {AlreadyInitialized, NotInitialized, InvalidConfig, NoPolicy, NoPendingAdmin}))
  {
    if e.action.SetPolicy? {
      ValidIsSound(self, e.action.config);
    }
    hide ValidPolicy, SoundPolicy, HeartbeatLapsed, StoredCoherent, AuthRuling;
  }

  /** A request on the account itself succeeds as its authorization does; the
      heartbeat asks for it first, and turns any refusal into a trap. */
  lemma RequestOutcome(self: Address, s: State, e: Event)
    requires e.action.CheckAuth? || e.action.Beat?
    ensures var o := Authorize(self, s, e.now, e.action.contexts, SignedBy(s, e.action.signer)).outcome;
      Apply(self, s, e).outcome ==
        if e.action.CheckAuth? then o
        else if o == Done && Contract(self, "heartbeat", []) in e.action.contexts then Done else Trapped
  {
    hide AuthRuling;
  }

  // ---- The agent key ----

  predicate SetsKey(self: Address, s: State, e: Event, k: Key) {
    Succeeds(self, s, e) && (e.action == RotateAgentKey(k) || (e.action.Initialize? && e.action.key == k))
  }

  predicate KeepsKey(self: Address, s: State, e: Event) {
    !(Succeeds(self, s, e) && (e.action.RotateAgentKey? || e.action.Initialize?))
  }

  /** In every run from deployment the key is that of the latest successful
      rotation, authorized by the admin of that time, or of the initialization if
      there was none. */
  lemma {:induction false} KeyIsLatest(self: Address, t0: u64, states: seq<State>, events: seq<Event>, n: nat)
    returns (j: nat)
    requires IsRun(self, t0, states, events) && n <= |events| && states[0] == BLANK && states[n].agentKey.Some?
    ensures j < n && SetsKey(self, states[j], events[j], states[n].agentKey.value)
    ensures events[j].action.RotateAgentKey? ==> ByAdmin(states[j], events[j])
    ensures forall i :: j < i < n ==> KeepsKey(self, states[i], events[i])
  {
    var s, e := states[n - 1], events[n - 1];
    assert StepAt(self, states, events, n - 1);
    RotatedByAdmin(self, s, e);
    hide Apply;
    FailureChangesNothing(self, s, e);
    if Succeeds(self, s, e) {
      FieldsWritten(self, s, e);
    }
    if KeepsKey(self, s, e) {
      j := KeyIsLatest(self, t0, states, events, n - 1);
    } else {
      j := n - 1;
    }
  }

  lemma RotatedByAdmin(self: Address, s: State, e: Event)
    ensures ForAdmin(e.action) && Succeeds(self, s, e) ==> ByAdmin(s, e)
  {
    hide ValidPolicy;
  }

  /** As long as nobody rotates again, the key stays. */
  lemma {:induction false} KeyKept(self: Address, t0: u64, states: seq<State>, events: seq<Event>, i: nat, n: nat)
    requires IsRun(self, t0, states, events) && i <= n <= |events|
    requires forall m :: i <= m < n ==> KeepsKey(self, states[m], events[m])
    ensures states[n].agentKey == states[i].agentKey
    decreases n
  {
    hide Apply;
    if i < n {
      var s, e := states[n - 1], events[n - 1];
      KeyKept(self, t0, states, events, i, n - 1);
      assert StepAt(self, states, events, n - 1);
      FailureChangesNothing(self, s, e);
      if Succeeds(self, s, e) {
        FieldsWritten(self, s, e);
      }
    }
  }

  /** After a rotation, and until the next one, whatever another key signed is
      refused by a trap, the replaced key's signatures among it. */
  lemma OldKeyRefused(self: Address, t0: u64, states: seq<State>, events: seq<Event>, j: nat, n: nat, k: Key)
    requires IsRun(self, t0, states, events) && j < n < |events|
    requires SetsKey(self, states[j], events[j], k)
    requires forall m :: j < m < n ==> KeepsKey(self, states[m], events[m])
    requires (events[n].action.CheckAuth? || events[n].action.Beat?) && events[n].action.signer != Some(k)
    ensures states[n].agentKey == Some(k) && Apply(self, states[n], events[n]) == Result(Trapped, states[n])
  {
    assert StepAt(self, states, events, j);
    FieldsWritten(self, states[j], events[j]);
    KeyKept(self, t0, states, events, j + 1, n);
    RequestOutcome(self, states[n], events[n]);
    FailureChangesNothing(self, states[n], events[n]);
    hide Apply;
  }

  // ---- The freeze ----

  /** A signed request for something, within the context limit, under a policy. */
  predicate AsksProperly(s: State, a: Action) {
    a.CheckAuth? && 0 < |a.contexts| <= 64 && SignedBy(s, a.signer) && s.policy.Some?
  }

  predicate Frozen(s: State) {
    Or(s.adminFrozen, false)
  }

  lemma {:induction false} FrozenKept(self: Address, t0: u64, states: seq<State>, events: seq<Event>, i: nat, n: nat)
    requires IsRun(self, t0, states, events) && i <= n <= |events| && Inv(self, states[0], t0)
    requires Frozen(states[i]) && states[i].initialized
    requires forall m :: i <= m < n ==> !(events[m].action.Unfreeze? && Succeeds(self, states[m], events[m]))
    ensures Frozen(states[n]) && states[n].initialized
    decreases n
  {
    hide Apply, Inv;
    if i < n {
      var s, e := states[n - 1], events[n - 1];
      FrozenKept(self, t0, states, events, i, n - 1);
      RunStep(self, t0, states, events, n - 1);
      FailureChangesNothing(self, s, e);
      if e.action.Initialize? {
        RefusedExactly(self, s, e, Clock(t0, events, n - 1));
      } else if Succeeds(self, s, e) {
        FieldsWritten(self, s, e);
      }
    }
  }

  /** A freeze freezes: after a successful `freeze` and until an `unfreeze`
      succeeds, whatever else is called, the flag holds; every signed request for
      something within the context limit fails under a policy with `AdminFrozen`,
      and every heartbeat traps. */
  lemma FreezeFreezes(self: Address, t0: u64, states: seq<State>, events: seq<Event>, j: nat, n: nat)
    requires IsRun(self, t0, states, events) && Inv(self, states[0], t0) && j < n <= |events|
    requires events[j].action.Freeze? && Succeeds(self, states[j], events[j])
    requires forall m :: j < m < n ==> !(events[m].action.Unfreeze? && Succeeds(self, states[m], events[m]))
    ensures Frozen(states[n])
    ensures n < |events| && AsksProperly(states[n], events[n].action) ==>
      Apply(self, states[n], events[n]).outcome == Failed(AdminFrozen)
    ensures n < |events| && events[n].action.Beat? ==> Apply(self, states[n], events[n]).outcome == Trapped
  {
    RunStep(self, t0, states, events, j);
    FieldsWritten(self, states[j], events[j]);
    RotatedByAdmin(self, states[j], events[j]);
    assert states[j + 1].initialized by { InitializedByAdmin(self, states[j], Clock(t0, events, j)); }
    FrozenKept(self, t0, states, events, j + 1, n);
    if n < |events| && (events[n].action.CheckAuth? || events[n].action.Beat?) {
      FrozenRefuses(self, states[n], events[n]);
    }
    hide Apply, Inv;
  }

  lemma InitializedByAdmin(self: Address, s: State, t: u64)
    requires Inv(self, s, t) && s.admin.Some?
    ensures s.initialized
  {
  }

  lemma FrozenRefuses(self: Address, s: State, e: Event)
    requires Frozen(s) && (e.action.CheckAuth? || e.action.Beat?)
    ensures AsksProperly(s, e.action) ==> Apply(self, s, e).outcome == Failed(AdminFrozen)
    ensures e.action.Beat? ==> Apply(self, s, e).outcome == Trapped
  {
    hide Apply, Authorize, AccountGate;
    RequestOutcome(self, s, e);
    AuthorizeMeans(self, s, e.now, e.action.contexts, SignedBy(s, e.action.signer));
    GateMeans(s.policy, Account(s), e.now);
  }

  /** An `unfreeze` ends it at once and restarts the silence. */
  lemma UnfreezeThaws(self: Address, s: State, e: Event)
    requires e.action.Unfreeze? && Succeeds(self, s, e)
    ensures var s' := Apply(self, s, e).state;
      !Frozen(s') && Heartbeat(s') == e.now && s'.policy == s.policy && s'.agentKey == s.agentKey
  {
    FieldsWritten(self, s, e);
    hide Apply;
  }

  // ---- The pause ----

  /** The call may leave the policy unpaused. */
  predicate Resumes(self: Address, s: State, e: Event) {
    && Succeeds(self, s, e)
    && ((e.action.SetPolicy? && !e.action.config.paused) || e.action.RevokePolicy? || (e.action.SetPaused? && !e.action.paused))
  }

  predicate PausedNow(s: State) {
    s.policy.Some? && s.policy.value.paused
  }

  lemma {:induction false} PauseKept(self: Address, t0: u64, states: seq<State>, events: seq<Event>, i: nat, n: nat)
    requires IsRun(self, t0, states, events) && i <= n <= |events| && PausedNow(states[i])
    requires forall m :: i <= m < n ==> !Resumes(self, states[m], events[m])
    ensures PausedNow(states[n])
    decreases n
  {
    hide Apply;
    if i < n {
      var s, e := states[n - 1], events[n - 1];
      PauseKept(self, t0, states, events, i, n - 1);
      assert StepAt(self, states, events, n - 1);
      FailureChangesNothing(self, s, e);
      if Succeeds(self, s, e) {
        FieldsWritten(self, s, e);
      }
    }
  }

  /** A pause pauses: until a call resumes, lifts or replaces it, every signed
      request for something fails, with `Paused` unless the account is frozen or
      silent too long, and every heartbeat traps. */
  lemma PausePauses(self: Address, t0: u64, states: seq<State>, events: seq<Event>, j: nat, n: nat)
    requires IsRun(self, t0, states, events) && j < n < |events|
    requires events[j].action == SetPaused(true) && Succeeds(self, states[j], events[j]) && states[j].policy.Some?
    requires forall m :: j < m < n ==> !Resumes(self, states[m], events[m])
    requires events[n].action.CheckAuth? || events[n].action.Beat?
    ensures var s, e := states[n], events[n];
      && (e.action.Beat? ==> Apply(self, s, e).outcome == Trapped)
      && (AsksProperly(s, e.action) ==>
          Apply(self, s, e).outcome ==
            Failed(if Frozen(s) then AdminFrozen else if SilentTooLong(s, e.now) then HeartbeatExpired else Error.Paused))
  {
    var s, e := states[n], events[n];
    assert StepAt(self, states, events, j);
    FieldsWritten(self, states[j], events[j]);
    PauseKept(self, t0, states, events, j + 1, n);
    RequestOutcome(self, s, e);
    AuthorizeMeans(self, s, e.now, e.action.contexts, SignedBy(s, e.action.signer));
    GateMeans(s.policy, Account(s), e.now);
    hide Apply, Authorize, AccountGate;
  }

  // ---- The recorded expiry ----

  predicate RecordsExpiry(s: State, e: Event) {
    e.action.RefreshDeadman? && SilentTooLong(s, e.now)
  }

  ghost predicate FirstExpiry(states: seq<State>, events: seq<Event>, j: nat)
    requires j < |events| < |states|
  {
    RecordsExpiry(states[j], events[j]) && forall i :: 0 <= i < j ==> !RecordsExpiry(states[i], events[i])
  }

  /** In every run from deployment the recorded expiry is the time of the first
      refresh that found the silence too long, and never changes after; it is
      absent exactly if there was no such refresh. */
  lemma {:induction false} ExpiryIsFirst(self: Address, t0: u64, states: seq<State>, events: seq<Event>, n: nat)
    requires IsRun(self, t0, states, events) && n <= |events| && states[0] == BLANK
    ensures Or(states[n].autoFrozenAt, 0) == 0 <==> forall i :: 0 <= i < n ==> !RecordsExpiry(states[i], events[i])
    ensures forall j :: 0 <= j < n && FirstExpiry(states, events, j) ==> states[n].autoFrozenAt == Some(events[j].now)
  {
    hide Apply;
    if n > 0 {
      var s, e := states[n - 1], events[n - 1];
      ExpiryIsFirst(self, t0, states, events, n - 1);
      assert StepAt(self, states, events, n - 1);
      FailureChangesNothing(self, s, e);
      RefreshSucceeds(self, s, e);
      if Succeeds(self, s, e) {
        FieldsWritten(self, s, e);
      }
    }
  }

  lemma RefreshSucceeds(self: Address, s: State, e: Event)
    ensures e.action.RefreshDeadman? ==> Succeeds(self, s, e)
  {
  }
}
