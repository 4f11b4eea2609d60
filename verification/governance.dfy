/** Who may change what, over whole runs: admin handover, policy revisions, and
    calls that fail. */
module Governance {
  import opened Types
  import opened LedgerSpec
  import opened EngineSpec
  import opened ValidationSpec
  import opened ContractSpec
  import opened Runs

  /** A call that returns an error or traps leaves all of storage as it was. */
  lemma FailureChangesNothing(self: Address, s: State, e: Event)
    ensures !Succeeds(self, s, e) ==> Apply(self, s, e).state == s
  {
    hide AuthRuling, HeartbeatLapsed, ValidPolicy;
  }

  // ---- Admin rotation ----

  /** One step changes an existing admin only by a confirmation of the pending
      nominee, authorized by the nominee. */
  lemma AdminStepwise(self: Address, s: State, e: Event, t: u64)
    requires Inv(self, s, t) && s.admin.Some?
    requires Apply(self, s, e).state.admin != s.admin
    ensures e.action == ConfirmAdmin && Succeeds(self, s, e)
    ensures s.pendingAdmin.Some? && s.pendingAdmin.value in e.auths
    ensures Apply(self, s, e).state.admin == s.pendingAdmin && Apply(self, s, e).state.pendingAdmin.None?
  {
    hide AuthRuling, HeartbeatLapsed, ValidPolicy, StoredCoherent;
  }

  /** A pending nomination appears only by an admin's proposal. */
  lemma PendingStepwise(self: Address, s: State, e: Event, p: Address)
    requires Apply(self, s, e).state.pendingAdmin == Some(p) && s.pendingAdmin != Some(p)
    ensures e.action == ProposeAdmin(p) && Succeeds(self, s, e)
    ensures s.admin.Some? && s.admin.value in e.auths && Apply(self, s, e).state.admin == s.admin
  {
    hide AuthRuling, HeartbeatLapsed, ValidPolicy;
  }

  /** Behind every pending nominee stands a proposal by the admin of that time,
      not overwritten or cancelled since, with the admin unchanged since. */
  lemma {:induction false} PendingWasProposed(self: Address, t0: u64, states: seq<State>, events: seq<Event>, n: nat, p: Address)
    returns (j: nat)
    requires IsRun(self, t0, states, events) && n <= |events|
    requires Inv(self, states[0], t0) && states[0].pendingAdmin.None?
    requires states[n].pendingAdmin == Some(p)
    ensures j < n && events[j].action == ProposeAdmin(p) && Succeeds(self, states[j], events[j])
    ensures states[j].admin.Some? && states[j].admin.value in events[j].auths
    ensures forall i :: j < i <= n ==> states[i].pendingAdmin == Some(p) && states[i].admin == states[j].admin
  {
    hide Apply, Inv, StepAt;
    var s, e := states[n - 1], events[n - 1];
    RunStep(self, t0, states, events, n - 1);
    if s.pendingAdmin == Some(p) {
      j := PendingWasProposed(self, t0, states, events, n - 1, p);
      if states[n].admin != s.admin {
        AdminStepwise(self, s, e, Clock(t0, events, n - 1));
      }
    } else {
      PendingStepwise(self, s, e, p);
      j := n - 1;
    }
  }

  /** The admin changes only when the latest uncancelled nominee of the
      then-current admin confirms. */
  lemma AdminHandover(self: Address, t0: u64, states: seq<State>, events: seq<Event>, n: nat)
    returns (j: nat, nominee: Address)
    requires IsRun(self, t0, states, events) && n < |events| && states[0] == BLANK
    requires states[n].admin.Some? && states[n + 1].admin != states[n].admin
    ensures states[n + 1].admin == Some(nominee) && nominee in events[n].auths && events[n].action == ConfirmAdmin
    ensures j < n && events[j].action == ProposeAdmin(nominee) && Succeeds(self, states[j], events[j])
    ensures states[j].admin == states[n].admin && states[n].admin.value in events[j].auths
    ensures forall i :: j < i <= n ==> states[i].pendingAdmin == Some(nominee) && states[i].admin == states[n].admin
  {
    RunKeepsInv(self, t0, states, events, n);
    assert StepAt(self, states, events, n);
    AdminStepwise(self, states[n], events[n], Clock(t0, events, n));
    nominee := states[n].pendingAdmin.value;
    j := PendingWasProposed(self, t0, states, events, n, nominee);
    hide Apply, Inv;
  }

  // ---- Policy revisions ----

  /** The call sets, revokes or really flips the policy: what an admin can see
      of a call before making it. */
  predicate PolicyCall(self: Address, s: State, e: Event) {
    && s.admin.Some? && s.admin.value in e.auths
    && match e.action
       case SetPolicy(cfg) => ValidPolicy(self, cfg)
       case RevokePolicy => true
       case SetPaused(paused) => s.policy.Some? && s.policy.value.paused != paused
       case _ => false
  }

  /** One call moves the counter exactly when it is a policy call and the counter
      is below saturation, and changes the policy only if it is one. */
  lemma RevisionStepwise(self: Address, s: State, e: Event)
    ensures var s' := Apply(self, s, e).state;
      && Revision(s') == (if PolicyCall(self, s, e) then SatAdd(Revision(s), 1, U64_MAX) else Revision(s))
      && (s'.policy != s.policy ==> PolicyCall(self, s, e))
  {
    hide AuthRuling, HeartbeatLapsed, ValidPolicy;
  }

  /** How many of the calls from the `i`-th up to the `j`-th are policy calls. */
  function PolicyCalls(self: Address, states: seq<State>, events: seq<Event>, i: nat, j: nat): nat
    requires i <= j <= |events| < |states|
    decreases j
  {
    if i == j then 0
    else PolicyCalls(self, states, events, i, j - 1) + if PolicyCall(self, states[j - 1], events[j - 1]) then 1 else 0
  }

  /** The revision counts the policy calls of a run, saturating. */
  lemma {:induction false} RevisionCounts(self: Address, t0: u64, states: seq<State>, events: seq<Event>, i: nat, j: nat)
    requires IsRun(self, t0, states, events) && i <= j <= |events|
    ensures Revision(states[j]) == SatAdd(Revision(states[i]), PolicyCalls(self, states, events, i, j), U64_MAX)
    decreases j
  {
    if i < j {
      assert StepAt(self, states, events, j - 1);
      RevisionStepwise(self, states[j - 1], events[j - 1]);
      RevisionCounts(self, t0, states, events, i, j - 1);
    }
    hide Apply, PolicyCall;
  }

  lemma {:induction false} NoPolicyCalls(self: Address, states: seq<State>, events: seq<Event>, i: nat, j: nat)
    requires i <= j <= |events| < |states|
    ensures PolicyCalls(self, states, events, i, j) == 0 <==>
      forall m :: i <= m < j ==> !PolicyCall(self, states[m], events[m])
    decreases j
  {
    if i < j {
      NoPolicyCalls(self, states, events, i, j - 1);
    }
    hide PolicyCall;
  }

  /** Below saturation, exactly when two states of a run have the same revision:
      when no call between them is a policy call. */
  lemma SameRevisionExactly(self: Address, t0: u64, states: seq<State>, events: seq<Event>, i: nat, j: nat)
    requires IsRun(self, t0, states, events) && i <= j <= |events| && Revision(states[i]) < U64_MAX
    ensures Revision(states[i]) == Revision(states[j]) <==>
      forall m :: i <= m < j ==> !PolicyCall(self, states[m], events[m])
  {
    RevisionCounts(self, t0, states, events, i, j);
    NoPolicyCalls(self, states, events, i, j);
    hide IsRun, PolicyCall;
  }

  /** Without a policy call in between the policy is the same. */
  lemma {:induction false} PolicyKept(self: Address, t0: u64, states: seq<State>, events: seq<Event>, i: nat, j: nat)
    requires IsRun(self, t0, states, events) && i <= j <= |events|
    requires forall m :: i <= m < j ==> !PolicyCall(self, states[m], events[m])
    ensures states[i].policy == states[j].policy
    decreases j
  {
    if i < j {
      assert StepAt(self, states, events, j - 1);
      RevisionStepwise(self, states[j - 1], events[j - 1]);
      PolicyKept(self, t0, states, events, i, j - 1);
    }
    hide Apply, PolicyCall;
  }

  /** Below saturation of the counter, two states of a run with the same
      revision hold the same policy. */
  lemma SameRevisionSamePolicy(self: Address, t0: u64, states: seq<State>, events: seq<Event>, i: nat, j: nat)
    requires IsRun(self, t0, states, events) && i <= j <= |events|
    requires Revision(states[i]) == Revision(states[j]) < U64_MAX
    ensures states[i].policy == states[j].policy
  {
    SameRevisionExactly(self, t0, states, events, i, j);
    PolicyKept(self, t0, states, events, i, j);
    hide IsRun, PolicyCall;
  }

  // ---- The converse fails ----

  /** The policy call that leaves the policy as it is: re-installing what is
      installed, or revoking where nothing is. */
  function Reaffirming(s: State): Action {
    if s.policy.Some? then SetPolicy(s.policy.value) else RevokePolicy
  }

  /** Exactly when revision and policy part in one call. The revision moves
      alone when an admin reaffirms the policy below saturation; the policy
      changes alone in every other policy call at saturation. */
  lemma RevisionAndPolicyPart(self: Address, s: State, e: Event, t: u64)
    requires Inv(self, s, t)
    ensures var s' := Apply(self, s, e).state;
      && (s'.policy == s.policy && Revision(s') != Revision(s) <==>
          Revision(s) < U64_MAX && s.admin.Some? && s.admin.value in e.auths && e.action == Reaffirming(s))
      && (s'.policy != s.policy && Revision(s') == Revision(s) <==>
          Revision(s) == U64_MAX && PolicyCall(self, s, e) && e.action != Reaffirming(s))
  {
    hide AuthRuling, HeartbeatLapsed, ValidPolicy, StoredCoherent;
    RevisionStepwise(self, s, e);
  }

  /** Both happen, whatever the state: the same policy, another revision. */
  lemma ReinstallMovesRevision(self: Address, s: State, now: u64, t: u64)
    requires Inv(self, s, t) && s.policy.Some? && Revision(s) < U64_MAX
    ensures var s' := Apply(self, s, Event(now, {s.admin.value}, SetPolicy(s.policy.value))).state;
      s'.policy == s.policy && Revision(s') != Revision(s)
  {
    RevisionAndPolicyPart(self, s, Event(now, {s.admin.value}, SetPolicy(s.policy.value)), t);
    hide Apply, ValidPolicy, StoredCoherent;
  }

  lemma EmptyRevokeMovesRevision(self: Address, s: State, now: u64, t: u64)
    requires Inv(self, s, t) && s.admin.Some? && s.policy.None? && Revision(s) < U64_MAX
    ensures var s' := Apply(self, s, Event(now, {s.admin.value}, RevokePolicy)).state;
      s'.policy == s.policy && Revision(s') != Revision(s)
  {
    RevisionAndPolicyPart(self, s, Event(now, {s.admin.value}, RevokePolicy), t);
    hide Apply, ValidPolicy, StoredCoherent;
  }

  /** So does a run that edits the policy to another one and back. */
  lemma ThereAndBackMovesRevision(self: Address, s: State, other: PolicyConfig, now: u64, t: u64)
    requires Inv(self, s, t) && t <= now && s.policy.Some? && ValidPolicy(self, other) && Revision(s) < U64_MAX
    ensures var mid := Apply(self, s, Event(now, {s.admin.value}, SetPolicy(other))).state;
      var back := Apply(self, mid, Event(now, {s.admin.value}, SetPolicy(s.policy.value))).state;
      && mid.policy == Some(other) && back.policy == s.policy
      && Revision(s) < Revision(mid) <= Revision(back)
  {
    hide ValidPolicy, StoredCoherent;
    var there := Event(now, {s.admin.value}, SetPolicy(other));
    RevisionStepwise(self, s, there);
    RevisionStepwise(self, Apply(self, s, there).state, Event(now, {s.admin.value}, SetPolicy(s.policy.value)));
  }
}
