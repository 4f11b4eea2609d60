/** Runs of the contract: the states a sequence of calls passes through, with a
    clock that never goes back, and the shape of storage in all of them. */
module Runs {
  import opened Types
  import opened WindowSpec
  import opened LedgerSpec
  import opened ValidationSpec
  import opened ContractSpec

  ghost predicate StepAt(self: Address, states: seq<State>, events: seq<Event>, i: nat)
    requires i < |events| < |states|
  {
    states[i + 1] == Apply(self, states[i], events[i]).state
  }

  /** `events` leads from `states[0]`, reached at time `t0`, through `states`. */
  ghost predicate IsRun(self: Address, t0: u64, states: seq<State>, events: seq<Event>) {
    && |states| == |events| + 1
    && (forall i :: 0 <= i < |events| ==> StepAt(self, states, events, i))
    && (forall i :: 0 <= i < |events| ==> t0 <= events[i].now)
    && (forall i, j :: 0 <= i < j < |events| ==> events[i].now <= events[j].now)
  }

  /** The time at which `states[n]` was reached. */
  function Clock(t0: u64, events: seq<Event>, n: nat): u64
    requires n <= |events|
  {
    if n == 0 then t0 else events[n - 1].now
  }

  predicate Succeeds(self: Address, s: State, e: Event) {
    Apply(self, s, e).outcome == Done
  }

  lemma {:induction false} RunKeepsInv(self: Address, t0: u64, states: seq<State>, events: seq<Event>, n: nat)
    requires IsRun(self, t0, states, events) && n <= |events|
    requires Inv(self, states[0], t0)
    ensures Inv(self, states[n], Clock(t0, events, n))
  {
    if n > 0 {
      RunKeepsInv(self, t0, states, events, n - 1);
      assert StepAt(self, states, events, n - 1);
      ApplyKeepsInv(self, states[n - 1], events[n - 1], Clock(t0, events, n - 1));
    }
  }

  /** What the call after the first `n` starts from and leads to. */
  lemma RunStep(self: Address, t0: u64, states: seq<State>, events: seq<Event>, n: nat)
    requires IsRun(self, t0, states, events) && n < |events| && Inv(self, states[0], t0)
    ensures |states| == |events| + 1
    ensures Inv(self, states[n], Clock(t0, events, n)) && Clock(t0, events, n) <= events[n].now
    ensures states[n + 1] == Apply(self, states[n], events[n]).state && Clock(t0, events, n + 1) == events[n].now
  {
    RunKeepsInv(self, t0, states, events, n);
    assert StepAt(self, states, events, n);
    hide Apply, Inv;
  }

  /** In every state reachable from deployment, across all policy edits: the
      stored policy passes validation, and every spend window has strictly
      increasing timestamps, positive amounts, at most `MAX_WINDOW_ENTRIES`
      entries and a cached total that is their exact sum and fits `i128`. */
  lemma ReachableShape(self: Address, t0: u64, states: seq<State>, events: seq<Event>, n: nat)
    requires IsRun(self, t0, states, events) && n <= |events| && states[0] == BLANK
    ensures states[n].policy.Some? ==> SoundPolicy(self, states[n].policy.value)
    ensures states[n].window.Some? ==>
      var ws := states[n].window.value;
      && Shaped(ws.spend.entries) && ws.spend.total == Sum(ws.spend.entries) <= I128_MAX
      && Shaped(ws.callEntries)
      && |ws.spend.entries| <= 8192 && |ws.callEntries| <= 8192
      && DistinctRecipients(ws.recipients)
      && forall i :: 0 <= i < |ws.recipients| ==>
          var w := ws.recipients[i].window; Shaped(w.entries) && |w.entries| <= 8192 && w.total == Sum(w.entries) <= I128_MAX
    ensures states[n].pendingAdmin.Some? ==> states[n].pendingAdmin != states[n].admin
  {
    RunKeepsInv(self, t0, states, events, n);
    if states[n].policy.Some? {
      ValidIsSound(self, states[n].policy.value);
    }
  }

  /** The state right after a first install of `cfg` at `t0`. */
  predicate FirstInstalled(self: Address, s: State, t0: u64, cfg: PolicyConfig) {
    && Inv(self, s, t0)
    && s.policy == Some(cfg)
    && s.window == Some(ToState(EMPTY_LEDGER))
    && s.lastHeartbeat == Some(t0)
  }

  /** Installing over no policy, from any reachable state, starts from an empty
      window and a fresh grace clock; an edit touches neither. */
  lemma InstallSeedsOrKeeps(self: Address, s: State, e: Event, t: u64)
    requires Inv(self, s, t) && t <= e.now && e.action.SetPolicy? && Succeeds(self, s, e)
    ensures var s' := Apply(self, s, e).state;
      && (s.policy.None? ==> FirstInstalled(self, s', e.now, e.action.config))
      && (s.policy.Some? ==> s'.window == s.window && s'.lastHeartbeat == s.lastHeartbeat)
      && s'.policy == Some(e.action.config) && ValidPolicy(self, e.action.config)
  {
    ApplyKeepsInv(self, s, e, t);
  }
}
