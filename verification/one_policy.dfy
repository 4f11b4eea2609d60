/** What holds for as long as the policy in force is neither edited nor revoked;
    pausing and resuming are allowed, and so are edits that are refused. */
module OnePolicy {
  import opened Types
  import opened WindowSpec
  import opened LedgerSpec
  import opened EngineSpec
  import opened ValidationSpec
  import opened StagingFacts
  import opened ContractSpec
  import opened Runs
  import opened SpendHistory
  import opened History
  import opened Authorized
  import opened Ceilings

  /** The call removes the policy or installs one that differs from it in more
      than the kill switch. */
  predicate Edits(self: Address, s: State, e: Event) {
    && Succeeds(self, s, e)
    && (e.action.RevokePolicy? || (e.action.SetPolicy? && !InForce(s, e.action.config)))
  }

  ghost predicate EditFree(self: Address, states: seq<State>, events: seq<Event>, n: nat)
    requires n <= |events| < |states|
  {
    forall i :: 0 <= i < n ==> !Edits(self, states[i], events[i])
  }

  ghost predicate ResetFree(self: Address, states: seq<State>, events: seq<Event>, n: nat)
    requires n <= |events| < |states|
  {
    forall i :: 0 <= i < n ==>
      !(events[i].action.ResetWindow? && Succeeds(self, states[i], events[i])) && events[i].now < U64_MAX
  }

  /** The policy in force is `cfg` up to the kill switch. */
  predicate InForce(s: State, cfg: PolicyConfig) {
    s.policy.Some? && s.policy.value == cfg.(paused := s.policy.value.paused)
  }

  lemma StepInForce(self: Address, s: State, e: Event, cfg: PolicyConfig)
    requires InForce(s, cfg) && !Edits(self, s, e)
    ensures InForce(Apply(self, s, e).state, cfg)
  {
    hide AuthRuling, HeartbeatLapsed, ValidPolicy;
  }

  lemma {:induction false} RunInForce(self: Address, t0: u64, states: seq<State>, events: seq<Event>, n: nat, cfg: PolicyConfig)
    requires IsRun(self, t0, states, events) && n <= |events|
    requires InForce(states[0], cfg) && EditFree(self, states, events, n)
    ensures InForce(states[n], cfg)
  {
    if n > 0 {
      RunInForce(self, t0, states, events, n - 1, cfg);
      assert StepAt(self, states, events, n - 1);
      StepInForce(self, states[n - 1], events[n - 1], cfg);
      hide Apply, Edits;
    }
  }

  lemma UneditedIsLimited(self: Address, t0: u64, states: seq<State>, events: seq<Event>, n: nat, k: Kind,
                          cfg: PolicyConfig, span: u64)
    requires IsRun(self, t0, states, events) && n <= |events|
    requires InForce(states[0], cfg) && EditFree(self, states, events, n) && ResetFree(self, states, events, n)
    requires LimitOf(cfg, k).Some? && 0 < span && (cfg.windowSecs == 0 || span <= cfg.windowSecs)
    requires k == Calls ==> cfg.protocolCallsPerWindow < U32_MAX && states[0].window.Some?
    ensures LimitedRun(self, states, events, n, k, span, LimitOf(cfg, k).value)
  {
    LimitPositive(cfg, k);
    forall i | 0 <= i < n ensures !Drops(self, states[i], events[i]) {
      RunInForce(self, t0, states, events, i, cfg);
      assert !Edits(self, states[i], events[i]);
    }
    forall i | 0 <= i < n ensures Heeds(self, states[i], events[i], k, span, LimitOf(cfg, k).value) {
      RunInForce(self, t0, states, events, i, cfg);
      if k == Calls { KeyStays(self, t0, states, events, i); }
      WideEnough(self, states[i], events[i], k, span, LimitOf(cfg, k).value);
    }
    hide Succeeds, Apply, Inv, Heeds, IsRun;
  }

  /** A spend limit makes validation demand a window width. */
  lemma LimitHasWidth(self: Address, cfg: PolicyConfig, k: Kind)
    requires ValidPolicy(self, cfg) && LimitOf(cfg, k).Some? && k != Calls
    ensures cfg.windowSecs > 0
  {
    ValidIsSound(self, cfg);
    if k.SpendTo? {
      ListOrder.OverrideIsListed(cfg.recipientWindowCaps, k.recipient);
    }
  }

  /** The promise of the window ledger: from any reachable state, as long as
      the policy in force stays, in no span of `windowSecs` do the transfers let
      through exceed `windowCap`, nor those to a recipient with an override that
      override. */
  lemma HardCeiling(self: Address, t0: u64, states: seq<State>, events: seq<Event>, n: nat,
                    k: Kind, cfg: PolicyConfig, t: int)
    requires IsRun(self, t0, states, events) && n <= |events|
    requires Inv(self, states[0], t0) && states[0].policy == Some(cfg)
    requires EditFree(self, states, events, n) && ResetFree(self, states, events, n)
    requires LimitOf(cfg, k).Some? && k != Calls
    ensures Rolling(HistoryOf(self, states, events, n, k), t, cfg.windowSecs) <= LimitOf(cfg, k).value
  {
    LimitHasWidth(self, cfg, k);
    UneditedIsLimited(self, t0, states, events, n, k, cfg, cfg.windowSecs);
    RollingCeiling(self, t0, states, events, n, k, cfg.windowSecs, LimitOf(cfg, k).value, t);
    hide Inv, Rolling, HistoryOf, LimitOf;
  }

  /** The same for protocol calls, which a limit of `u32::MAX` does not bound and
      which are only counted while the window key is there, as it is from a first
      install on. Validation lets a policy limit calls without a width; nothing
      ever expires then, and the limit is one for good. */
  lemma ProtocolRate(self: Address, t0: u64, states: seq<State>, events: seq<Event>, n: nat, cfg: PolicyConfig,
                     span: u64, t: int)
    requires IsRun(self, t0, states, events) && n <= |events|
    requires Inv(self, states[0], t0) && states[0].policy == Some(cfg)
    requires states[0].window.Some? && Countable(states[0], Calls)
    requires EditFree(self, states, events, n) && ResetFree(self, states, events, n)
    requires 0 < cfg.protocolCallsPerWindow < U32_MAX
    requires 0 < span && (cfg.windowSecs == 0 || span <= cfg.windowSecs)
    ensures Rolling(HistoryOf(self, states, events, n, Calls), t, span) <= cfg.protocolCallsPerWindow
  {
    UneditedIsLimited(self, t0, states, events, n, Calls, cfg, span);
    RollingCeiling(self, t0, states, events, n, Calls, span, cfg.protocolCallsPerWindow, t);
    hide Inv, Rolling, HistoryOf;
  }

  /** Exactly when the rate rule refuses a call: never at a limit of `u32::MAX`,
      because the projection saturates there; otherwise once the limit is used. */
  lemma RateRefusesExactly(cfg: PolicyConfig, l: LedgerState, stg: Staging, contract: Address, fname: Symbol)
    requires ProtocolGate(cfg, contract, fname).None? && cfg.protocolCallsPerWindow > 0
    requires 0 <= l.calls.total
    ensures EvalProtocol(cfg, l, stg, contract, fname).verdict == Blocked(ProtocolCallRateExceeded) <==>
      cfg.protocolCallsPerWindow < U32_MAX && l.calls.total + stg.calls >= cfg.protocolCallsPerWindow
  {
    hide ProtocolGate;
  }

  // ---- Tracked recipients ----

  predicate AllOverridden(cfg: PolicyConfig, rs: seq<RecipientWindow>) {
    forall i :: 0 <= i < |rs| ==> OverrideCap(cfg, rs[i].recipient).Some?
  }

  lemma {:induction false} AdmitStagedOverridden(cfg: PolicyConfig, rs: seq<RecipientWindow>, staged: seq<Staged>, now: u64)
    requires AllOverridden(cfg, rs)
    requires forall i :: 0 <= i < |staged| ==> OverrideCap(cfg, staged[i].recipient).Some?
    ensures AllOverridden(cfg, AdmitStaged(rs, staged, now))
  {
    if staged != [] {
      AdmitStagedOverridden(cfg, rs, staged[..|staged| - 1], now);
      hide Admit;
    }
  }

  lemma AuthorizedOverridden(self: Address, s: State, e: Event, cfg: PolicyConfig)
    requires Inv(self, s, e.now) && Authorizes(self, s, e) && InForce(s, cfg)
    requires AllOverridden(cfg, LoadWindow(s).recipients)
    ensures AllOverridden(cfg, LoadWindow(Apply(self, s, e).state).recipients)
  {
    var c, ctxs, now, o := s.policy.value, e.action.contexts, e.now, Opening(s, e.now);
    var stg := Evaluate(self, c, o, now, ctxs).staging;
    var final := AuthRuling(self, s, now, ctxs).ledger;
    AuthorizedEvent(self, s, e);
    Accepted(self, s, now, ctxs, SignedBy(s, e.action.signer));
    OpeningCoherent(self, s, now);
    EvaluateWithin(self, c, o, now, ctxs);
    assert forall i :: 0 <= i < |stg.recipients| ==> OverrideCap(cfg, stg.recipients[i].recipient).Some?;
    assert AllOverridden(cfg, o.recipients);
    AdmitStagedOverridden(cfg, o.recipients, stg.recipients, now);
    assert AllOverridden(cfg, final.recipients);
    CommitCoherent(c, o, stg, now);
    RoundTrip(final, now);
    assert AllOverridden(cfg, EMPTY_LEDGER.recipients);
    hide Coherent, Within, Evaluate, AuthRuling, Apply, Authorize, Prunes, Inv, StoredCoherent, AllOverridden, HasSpendEntries;
  }

  lemma StepOverridden(self: Address, s: State, e: Event, cfg: PolicyConfig, t: u64)
    requires Inv(self, s, t) && t <= e.now && InForce(s, cfg) && !Edits(self, s, e)
    requires AllOverridden(cfg, LoadWindow(s).recipients)
    ensures AllOverridden(cfg, LoadWindow(Apply(self, s, e).state).recipients)
  {
    InvLater(self, s, t, e.now);
    if Authorizes(self, s, e) {
      AuthorizedOverridden(self, s, e, cfg);
    } else if Drops(self, s, e) {
      assert LoadWindow(Apply(self, s, e).state) == EMPTY_LEDGER;
    } else {
      WindowKept(self, s, e);
      hide Apply;
    }
    hide Inv, Authorizes, ValidPolicy, AuthRuling, FromState;
  }

  lemma {:induction false} RunOverridden(self: Address, t0: u64, states: seq<State>, events: seq<Event>, n: nat, cfg: PolicyConfig)
    requires IsRun(self, t0, states, events) && n <= |events|
    requires Inv(self, states[0], t0) && states[0].policy == Some(cfg) && LoadWindow(states[0]).recipients == []
    requires EditFree(self, states, events, n)
    ensures AllOverridden(cfg, LoadWindow(states[n]).recipients)
  {
    if n > 0 {
      RunOverridden(self, t0, states, events, n - 1, cfg);
      RunInForce(self, t0, states, events, n - 1, cfg);
      RunKeepsInv(self, t0, states, events, n - 1);
      assert StepAt(self, states, events, n - 1);
      StepOverridden(self, states[n - 1], events[n - 1], cfg, Clock(t0, events, n - 1));
      hide Apply, Inv, AllOverridden, LoadWindow, Edits;
    }
  }

  lemma {:induction false} NoMoreThan(a: seq<Address>, b: seq<Address>)
    requires NoDup(a) && forall x :: x in a ==> x in b
    ensures |a| <= |b|
  {
    if a != [] {
      assert a[0] in b;
      var i :| 0 <= i < |b| && b[i] == a[0];
      var rest := b[..i] + b[i + 1..];
      forall x | x in a[1..] ensures x in rest {
        assert x in a && x in b;
        var j :| 0 <= j < |b| && b[j] == x;
        assert j != i;
        assert rest[if j < i then j else j - 1] == x;
      }
      NoMoreThan(a[1..], rest);
    }
  }

  /** Under one policy only recipients with an override are tracked, each once,
      so there are at most as many as overrides and never more than 256, resets
      or not. */
  lemma TrackedRecipientsBounded(self: Address, t0: u64, states: seq<State>, events: seq<Event>, n: nat, cfg: PolicyConfig)
    requires IsRun(self, t0, states, events) && n <= |events|
    requires Inv(self, states[0], t0) && states[0].policy == Some(cfg) && LoadWindow(states[0]).recipients == []
    requires EditFree(self, states, events, n)
    ensures states[n].window.Some? ==>
      var rs := states[n].window.value.recipients;
      && DistinctRecipients(rs) && AllOverridden(cfg, rs)
      && |rs| <= |cfg.recipientWindowCaps| <= 256
  {
    RunOverridden(self, t0, states, events, n, cfg);
    RunKeepsInv(self, t0, states, events, n);
    LoadCoherent(self, states[n], Clock(t0, events, n));
    ValidIsSound(self, cfg);
    if states[n].window.Some? {
      OverriddenBounded(cfg, states[n].window.value.recipients);
    }
    hide Apply, AllOverridden, ValidPolicy, LoadWindow;
  }

  lemma OverriddenBounded(cfg: PolicyConfig, rs: seq<RecipientWindow>)
    requires DistinctRecipients(rs) && AllOverridden(cfg, rs)
    ensures |rs| <= |cfg.recipientWindowCaps|
  {
    var names := seq(|rs|, i requires 0 <= i < |rs| => rs[i].recipient);
    var keys := CapRecipients(cfg.recipientWindowCaps);
    forall x | x in names ensures x in keys {
      var j :| 0 <= j < |names| && names[j] == x;
      assert OverrideCap(cfg, rs[j].recipient).Some?;
      ListOrder.OverrideIsListed(cfg.recipientWindowCaps, x);
      var i :| 0 <= i < |keys| && cfg.recipientWindowCaps[i].recipient == x;
      assert keys[i] == x;
    }
    NoMoreThan(names, keys);
  }
}
