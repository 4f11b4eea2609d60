/** What an accepted authorization does to each rolling window: the windows are
    pruned or left as loaded, and each gets one admission of what the request
    let through of its kind, provided the policy limits that kind. */
module Authorized {
  import opened Types
  import opened WindowSpec
  import opened LedgerSpec
  import opened EngineSpec
  import opened StagingFacts
  import opened ContractSpec
  import opened SpendHistory

  /** The window that tracks kind `k`. */
  function WindowFor(l: LedgerState, k: Kind): Window {
    match k
    case AllSpend => l.spend
    case SpendTo(r) => WindowOf(l.recipients, r)
    case Calls => l.calls
  }

  function Saturation(k: Kind): int {
    if k == Calls then U32_MAX else I128_MAX
  }

  // ---- What a decision starts from ----

  /** The request gets past the account gate of a policy with a rolling limit. */
  predicate Prunes(s: State, now: u64) {
    s.policy.Some? && AccountGate(s.policy, Account(s), now).None? && PrunesWindows(s.policy.value)
  }

  /** The loaded ledger, pruned where the decision prunes. */
  function Opening(s: State, now: u64): LedgerState {
    if Prunes(s, now) then PruneLedger(LoadWindow(s), now, s.policy.value.windowSecs) else LoadWindow(s)
  }

  lemma OpeningCoherent(self: Address, s: State, now: u64)
    requires Inv(self, s, now)
    ensures Coherent(Opening(s, now), now)
  {
    hide AccountGate, PrunesWindows, Coherent, PruneLedger, LoadWindow, Inv;
    LoadCoherent(self, s, now);
    if Prunes(s, now) {
      PruneCoherent(LoadWindow(s), now, s.policy.value.windowSecs, now);
    }
  }

  lemma OpeningWindow(s: State, now: u64, k: Kind)
    ensures var w := WindowFor(LoadWindow(s), k);
      WindowFor(Opening(s, now), k) == if Prunes(s, now) then Prune(w, now, s.policy.value.windowSecs) else w
  {
    hide AccountGate, PrunesWindows, LoadWindow, Prune;
    if k.SpendTo? && Prunes(s, now) {
      PruneWindowOf(LoadWindow(s).recipients, k.recipient, now, s.policy.value.windowSecs);
    }
  }

  lemma OpeningWellFormed(self: Address, s: State, now: u64, k: Kind)
    requires Inv(self, s, now) && WellFormed(WindowFor(LoadWindow(s), k), Saturation(k))
    ensures WellFormed(WindowFor(Opening(s, now), k), Saturation(k))
    ensures NotAfter(WindowFor(Opening(s, now), k).entries, now)
  {
    hide AccountGate, PrunesWindows, Coherent, Opening, LoadWindow, Inv, Prune, WellFormed, WindowFor;
    OpeningCoherent(self, s, now);
    OpeningWindow(s, now, k);
    WindowForNotAfter(Opening(s, now), now, k);
    if Prunes(s, now) {
      PruneWellFormed(WindowFor(LoadWindow(s), k), now, s.policy.value.windowSecs, Saturation(k));
    }
  }

  lemma WindowForNotAfter(l: LedgerState, t: u64, k: Kind)
    requires Coherent(l, t)
    ensures NotAfter(WindowFor(l, k).entries, t)
  {
    if k.SpendTo? {
      WindowOfWellFormed(l.recipients, k.recipient, t);
    }
  }

  // ---- The decided ledger ----

  /** An oversized batch, or a non-empty one behind a closed account gate, is refused. */
  lemma RefusedUpFront(self: Address, policy: Option<PolicyConfig>, st: AccountState, l: LedgerState, now: u64, ctxs: seq<Context>)
    ensures var vs := Decide(self, policy, st, l, now, ctxs).verdicts;
      |ctxs| > MAX_AUTH_CONTEXTS || (ctxs != [] && AccountGate(policy, st, now).Some?) ==> vs != [] && vs[0].Blocked?
  {
    hide AccountGate, Evaluate;
  }

  /** Behind every `Ok` stands an evaluation in which each context was allowed;
      all it staged is committed to the opening ledger, and the result written
      where the key is there or there is spend to write. */
  lemma Accepted(self: Address, s: State, now: u64, ctxs: seq<Context>, signed: bool)
    requires Authorize(self, s, now, ctxs, signed).outcome == Done
    ensures s.policy.Some? && |ctxs| <= MAX_AUTH_CONTEXTS
    ensures var ev, l := Evaluate(self, s.policy.value, Opening(s, now), now, ctxs), AuthRuling(self, s, now, ctxs).ledger;
      && AllAllowed(ev.verdicts) && l == Commit(Opening(s, now), ev.staging, now)
      && Authorize(self, s, now, ctxs, signed).state == (if SavesBack(s, l) then s.(window := Some(ToState(l))) else s)
  {
    RefusedUpFront(self, s.policy, Account(s), LoadWindow(s), now, ctxs);
    assert AllAllowed(AuthRuling(self, s, now, ctxs).verdicts);
    CommitNothing(LoadWindow(s), now);
    if AccountGate(s.policy, Account(s), now).Some? {
      assert ctxs == [];
    } else {
      assert Opening(s, now) == Current(s.policy.value, LoadWindow(s), now);
    }
    hide AccountGate, LoadWindow, Commit, HasSpendEntries, PruneLedger, PrunesWindows;
  }

  // ---- One window of it ----

  /** What the windows record of a request: all it let through of a kind the
      policy limits, nothing of the others. */
  function Recorded(self: Address, cfg: PolicyConfig, now: u64, k: Kind, ctxs: seq<Context>): seq<Entry> {
    if LimitOf(cfg, k).Some? then CountedAll(self, cfg, now, k, ctxs) else []
  }

  /** Committing makes one admission of what is staged for the kind, and what is
      staged is within the limit. */
  lemma CommitWindow(cfg: PolicyConfig, l: LedgerState, stg: Staging, now: u64, k: Kind)
    requires Coherent(l, now) && Within(cfg, l, stg, now)
    requires WellFormed(WindowFor(l, k), Saturation(k))
    requires k == Calls && stg.calls > 0 ==> cfg.protocolCallsPerWindow < U32_MAX
    ensures var w, a := WindowFor(l, k), StagedAmount(stg, k);
      && a >= 0
      && (a > 0 ==> LimitOf(cfg, k).Some? && w.total + a <= LimitOf(cfg, k).value <= Saturation(k))
      && WindowFor(Commit(l, stg, now), k) == if a > 0 then Admit(w, now, a, Saturation(k)) else w
  {
    SumNonNegative(stg.admission);
    match k {
      case AllSpend =>
        CommitCoherent(cfg, l, stg, now);
      case SpendTo(r) =>
        AdmitStagedWindowOf(cfg, l, stg.recipients, now, r);
        StagedForBound(cfg, l, stg.recipients, r);
      case Calls =>
        if stg.calls > 0 {
          SumNonNegative(l.calls.entries);
          CallsAsOne(l.calls, now, stg.calls);
        }
    }
  }

  /** Calls counted one by one are one admission of their number, while exact. */
  lemma {:induction false} CallsAsOne(w: Window, now: u64, n: nat)
    requires WellFormed(w, U32_MAX) && NotAfter(w.entries, now) && w.total + n <= U32_MAX
    ensures AdmitCalls(w, now, n) == if n > 0 then Admit(w, now, n, U32_MAX) else w
  {
    if n > 1 {
      CallsAsOne(w, now, n - 1);
      AdmitTwice(w, now, n - 1, 1, U32_MAX);
    } else if n == 1 {
      assert AdmitCalls(w, now, 0) == w;
    }
  }

  /** What evaluation has staged of a kind is what the windows are to record. */
  lemma StagedIsRecorded(self: Address, cfg: PolicyConfig, l: LedgerState, now: u64, ctxs: seq<Context>, k: Kind)
    requires Coherent(l, now) && |ctxs| <= MAX_AUTH_CONTEXTS
    requires AllAllowed(Evaluate(self, cfg, l, now, ctxs).verdicts)
    ensures var xs, rec := CountedAll(self, cfg, now, k, ctxs), Recorded(self, cfg, now, k, ctxs);
      && Positive(xs) && AllAt(xs, now)
      && StagedAmount(Evaluate(self, cfg, l, now, ctxs).staging, k) == Sum(rec)
      && (Sum(rec) > 0 <==> rec != [])
  {
    hide Coherent, Evaluate, CountedAll;
    var stg := Evaluate(self, cfg, l, now, ctxs).staging;
    EvaluateWithin(self, cfg, l, now, ctxs);
    StagedIsCounted(self, cfg, l, now, ctxs, k);
    SumNonNegative(Recorded(self, cfg, now, k, ctxs));
    assert Sum([]) == 0 by { EmptySum(); }
    if LimitOf(cfg, k).None? {
      UnlimitedNotStaged(cfg, l, stg, now, k);
    }
    hide Within, StagedAmount, LimitOf;
  }

  lemma UnlimitedNotStaged(cfg: PolicyConfig, l: LedgerState, stg: Staging, now: u64, k: Kind)
    requires Within(cfg, l, stg, now) && LimitOf(cfg, k).None?
    ensures StagedAmount(stg, k) == 0
  {
    hide FirstOverride;
  }

  /** The decision behind an accepted authorization makes one admission to the
      opening window, of exactly what is to be recorded, within the limit. */
  lemma DecidedWindow(self: Address, s: State, now: u64, ctxs: seq<Context>, signed: bool, k: Kind)
    requires Inv(self, s, now) && Authorize(self, s, now, ctxs, signed).outcome == Done
    requires WellFormed(WindowFor(LoadWindow(s), k), Saturation(k))
    requires s.policy.Some? && k == Calls && Recorded(self, s.policy.value, now, k, ctxs) != [] ==>
      s.policy.value.protocolCallsPerWindow < U32_MAX
    ensures s.policy.Some?
    ensures var cfg, o := s.policy.value, WindowFor(Opening(s, now), k);
      var rec, l := Recorded(self, cfg, now, k, ctxs), AuthRuling(self, s, now, ctxs).ledger;
      && Coherent(l, now) && WellFormed(WindowFor(l, k), Saturation(k))
      && Positive(CountedAll(self, cfg, now, k, ctxs)) && AllAt(CountedAll(self, cfg, now, k, ctxs), now)
      && (rec != [] ==> LimitOf(cfg, k).Some? && o.total + Sum(rec) <= LimitOf(cfg, k).value <= Saturation(k))
      && WindowFor(l, k) == if rec != [] then Admit(o, now, Sum(rec), Saturation(k)) else o
  {
    hide Inv, Authorize, Coherent, Within, WellFormed, Evaluate, Commit, Opening, LoadWindow, WindowFor, Admit, CountedAll,
      LimitOf, AuthRuling, Recorded, StagedAmount;
    Accepted(self, s, now, ctxs, signed);
    var cfg, o := s.policy.value, Opening(s, now);
    var stg, rec := Evaluate(self, cfg, o, now, ctxs).staging, Recorded(self, cfg, now, k, ctxs);
    OpeningCoherent(self, s, now);
    OpeningWellFormed(self, s, now, k);
    EvaluateWithin(self, cfg, o, now, ctxs);
    StagedIsRecorded(self, cfg, o, now, ctxs, k);
    assert k == Calls ==> StagedAmount(stg, k) == stg.calls by { StagedCalls(stg); }
    CommitWindow(cfg, o, stg, now, k);
    CommitCoherent(cfg, o, stg, now);
    if rec != [] {
      AdmitWellFormed(WindowFor(o, k), now, Sum(rec), Saturation(k));
    }
  }

  lemma StagedCalls(stg: Staging)
    ensures StagedAmount(stg, Calls) == stg.calls
  {
  }

  // ---- What the next load finds ----

  /** The window of kind `k` that the next load finds is the decided one, whether
      it was written or there was no spend to write; but calls that are not
      written are gone. */
  lemma StoredWindow(s: State, s': State, l: LedgerState, k: Kind, t: u64)
    requires Coherent(l, t) && WellFormed(WindowFor(l, k), Saturation(k))
    requires s'.window == (if SavesBack(s, l) then Some(ToState(l)) else None)
    ensures WindowFor(LoadWindow(s'), k) == if k != Calls || SavesBack(s, l) then WindowFor(l, k) else EMPTY_WINDOW
  {
    if SavesBack(s, l) {
      RoundTrip(l, t);
      SumNonNegative(l.calls.entries);
      ReloadShaped(l.calls.entries, U32_MAX);
    } else if k != Calls {
      NothingToWrite(l, k);
    }
  }

  lemma NothingToWrite(l: LedgerState, k: Kind)
    requires !HasSpendEntries(l) && k != Calls && WellFormed(WindowFor(l, k), Saturation(k))
    ensures WindowFor(l, k) == EMPTY_WINDOW
  {
  }

}
