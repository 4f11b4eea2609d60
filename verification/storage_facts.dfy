/** What an accepted authorization leaves in storage, and what it does not. */
module StorageFacts {
  import opened Types
  import opened WindowSpec
  import opened LedgerSpec
  import opened EngineSpec
  import opened StagingFacts
  import opened ContractSpec
  import opened SpendHistory
  import opened Authorized

  // ---- Whether anything is stored ----

  /** A transfer that some rolling window tracks. */
  predicate IsTracked(self: Address, cfg: PolicyConfig, c: Context) {
    var call := ParseCall(self, c, cfg);
    call.AssetTransfer? && (cfg.windowCap > 0 || OverrideCap(cfg, call.to).Some?)
  }

  predicate AnyTracked(self: Address, cfg: PolicyConfig, ctxs: seq<Context>) {
    exists i :: 0 <= i < |ctxs| && IsTracked(self, cfg, ctxs[i])
  }

  predicate StagesSpend(stg: Staging) {
    stg.admission != [] || stg.recipients != []
  }

  /** A request in which everything is allowed stages spend exactly when it has a
      transfer that is tracked. */
  lemma {:induction false} StagesTracked(self: Address, cfg: PolicyConfig, l: LedgerState, now: u64, ctxs: seq<Context>)
    requires AllAllowed(Evaluate(self, cfg, l, now, ctxs).verdicts)
    ensures StagesSpend(Evaluate(self, cfg, l, now, ctxs).staging) <==> AnyTracked(self, cfg, ctxs)
  {
    hide EvalContext, IsTracked;
    if ctxs != [] {
      var n := |ctxs| - 1;
      var e := Evaluate(self, cfg, l, now, ctxs[..n]);
      var s := EvalContext(self, cfg, l, e.staging, now, ctxs[n]);
      AllowedSnoc(e.verdicts, s.verdict);
      StagesTracked(self, cfg, l, now, ctxs[..n]);
      assert forall i :: 0 <= i < n ==> ctxs[..n][i] == ctxs[i];
      assert AnyTracked(self, cfg, ctxs) <==> AnyTracked(self, cfg, ctxs[..n]) || IsTracked(self, cfg, ctxs[n]);
      StepStages(self, cfg, l, e.staging, now, ctxs[n]);
    }
  }

  lemma StepStages(self: Address, cfg: PolicyConfig, l: LedgerState, stg: Staging, now: u64, c: Context)
    requires EvalContext(self, cfg, l, stg, now, c).verdict == Allowed
    ensures StagesSpend(EvalContext(self, cfg, l, stg, now, c).staging) <==> StagesSpend(stg) || IsTracked(self, cfg, c)
  {
    hide ParseCall, TransferGate, ProtocolGate, FirstOverride, GlobalOver, RecipientOver, FindStaged;
  }

  lemma AdmitNonEmpty(w: Window, now: u64, amount: int, ceiling: int)
    ensures Admit(w, now, amount, ceiling).entries != []
  {
  }

  /** On an empty ledger, staged spend is what makes the result worth writing. */
  lemma CommitHasSpend(stg: Staging, now: u64)
    ensures HasSpendEntries(Commit(EMPTY_LEDGER, stg, now)) <==> StagesSpend(stg)
  {
    if stg.admission != [] {
      var n := |stg.admission| - 1;
      AdmitNonEmpty(AdmitAll(EMPTY_WINDOW, stg.admission[..n]), stg.admission[n].ts, stg.admission[n].amount, I128_MAX);
    } else if stg.recipients != [] {
      var n := |stg.recipients| - 1;
      var rs, r := AdmitStaged([], stg.recipients[..n], now), stg.recipients[n].recipient;
      AdmitNonEmpty(WindowOf(rs, r), now, stg.recipients[n].amount, I128_MAX);
      assert AdmitFor(rs, r, now, stg.recipients[n].amount)[Find(rs, r)].window.entries != [];
    }
    hide Admit;
  }

  lemma OpeningOfNothing(s: State, now: u64)
    requires s.window.None?
    ensures Opening(s, now) == EMPTY_LEDGER
  {
    hide AccountGate;
    assert PruneRecipients([], now, if s.policy.Some? then s.policy.value.windowSecs else 0) == [];
  }

  /** Exactly when the decided ledger is written: when the key was there before,
      or the request has a transfer that is tracked. */
  lemma SavedExactly(self: Address, s: State, now: u64, ctxs: seq<Context>, signed: bool)
    requires Authorize(self, s, now, ctxs, signed).outcome == Done
    ensures s.policy.Some?
    ensures SavesBack(s, AuthRuling(self, s, now, ctxs).ledger) <==>
      s.window.Some? || AnyTracked(self, s.policy.value, ctxs)
  {
    hide Authorize, Evaluate, Commit, Opening, AnyTracked, StagesSpend, AuthRuling, HasSpendEntries;
    Accepted(self, s, now, ctxs, signed);
    if s.window.None? {
      OpeningOfNothing(s, now);
      var stg := Evaluate(self, s.policy.value, EMPTY_LEDGER, now, ctxs).staging;
      StagesTracked(self, s.policy.value, EMPTY_LEDGER, now, ctxs);
      CommitHasSpend(stg, now);
    }
  }

  /** So exactly then the key is in storage after an `Ok`, and otherwise storage
      is as it was. */
  lemma StoredExactly(self: Address, s: State, now: u64, ctxs: seq<Context>)
    requires Authorize(self, s, now, ctxs, true).outcome == Done
    ensures s.policy.Some?
    ensures Authorize(self, s, now, ctxs, true).state.window.Some? <==>
      s.window.Some? || AnyTracked(self, s.policy.value, ctxs)
    ensures !(s.window.Some? || AnyTracked(self, s.policy.value, ctxs)) ==> Authorize(self, s, now, ctxs, true).state == s
  {
    hide Authorize, AnyTracked, AuthRuling, HasSpendEntries;
    Accepted(self, s, now, ctxs, true);
    SavedExactly(self, s, now, ctxs, true);
  }

  // ---- Whether all of it comes back ----

  /** How many protocol calls the request adds to the count. */
  function CallsCounted(self: Address, cfg: PolicyConfig, now: u64, ctxs: seq<Context>): int {
    Sum(Recorded(self, cfg, now, Calls, ctxs))
  }

  /** The call total, which is not stored, is found again by the next load: the
      stored calls fit a `u32`, or all of them expire, or no more of them expire
      than the request adds. */
  predicate CallTotalSurvives(self: Address, s: State, now: u64, ctxs: seq<Context>) {
    s.policy.Some? ==>
      var before, live := LoadWindow(s).calls.entries, Opening(s, now).calls.entries;
      || Sum(before) <= U32_MAX
      || live == []
      || Sum(before) - Sum(live) <= CallsCounted(self, s.policy.value, now, ctxs)
  }

  /** An `Ok` changes only the window key. The next load reproduces the decided
      ledger exactly when, judged before the call, the key gets written and the
      call total survives, or there is nothing to write and no call is counted. */
  lemma OkStoresDecision(self: Address, s: State, now: u64, ctxs: seq<Context>)
    requires Inv(self, s, now) && Authorize(self, s, now, ctxs, true).outcome == Done
    ensures s.policy.Some?
    ensures var s', l := Authorize(self, s, now, ctxs, true).state, AuthRuling(self, s, now, ctxs).ledger;
      var stored := s.window.Some? || AnyTracked(self, s.policy.value, ctxs);
      && s' == s.(window := s'.window)
      && (stored ==> LoadWindow(s').spend == l.spend && LoadWindow(s').recipients == l.recipients)
      && (LoadWindow(s') == l <==>
          if stored then CallTotalSurvives(self, s, now, ctxs) else CallsCounted(self, s.policy.value, now, ctxs) == 0)
  {
    hide Authorize, Evaluate, Commit, Opening, AnyTracked, AuthRuling, Coherent, Inv, HasSpendEntries, CallTotalSurvives,
      FromState, CallsCounted, ToState;
    Accepted(self, s, now, ctxs, true);
    StoredExactly(self, s, now, ctxs);
    var l := AuthRuling(self, s, now, ctxs).ledger;
    DecidedCalls(self, s, now, ctxs);
    if SavesBack(s, l) {
      RoundTrip(l, now);
    } else {
      NothingButCalls(self, s, now, ctxs);
    }
  }

  /** The calls window of the decided ledger. */
  lemma DecidedCalls(self: Address, s: State, now: u64, ctxs: seq<Context>)
    requires Inv(self, s, now) && Authorize(self, s, now, ctxs, true).outcome == Done
    ensures s.policy.Some?
    ensures var l, n := AuthRuling(self, s, now, ctxs).ledger, CallsCounted(self, s.policy.value, now, ctxs);
      && Coherent(l, now) && 0 <= n && l.calls == AdmitCalls(Opening(s, now).calls, now, n)
      && (l.calls.total == SatAdd(0, Sum(l.calls.entries), U32_MAX) <==> CallTotalSurvives(self, s, now, ctxs))
  {
    hide Authorize, Evaluate, Opening, AuthRuling, Coherent, Inv, AdmitCalls, Within, LoadWindow, Recorded;
    Accepted(self, s, now, ctxs, true);
    var cfg, o := s.policy.value, Opening(s, now);
    var stg := Evaluate(self, cfg, o, now, ctxs).staging;
    OpeningCoherent(self, s, now);
    EvaluateWithin(self, cfg, o, now, ctxs);
    StagedIsRecorded(self, cfg, o, now, ctxs, Calls);
    FewCallsStaged(self, cfg, o, now, ctxs);
    CommitCoherent(cfg, o, stg, now);
    CoherentCalls(o, now);
    LoadedCalls(self, s, now);
    OpeningWindow(s, now, Calls);
    hide Prunes;
    CallsRoundTrip(LoadWindow(s).calls, o.calls, now, s.policy.value.windowSecs, stg.calls);
  }

  /** A loaded call window that is pruned or not and gets `n` calls: exactly when
      its total is still the saturated sum of its entries. */
  lemma CallsRoundTrip(w: Window, o: Window, now: u64, width: u64, n: nat)
    requires Shaped(w.entries) && NotAfter(w.entries, now) && w.total == SatAdd(0, Sum(w.entries), U32_MAX)
    requires o == w || o == Prune(w, now, width)
    requires n < U32_MAX
    ensures var a := AdmitCalls(o, now, n);
      a.total == SatAdd(0, Sum(a.entries), U32_MAX) <==>
        Sum(w.entries) <= U32_MAX || o.entries == [] || Sum(w.entries) - Sum(o.entries) <= n
  {
    hide Sum;
    SumNonNegative(w.entries);
    PruneShaped(w, now, width, now);
    assert o.total == SatSub(w.total, Sum(w.entries) - Sum(o.entries));
    assert Sum([]) == 0 by { EmptySum(); }
    AdmitCallsCoherent(o, now, n);
    CallsSum(o, now, n);
    SumNonNegative(o.entries);
    PrunedSum(w, now, width);
    hide Prune, Shaped, AdmitCalls;
  }

  lemma PrunedSum(w: Window, now: u64, width: u64)
    requires Shaped(w.entries)
    ensures Sum(Prune(w, now, width).entries) <= Sum(w.entries)
  {
    if width > 0 {
      var k := ExpirySplit(w.entries, now, width);
      SumNonNegative(w.entries[..k]);
    }
  }

  /** Counting calls adds them to the entries, up to where those saturate. */
  lemma {:induction false} CallsSum(w: Window, now: u64, n: nat)
    requires CallsCoherent(w, now)
    ensures var sum := Sum(AdmitCalls(w, now, n).entries);
      if Sum(w.entries) + n <= U32_MAX then sum == Sum(w.entries) + n else sum >= U32_MAX
  {
    hide Admit, Sum;
    if n > 0 {
      var v := AdmitCalls(w, now, n - 1);
      CallsSum(w, now, n - 1);
      AdmitCallsCoherent(w, now, n - 1);
      assert AdmitCalls(w, now, n) == Admit(v, now, 1, U32_MAX);
      hide AdmitCalls;
      if Sum(v.entries) + 1 <= U32_MAX {
        AdmitSum(v, now, 1, U32_MAX);
      } else {
        AdmitSaturated(v, now);
      }
    }
  }

  /** Without a key and without tracked spend the decided ledger has calls only. */
  lemma NothingButCalls(self: Address, s: State, now: u64, ctxs: seq<Context>)
    requires Inv(self, s, now) && Authorize(self, s, now, ctxs, true).outcome == Done
    requires s.window.None? && s.policy.Some? && !HasSpendEntries(AuthRuling(self, s, now, ctxs).ledger)
    ensures AuthRuling(self, s, now, ctxs).ledger == EMPTY_LEDGER <==>
      CallsCounted(self, s.policy.value, now, ctxs) == 0
  {
    hide Authorize, Evaluate, Opening, AuthRuling, Coherent, Inv, HasSpendEntries, CallsCounted, CallTotalSurvives;
    Accepted(self, s, now, ctxs, true);
    OpeningOfNothing(s, now);
    DecidedCalls(self, s, now, ctxs);
    var stg := Evaluate(self, s.policy.value, EMPTY_LEDGER, now, ctxs).staging;
    CommitHasSpend(stg, now);
    AdmitCallsCoherent(EMPTY_WINDOW, now, CallsCounted(self, s.policy.value, now, ctxs));
  }

  /** The call total is exact, so the round trip is exact, wherever the stored
      count fits and the limit is below `u32::MAX`. */
  lemma CallTotalExact(self: Address, s: State, now: u64, ctxs: seq<Context>)
    requires Inv(self, s, now) && s.policy.Some? && s.policy.value.protocolCallsPerWindow < U32_MAX
    requires Sum(LoadWindow(s).calls.entries) <= U32_MAX
    ensures var l := AuthRuling(self, s, now, ctxs).ledger; l.calls.total == Sum(l.calls.entries) <= U32_MAX
  {
    hide Coherent, Evaluate, AccountGate, LoadWindow, Current, Prune, Within;
    var cfg, l := s.policy.value, LoadWindow(s);
    LoadCoherent(self, s, now);
    LoadedCalls(self, s, now);
    CoherentCalls(l, now);
    var pruned := Current(cfg, l, now);
    CurrentCoherent(cfg, l, now);
    CurrentCalls(cfg, l, now);
    EvaluateWithin(self, cfg, pruned, now, ctxs);
    StagedCallsExact(cfg, pruned, Evaluate(self, cfg, pruned, now, ctxs).staging, now);
  }

  lemma CoherentCalls(l: LedgerState, now: u64)
    requires Coherent(l, now)
    ensures Shaped(l.calls.entries) && NotAfter(l.calls.entries, now)
  {
  }

  lemma CurrentCalls(cfg: PolicyConfig, l: LedgerState, now: u64)
    requires WellFormed(l.calls, U32_MAX)
    ensures WellFormed(Current(cfg, l, now).calls, U32_MAX)
  {
    PruneWellFormed(l.calls, now, cfg.windowSecs, U32_MAX);
  }

  lemma StagedCallsExact(cfg: PolicyConfig, l: LedgerState, stg: Staging, now: u64)
    requires Coherent(l, now) && Within(cfg, l, stg, now) && WellFormed(l.calls, U32_MAX)
    requires cfg.protocolCallsPerWindow < U32_MAX
    ensures WellFormed(AdmitCalls(l.calls, now, stg.calls), U32_MAX)
  {
    ExactCalls(l.calls, now, stg.calls);
  }

  lemma LoadedCalls(self: Address, s: State, now: u64)
    requires Inv(self, s, now)
    ensures var w := LoadWindow(s).calls;
      Shaped(w.entries) && NotAfter(w.entries, now) && w.total == SatAdd(0, Sum(w.entries), U32_MAX)
  {
    if s.window.Some? {
      FromStateCoherent(s.window.value, now);
    }
  }

  lemma {:induction false} ExactCalls(w: Window, now: u64, n: nat)
    requires WellFormed(w, U32_MAX) && NotAfter(w.entries, now)
    ensures w.total + n <= U32_MAX ==>
      && WellFormed(AdmitCalls(w, now, n), U32_MAX) && NotAfter(AdmitCalls(w, now, n).entries, now)
      && AdmitCalls(w, now, n).total == w.total + n
  {
    if n > 0 && w.total + n <= U32_MAX {
      ExactCalls(w, now, n - 1);
      AdmitWellFormed(AdmitCalls(w, now, n - 1), now, 1, U32_MAX);
    }
  }

}
