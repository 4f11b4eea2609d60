/** A batch is judged exactly as its contexts would be judged one at a time. */
module BatchSequence {
  import opened Types
  import opened WindowSpec
  import opened LedgerSpec
  import opened EngineSpec
  import opened StagingFacts
  import opened History

  /** Each context decided alone, at the same time, on the ledger left by the
      ones before it; a blocked context contributes nothing. */
  function Sequential(self: Address, policy: Option<PolicyConfig>, st: AccountState,
                      l: LedgerState, now: u64, ctxs: seq<Context>): Ruling
  {
    if ctxs == [] then Ruling([], l)
    else
      var n := |ctxs| - 1;
      var before := Sequential(self, policy, st, l, now, ctxs[..n]);
      var last := Decide(self, policy, st, before.ledger, now, [ctxs[n]]);
      Ruling(before.verdicts + last.verdicts, last.ledger)
  }

  /** The policy makes entries expire. */
  predicate Expires(policy: Option<PolicyConfig>) {
    policy.Some? && PrunesWindows(policy.value) && policy.value.windowSecs > 0
  }

  /** The whole batch gets the same verdicts as the contexts one by one, and
      when all pass it leaves the same ledger. Where entries expire, the clock
      must be below its last second, at which a fresh entry has expired already. */
  lemma BatchEqualsSequence(self: Address, policy: Option<PolicyConfig>, st: AccountState,
                            l: LedgerState, now: u64, ctxs: seq<Context>)
    requires Coherent(l, now) && (now < U64_MAX || !Expires(policy))
    requires |ctxs| <= MAX_AUTH_CONTEXTS
    ensures Sequential(self, policy, st, l, now, ctxs).verdicts == Decide(self, policy, st, l, now, ctxs).verdicts
    ensures ctxs != [] && AllAllowed(Decide(self, policy, st, l, now, ctxs).verdicts) ==>
      Sequential(self, policy, st, l, now, ctxs).ledger == Decide(self, policy, st, l, now, ctxs).ledger
  {
    var gate := AccountGate(policy, st, now);
    if gate.Some? {
      SequenceRefused(self, policy, st, l, now, ctxs);
    } else {
      SequenceIsCommit(self, policy, st, l, now, ctxs);
    }
  }

  lemma {:induction false} SequenceRefused(self: Address, policy: Option<PolicyConfig>, st: AccountState,
                                           l: LedgerState, now: u64, ctxs: seq<Context>)
    requires AccountGate(policy, st, now).Some?
    ensures Sequential(self, policy, st, l, now, ctxs)
         == Ruling(Refuse(AccountGate(policy, st, now).value, |ctxs|), l)
  {
    if ctxs != [] {
      SequenceRefused(self, policy, st, l, now, ctxs[..|ctxs| - 1]);
    }
  }

  /** Past the account gates, the sequence has committed what the batch staged. */
  lemma {:induction false} SequenceIsCommit(self: Address, policy: Option<PolicyConfig>, st: AccountState,
                                            l: LedgerState, now: u64, ctxs: seq<Context>)
    requires Coherent(l, now) && (now < U64_MAX || !Expires(policy)) && AccountGate(policy, st, now).None?
    requires |ctxs| <= MAX_AUTH_CONTEXTS
    ensures var pruned := Current(policy.value, l, now);
      var e := Evaluate(self, policy.value, pruned, now, ctxs);
      Sequential(self, policy, st, l, now, ctxs)
      == Ruling(e.verdicts, if ctxs == [] then l else Commit(pruned, e.staging, now))
  {
    assert policy.Some?;
    hide Coherent, Within, EvalContext, AccountGate, Commit, Current;
    var cfg := policy.value;
    var pruned := Current(cfg, l, now);
    CurrentCoherent(cfg, l, now);
    if ctxs != [] {
      var n := |ctxs| - 1;
      SequenceIsCommit(self, policy, st, l, now, ctxs[..n]);
      var before := Sequential(self, policy, st, l, now, ctxs[..n]);
      var stg := Evaluate(self, cfg, pruned, now, ctxs[..n]).staging;
      var lc := Commit(pruned, stg, now);
      EvaluateWithin(self, cfg, pruned, now, ctxs[..n]);
      FewCallsStaged(self, cfg, pruned, now, ctxs[..n]);
      assert Current(cfg, before.ledger, now) == lc by {
        if n > 0 { CurrentOfCommit(cfg, l, stg, now); } else { CommitNothing(pruned, now); }
      }
      EvalAgrees(self, cfg, pruned, stg, now, ctxs[n]);
      EvaluateOne(self, cfg, lc, now, ctxs[n]);
    }
  }

  // ---- A committed ledger is already pruned ----

  lemma AdmitLive(w: Window, now: u64, amount: int, ceiling: int, width: u64)
    requires AllLive(w.entries, now, width) && width > 0 && now < U64_MAX
    ensures AllLive(Admit(w, now, amount, ceiling).entries, now, width)
  {
    if Merges(w.entries, now) {
      var pushed := w.entries + [Entry(now, amount)];
      var m := MergeOldest(pushed, ceiling);
      assert pushed[1] == w.entries[1];
      assert forall i :: 1 <= i < |m| ==> m[i] == pushed[i + 1];
    }
  }

  predicate RecipientsLive(rs: seq<RecipientWindow>, now: u64, width: u64) {
    forall i :: 0 <= i < |rs| ==> AllLive(rs[i].window.entries, now, width)
  }

  lemma {:induction false} AdmitStagedLive(rs: seq<RecipientWindow>, staged: seq<Staged>, now: u64, width: u64)
    requires RecipientsLive(rs, now, width) && width > 0 && now < U64_MAX
    ensures RecipientsLive(AdmitStaged(rs, staged, now), now, width)
  {
    if staged != [] {
      var n := |staged| - 1;
      AdmitStagedLive(rs, staged[..n], now, width);
      AdmitLive(WindowOf(AdmitStaged(rs, staged[..n], now), staged[n].recipient), now, staged[n].amount, I128_MAX, width);
    }
  }

  lemma {:induction false} AdmitCallsLive(w: Window, n: nat, now: u64, width: u64)
    requires AllLive(w.entries, now, width) && width > 0 && now < U64_MAX
    ensures AllLive(AdmitCalls(w, now, n).entries, now, width)
  {
    if n > 0 {
      AdmitCallsLive(w, n - 1, now, width);
      AdmitLive(AdmitCalls(w, now, n - 1), now, 1, U32_MAX, width);
    }
  }

  lemma CurrentOfCommit(cfg: PolicyConfig, l: LedgerState, stg: Staging, now: u64)
    requires Coherent(l, now) && (now < U64_MAX || !Expires(Some(cfg)))
    requires Within(cfg, Current(cfg, l, now), stg, now)
    ensures Current(cfg, Commit(Current(cfg, l, now), stg, now), now) == Commit(Current(cfg, l, now), stg, now)
  {
    var pruned := Current(cfg, l, now);
    CurrentCoherent(cfg, l, now);
    CommitCoherent(cfg, pruned, stg, now);
    var lc := Commit(pruned, stg, now);
    if PrunesWindows(cfg) {
      if cfg.windowSecs > 0 {
        if stg.admission != [] {
          AdmitLive(pruned.spend, now, stg.pending, I128_MAX, cfg.windowSecs);
        }
        AdmitStagedLive(pruned.recipients, stg.recipients, now, cfg.windowSecs);
        AdmitCallsLive(pruned.calls, stg.calls, now, cfg.windowSecs);
        assert LedgerLive(lc, now, cfg.windowSecs);
      }
      PruneLiveLedger(lc, now, cfg.windowSecs, now);
    }
  }

  // ---- One more context, staged or alone on the committed ledger ----

  /** A context sees the same projections whether earlier amounts are staged
      beside the ledger or already committed to it. */
  lemma EvalAgrees(self: Address, cfg: PolicyConfig, l: LedgerState, stg: Staging, now: u64, c: Context)
    requires Coherent(l, now) && Within(cfg, l, stg, now) && stg.calls < U32_MAX
    ensures var lc := Commit(l, stg, now);
      var s, s' := EvalContext(self, cfg, l, stg, now, c), EvalContext(self, cfg, lc, NOTHING_STAGED, now, c);
      && s.verdict == s'.verdict
      && Commit(lc, s'.staging, now) == Commit(l, s.staging, now)
      && (s.verdict.Blocked? ==> Commit(l, s.staging, now) == lc)
  {
    var lc := Commit(l, stg, now);
    var call := ParseCall(self, c, cfg);
    assert Commit(lc, NOTHING_STAGED, now) == lc;
    if call.AssetTransfer? {
      TransferAgrees(cfg, l, stg, now, call.asset, call.to, call.amount);
    } else if call.Protocol? {
      ProtocolAgrees(cfg, l, stg, now, call.contract, call.fname);
    }
  }

  lemma ProtocolAgrees(cfg: PolicyConfig, l: LedgerState, stg: Staging, now: u64, contract: Address, fname: Symbol)
    requires Coherent(l, now) && Within(cfg, l, stg, now) && stg.calls < U32_MAX
    ensures var lc := Commit(l, stg, now);
      var s, s' := EvalProtocol(cfg, l, stg, contract, fname), EvalProtocol(cfg, lc, NOTHING_STAGED, contract, fname);
      && s.verdict == s'.verdict
      && Commit(lc, s'.staging, now) == Commit(l, s.staging, now)
      && (s.verdict.Blocked? ==> Commit(l, s.staging, now) == lc)
  {
    var lc := Commit(l, stg, now);
    CommitCoherent(cfg, l, stg, now);
    assert Commit(lc, NOTHING_STAGED, now) == lc;
    var s := EvalProtocol(cfg, l, stg, contract, fname);
    if s.staging != stg {
      assert SatAdd(stg.calls, 1, U32_MAX) == stg.calls + 1;
      assert AdmitCalls(lc.calls, now, 1) == Admit(AdmitCalls(lc.calls, now, 0), now, 1, U32_MAX);
      assert AdmitCalls(l.calls, now, stg.calls + 1) == Admit(AdmitCalls(l.calls, now, stg.calls), now, 1, U32_MAX);
    }
  }

  lemma TransferAgrees(cfg: PolicyConfig, l: LedgerState, stg: Staging, now: u64,
                       asset: Address, to: Address, amount: i128)
    requires Coherent(l, now) && Within(cfg, l, stg, now)
    ensures var lc := Commit(l, stg, now);
      var s, s' := EvalTransfer(cfg, l, stg, now, asset, to, amount),
                   EvalTransfer(cfg, lc, NOTHING_STAGED, now, asset, to, amount);
      && s.verdict == s'.verdict
      && Commit(lc, s'.staging, now) == Commit(l, s.staging, now)
      && (s.verdict.Blocked? ==> Commit(l, s.staging, now) == lc)
  {
    hide AdmitFor, Admit, WellFormed;
    var lc := Commit(l, stg, now);
    assert Commit(lc, NOTHING_STAGED, now) == lc;
    var s := EvalTransfer(cfg, l, stg, now, asset, to, amount);
    var s' := EvalTransfer(cfg, lc, NOTHING_STAGED, now, asset, to, amount);
    if amount > 0 {
      OverAgrees(cfg, l, stg, now, to, amount);
      if s.verdict == Allowed {
        assert AdmitAll(lc.spend, s'.staging.admission) == AdmitAll(l.spend, s.staging.admission) by {
          if cfg.windowCap > 0 {
            var e := Entry(now, amount);
            assert (stg.admission + [e])[..|stg.admission|] == stg.admission;
            assert [e][..0] == [];
            assert AdmitAll(lc.spend, []) == lc.spend;
            assert NOTHING_STAGED.admission + [e] == [e];
          }
        }
        assert AdmitStaged(lc.recipients, s'.staging.recipients, now)
            == AdmitStaged(l.recipients, s.staging.recipients, now) by {
          if OverrideCap(cfg, to).Some? {
            StageAgrees(cfg, l, stg.recipients, now, to, amount);
          }
        }
      }
    }
  }

  lemma OverAgrees(cfg: PolicyConfig, l: LedgerState, stg: Staging, now: u64, to: Address, amount: i128)
    requires Coherent(l, now) && Within(cfg, l, stg, now) && amount > 0
    ensures var lc := Commit(l, stg, now);
      && GlobalOver(cfg, l, stg, amount) == GlobalOver(cfg, lc, NOTHING_STAGED, amount)
      && RecipientOver(cfg, l, stg, to, amount) == RecipientOver(cfg, lc, NOTHING_STAGED, to, amount)
  {
    hide AdmitFor, Admit;
    CommitCoherent(cfg, l, stg, now);
    SumNonNegative(l.spend.entries);
    SumNonNegative(stg.admission);
    CommittedTotal(cfg, l, stg.recipients, now, to);
  }

  /** Committing adds to a recipient's total exactly what is staged for it. */
  lemma CommittedTotal(cfg: PolicyConfig, l: LedgerState, staged: seq<Staged>, now: u64, r: Address)
    requires Coherent(l, now) && DistinctStaged(staged) && StagedWithin(cfg, l, staged)
    ensures WindowOf(l.recipients, r).total >= 0 && StagedFor(staged, r) >= 0
    ensures WindowOf(AdmitStaged(l.recipients, staged, now), r).total
         == WindowOf(l.recipients, r).total + StagedFor(staged, r) <= I128_MAX
  {
    AdmitStagedWindowOf(cfg, l, staged, now, r);
    StagedForBound(cfg, l, staged, r);
    WindowOfWellFormed(l.recipients, r, now);
    SumNonNegative(WindowOf(l.recipients, r).entries);
    if StagedFor(staged, r) > 0 {
      AdmitWellFormed(WindowOf(l.recipients, r), now, StagedFor(staged, r), I128_MAX);
    }
  }

  /** Raising a staged amount is the same as admitting the difference afterwards. */
  lemma StageAgrees(cfg: PolicyConfig, l: LedgerState, staged: seq<Staged>, now: u64, to: Address, amount: i128)
    requires Coherent(l, now) && DistinctStaged(staged) && StagedWithin(cfg, l, staged) && amount > 0
    requires OverrideCap(cfg, to).Some?
    requires WindowOf(l.recipients, to).total + StagedFor(staged, to) + amount <= I128_MAX
    ensures AdmitStaged(AdmitStaged(l.recipients, staged, now), Stage([], to, amount), now)
         == AdmitStaged(l.recipients, Stage(staged, to, amount), now)
  {
    hide AdmitFor, Admit, WellFormed;
    var rs := AdmitStaged(l.recipients, staged, now);
    assert Stage([], to, amount) == [Staged(to, amount)];
    assert [Staged(to, amount)][..0] == [];
    assert AdmitStaged(rs, [Staged(to, amount)], now) == AdmitFor(rs, to, now, amount);
    var k := FindStaged(staged, to);
    CommittedTotal(cfg, l, staged, now, to);
    if k == |staged| {
      assert (staged + [Staged(to, amount)])[..|staged|] == staged;
    } else {
      RaiseStaged(cfg, l, staged, now, k, amount);
    }
  }

  lemma {:induction false} RaiseStaged(cfg: PolicyConfig, l: LedgerState, staged: seq<Staged>, now: u64, k: nat, amount: int)
    requires Coherent(l, now) && DistinctStaged(staged) && StagedWithin(cfg, l, staged)
    requires k < |staged| && amount > 0
    requires WindowOf(l.recipients, staged[k].recipient).total + staged[k].amount + amount <= I128_MAX
    ensures var to := staged[k].recipient;
      AdmitFor(AdmitStaged(l.recipients, staged, now), to, now, amount)
      == AdmitStaged(l.recipients, staged[k := Staged(to, staged[k].amount + amount)], now)
  {
    hide AdmitFor, Admit, WellFormed;
    var n := |staged| - 1;
    if k == n {
      RaiseLast(cfg, l, staged, now, amount);
    } else {
      assert staged[..n][k] == staged[k];
      RaiseStaged(cfg, l, staged[..n], now, k, amount);
      RaiseBeforeLast(l.recipients, staged, now, k, amount);
    }
  }

  lemma RaiseLast(cfg: PolicyConfig, l: LedgerState, staged: seq<Staged>, now: u64, amount: int)
    requires Coherent(l, now) && DistinctStaged(staged) && StagedWithin(cfg, l, staged)
    requires staged != [] && amount > 0
    requires var s := staged[|staged| - 1]; WindowOf(l.recipients, s.recipient).total + s.amount + amount <= I128_MAX
    ensures var n := |staged| - 1;
      var to := staged[n].recipient;
      AdmitFor(AdmitStaged(l.recipients, staged, now), to, now, amount)
      == AdmitStaged(l.recipients, staged[n := Staged(to, staged[n].amount + amount)], now)
  {
    hide AdmitFor, Admit, WellFormed;
    var n := |staged| - 1;
    var to := staged[n].recipient;
    LastIsFresh(cfg, l, staged, now);
    RaiseAppended(l.recipients, staged[..n], to, now, staged[n].amount, amount);
    assert staged == staged[..n] + [Staged(to, staged[n].amount)];
    assert staged[n := Staged(to, staged[n].amount + amount)] == staged[..n] + [Staged(to, staged[n].amount + amount)];
  }

  lemma RaiseAppended(rs0: seq<RecipientWindow>, prefix: seq<Staged>, to: Address, now: u64, a: int, b: int)
    requires RecipientsWellFormed(AdmitStaged(rs0, prefix, now), now)
    requires a > 0 && b > 0 && WindowOf(AdmitStaged(rs0, prefix, now), to).total + a + b <= I128_MAX
    ensures AdmitFor(AdmitStaged(rs0, prefix + [Staged(to, a)], now), to, now, b)
         == AdmitStaged(rs0, prefix + [Staged(to, a + b)], now)
  {
    hide AdmitFor;
    var rs := AdmitStaged(rs0, prefix, now);
    AppendStaged(rs0, prefix, to, now, a);
    AppendStaged(rs0, prefix, to, now, a + b);
    AdmitForTwice(rs, to, now, a, b);
  }

  lemma AppendStaged(rs0: seq<RecipientWindow>, prefix: seq<Staged>, to: Address, now: u64, a: int)
    ensures AdmitStaged(rs0, prefix + [Staged(to, a)], now) == AdmitFor(AdmitStaged(rs0, prefix, now), to, now, a)
  {
    assert (prefix + [Staged(to, a)])[..|prefix|] == prefix;
  }

  lemma LastIsFresh(cfg: PolicyConfig, l: LedgerState, staged: seq<Staged>, now: u64)
    requires Coherent(l, now) && DistinctStaged(staged) && StagedWithin(cfg, l, staged) && staged != []
    ensures var n := |staged| - 1;
      var rs := AdmitStaged(l.recipients, staged[..n], now);
      && RecipientsWellFormed(rs, now)
      && WindowOf(rs, staged[n].recipient) == WindowOf(l.recipients, staged[n].recipient)
  {
    var n := |staged| - 1;
    AdmitStagedWellFormed(cfg, l, staged[..n], now);
    AdmitStagedWindowOf(cfg, l, staged[..n], now, staged[n].recipient);
    StagedForSnoc(staged, staged[n].recipient);
  }

  lemma RaiseBeforeLast(rs0: seq<RecipientWindow>, staged: seq<Staged>, now: u64, k: nat, amount: int)
    requires DistinctStaged(staged) && k < |staged| - 1
    requires var to := staged[k].recipient;
      var n := |staged| - 1;
      AdmitFor(AdmitStaged(rs0, staged[..n], now), to, now, amount)
      == AdmitStaged(rs0, staged[..n][k := Staged(to, staged[k].amount + amount)], now)
    ensures var to := staged[k].recipient;
      AdmitFor(AdmitStaged(rs0, staged, now), to, now, amount)
      == AdmitStaged(rs0, staged[k := Staged(to, staged[k].amount + amount)], now)
  {
    hide AdmitFor, Admit;
    var to := staged[k].recipient;
    var n := |staged| - 1;
    var raised := staged[k := Staged(to, staged[k].amount + amount)];
    var rs := AdmitStaged(rs0, staged[..n], now);
    assert raised[..n] == staged[..n][k := Staged(to, staged[k].amount + amount)];
    StagedTracked(rs0, staged[..n], now, k);
    AdmitForCommutes(rs, staged[n].recipient, staged[n].amount, to, amount, now);
    assert AdmitStaged(rs0, staged, now) == AdmitFor(rs, staged[n].recipient, now, staged[n].amount);
    assert AdmitStaged(rs0, raised, now)
        == AdmitFor(AdmitStaged(rs0, raised[..n], now), staged[n].recipient, now, staged[n].amount);
  }

  /** A staged recipient is tracked once its admission is committed. */
  lemma {:induction false} StagedTracked(rs: seq<RecipientWindow>, staged: seq<Staged>, now: u64, k: nat)
    requires k < |staged|
    ensures Find(AdmitStaged(rs, staged, now), staged[k].recipient) < |AdmitStaged(rs, staged, now)|
  {
    var n := |staged| - 1;
    var before := AdmitStaged(rs, staged[..n], now);
    var w := Admit(WindowOf(before, staged[n].recipient), now, staged[n].amount, I128_MAX);
    PutFind(before, staged[n].recipient, w, staged[k].recipient);
    if k < n {
      StagedTracked(rs, staged[..n], now, k);
    }
  }

  // ---- The last second of the clock ----

  /** What a verdict can see of a ledger. */
  ghost predicate SameTotals(a: LedgerState, b: LedgerState) {
    && a.spend.total == b.spend.total && a.calls.total == b.calls.total
    && forall r :: WindowOf(a.recipients, r).total == WindowOf(b.recipients, r).total
  }

  lemma {:induction false} TotalsDecide(self: Address, cfg: PolicyConfig, a: LedgerState, b: LedgerState, now: u64, ctxs: seq<Context>)
    requires SameTotals(a, b)
    ensures Evaluate(self, cfg, a, now, ctxs) == Evaluate(self, cfg, b, now, ctxs)
    ensures forall stg, c :: EvalContext(self, cfg, a, stg, now, c) == EvalContext(self, cfg, b, stg, now, c)
  {
    forall stg, c ensures EvalContext(self, cfg, a, stg, now, c) == EvalContext(self, cfg, b, stg, now, c) {
      TotalsDecideOne(self, cfg, a, b, stg, now, c);
    }
    hide EvalContext, SameTotals;
    if ctxs != [] {
      TotalsDecide(self, cfg, a, b, now, ctxs[..|ctxs| - 1]);
    }
  }

  lemma TotalsDecideOne(self: Address, cfg: PolicyConfig, a: LedgerState, b: LedgerState, stg: Staging, now: u64, c: Context)
    requires SameTotals(a, b)
    ensures EvalContext(self, cfg, a, stg, now, c) == EvalContext(self, cfg, b, stg, now, c)
  {
    hide ParseCall, TransferGate, ProtocolGate, FirstOverride, Stage, WindowOf;
  }

  /** At the last second an expiring policy finds every window empty. */
  lemma EmptyAtTheEnd(cfg: PolicyConfig, l: LedgerState)
    requires Coherent(l, U64_MAX) && Expires(Some(cfg))
    ensures SameTotals(Current(cfg, l, U64_MAX), EMPTY_LEDGER)
  {
    var width := cfg.windowSecs;
    NothingLiveAtTheEnd(l.spend.entries, width);
    NothingLiveAtTheEnd(l.calls.entries, width);
    forall r: Address ensures Prune(WindowOf(l.recipients, r), U64_MAX, width).total == 0 {
      NothingLiveAtTheEnd(WindowOf(l.recipients, r).entries, width);
      WindowOfWellFormed(l.recipients, r, U64_MAX);
    }
    forall r: Address ensures WindowOf(Current(cfg, l, U64_MAX).recipients, r).total == 0 {
      PruneWindowOf(l.recipients, r, U64_MAX, width);
    }
    hide Live;
  }

  /** The verdict a context would get with nothing before it and nothing stored. */
  function Alone(self: Address, cfg: PolicyConfig, ctxs: seq<Context>): (vs: seq<Decision>)
    ensures |vs| == |ctxs|
    ensures forall i :: 0 <= i < |ctxs| ==>
      vs[i] == EvalContext(self, cfg, EMPTY_LEDGER, NOTHING_STAGED, U64_MAX, ctxs[i]).verdict
  {
    seq(|ctxs|, i requires 0 <= i < |ctxs| =>
      EvalContext(self, cfg, EMPTY_LEDGER, NOTHING_STAGED, U64_MAX, ctxs[i]).verdict)
  }

  lemma OneAtTheEnd(self: Address, policy: Option<PolicyConfig>, st: AccountState, l: LedgerState, c: Context)
    requires Coherent(l, U64_MAX) && Expires(policy) && AccountGate(policy, st, U64_MAX).None?
    ensures var d := Decide(self, policy, st, l, U64_MAX, [c]);
      && d.verdicts == [EvalContext(self, policy.value, EMPTY_LEDGER, NOTHING_STAGED, U64_MAX, c).verdict]
      && Coherent(d.ledger, U64_MAX)
  {
    hide Coherent, EvalContext, AccountGate, Commit, Current, SameTotals, PrunesWindows, Evaluate;
    var cfg := policy.value;
    DecideCoherent(self, policy, st, l, U64_MAX, [c]);
    EmptyAtTheEnd(cfg, l);
    TotalsDecide(self, cfg, Current(cfg, l, U64_MAX), EMPTY_LEDGER, U64_MAX, []);
    EvaluateOne(self, cfg, Current(cfg, l, U64_MAX), U64_MAX, c);
  }

  lemma {:induction false} SequenceAtTheEnd(self: Address, policy: Option<PolicyConfig>, st: AccountState,
                                            l: LedgerState, ctxs: seq<Context>)
    requires Coherent(l, U64_MAX) && Expires(policy) && AccountGate(policy, st, U64_MAX).None?
    ensures Sequential(self, policy, st, l, U64_MAX, ctxs).verdicts == Alone(self, policy.value, ctxs)
    ensures Coherent(Sequential(self, policy, st, l, U64_MAX, ctxs).ledger, U64_MAX)
  {
    hide Coherent, EvalContext, AccountGate, PrunesWindows, Decide;
    if ctxs != [] {
      var n := |ctxs| - 1;
      SequenceAtTheEnd(self, policy, st, l, ctxs[..n]);
      OneAtTheEnd(self, policy, st, Sequential(self, policy, st, l, U64_MAX, ctxs[..n]).ledger, ctxs[n]);
      assert Alone(self, policy.value, ctxs) == Alone(self, policy.value, ctxs[..n]) + [Alone(self, policy.value, ctxs)[n]];
    }
  }

  /** At the last second, exactly when an expiring policy gives a batch the
      verdicts of its contexts one by one: when on an empty ledger no context is
      judged differently for the ones before it. One by one, each is judged as if
      nothing had come before. */
  lemma BatchEqualsSequenceAtTheEnd(self: Address, policy: Option<PolicyConfig>, st: AccountState,
                                    l: LedgerState, ctxs: seq<Context>)
    requires Coherent(l, U64_MAX) && Expires(policy) && AccountGate(policy, st, U64_MAX).None?
    requires |ctxs| <= MAX_AUTH_CONTEXTS
    ensures Sequential(self, policy, st, l, U64_MAX, ctxs).verdicts == Decide(self, policy, st, l, U64_MAX, ctxs).verdicts <==>
      Alone(self, policy.value, ctxs) == Evaluate(self, policy.value, EMPTY_LEDGER, U64_MAX, ctxs).verdicts
  {
    hide Coherent, EvalContext, AccountGate, Commit, Current, SameTotals, PrunesWindows, Evaluate, Sequential;
    SequenceAtTheEnd(self, policy, st, l, ctxs);
    EmptyAtTheEnd(policy.value, l);
    TotalsDecide(self, policy.value, Current(policy.value, l, U64_MAX), EMPTY_LEDGER, U64_MAX, ctxs);
  }
}
