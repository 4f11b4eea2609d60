/** What holds of a request's staging while its contexts are evaluated, and
    what committing it does to the ledger. */
module StagingFacts {
  import opened Types
  import opened WindowSpec
  import opened LedgerSpec
  import opened EngineSpec

  predicate DistinctStaged(rs: seq<Staged>) {
    forall i, j :: 0 <= i < j < |rs| ==> rs[i].recipient != rs[j].recipient
  }

  predicate AllAt(es: seq<Entry>, now: u64) {
    forall i :: 0 <= i < |es| ==> es[i].ts == now
  }

  /** Every staged amount is within an override and what is left under it. */
  predicate StagedWithin(cfg: PolicyConfig, l: LedgerState, rs: seq<Staged>) {
    forall i :: 0 <= i < |rs| ==>
      && rs[i].amount > 0
      && OverrideCap(cfg, rs[i].recipient).Some?
      && WindowOf(l.recipients, rs[i].recipient).total + rs[i].amount <= OverrideCap(cfg, rs[i].recipient).value
  }

  /** The projections of everything staged so far are within every cap. */
  predicate Within(cfg: PolicyConfig, l: LedgerState, stg: Staging, now: u64) {
    && stg.pending == Sum(stg.admission)
    && Positive(stg.admission) && AllAt(stg.admission, now)
    && (stg.admission != [] ==> cfg.windowCap > 0 && l.spend.total + stg.pending <= cfg.windowCap)
    && DistinctStaged(stg.recipients)
    && StagedWithin(cfg, l, stg.recipients)
    && (stg.calls > 0 ==>
        && cfg.protocolCallsPerWindow > 0
        && SatAdd(l.calls.total, stg.calls, U32_MAX) <= cfg.protocolCallsPerWindow)
  }

  // ---- Evaluation keeps it ----

  lemma {:induction false} FindStagedIs(rs: seq<Staged>, r: Address, k: nat)
    requires k <= |rs| && (k < |rs| ==> rs[k].recipient == r)
    requires forall j :: 0 <= j < k ==> rs[j].recipient != r
    ensures FindStaged(rs, r) == k
  {
    if k > 0 {
      FindStagedIs(rs[1..], r, k - 1);
    }
  }

  lemma StagedForBound(cfg: PolicyConfig, l: LedgerState, rs: seq<Staged>, r: Address)
    requires StagedWithin(cfg, l, rs)
    ensures StagedFor(rs, r) >= 0
    ensures StagedFor(rs, r) > 0 <==> FindStaged(rs, r) < |rs|
  {
  }

  lemma TransferKeepsWithin(cfg: PolicyConfig, l: LedgerState, stg: Staging, now: u64,
                            asset: Address, to: Address, amount: int)
    requires Coherent(l, now) && Within(cfg, l, stg, now)
    ensures Within(cfg, l, EvalTransfer(cfg, l, stg, now, asset, to, amount).staging, now)
  {
    var s := EvalTransfer(cfg, l, stg, now, asset, to, amount);
    SumNonNegative(l.spend.entries);
    SumNonNegative(stg.admission);
    if s.verdict == Allowed {
      if cfg.windowCap > 0 {
        SumConcat(stg.admission, [Entry(now, amount)]);
        assert Sum([Entry(now, amount)]) == amount;
      }
      if OverrideCap(cfg, to).Some? {
        StageKeepsWithin(cfg, l, stg, to, amount);
      }
    }
  }

  lemma StageKeepsWithin(cfg: PolicyConfig, l: LedgerState, stg: Staging, to: Address, amount: int)
    requires RecipientsWellFormed(l.recipients, U64_MAX)
    requires DistinctStaged(stg.recipients) && StagedWithin(cfg, l, stg.recipients)
    requires amount > 0 && OverrideCap(cfg, to).Some? && !RecipientOver(cfg, l, stg, to, amount)
    ensures StagedFor(stg.recipients, to) + amount <= I128_MAX
    ensures DistinctStaged(Stage(stg.recipients, to, amount))
    ensures StagedWithin(cfg, l, Stage(stg.recipients, to, amount))
  {
    StagedForBound(cfg, l, stg.recipients, to);
    WindowOfWellFormed(l.recipients, to, U64_MAX);
    SumNonNegative(WindowOf(l.recipients, to).entries);
  }

  lemma StepKeepsWithin(self: Address, cfg: PolicyConfig, l: LedgerState, stg: Staging, now: u64, ctx: Context)
    requires Coherent(l, now) && Within(cfg, l, stg, now)
    ensures Within(cfg, l, EvalContext(self, cfg, l, stg, now, ctx).staging, now)
  {
    var call := ParseCall(self, ctx, cfg);
    if call.AssetTransfer? {
      TransferKeepsWithin(cfg, l, stg, now, call.asset, call.to, call.amount);
    }
  }

  lemma {:induction false} EvaluateWithin(self: Address, cfg: PolicyConfig, l: LedgerState, now: u64, ctxs: seq<Context>)
    requires Coherent(l, now)
    ensures Within(cfg, l, Evaluate(self, cfg, l, now, ctxs).staging, now)
  {
    if ctxs != [] {
      var n := |ctxs| - 1;
      EvaluateWithin(self, cfg, l, now, ctxs[..n]);
      StepKeepsWithin(self, cfg, l, Evaluate(self, cfg, l, now, ctxs[..n]).staging, now, ctxs[n]);
    }
  }

  lemma {:induction false} FewCallsStaged(self: Address, cfg: PolicyConfig, l: LedgerState, now: u64, ctxs: seq<Context>)
    ensures Evaluate(self, cfg, l, now, ctxs).staging.calls <= |ctxs|
  {
    if ctxs != [] {
      FewCallsStaged(self, cfg, l, now, ctxs[..|ctxs| - 1]);
    }
  }

  /** A single context is evaluated with nothing staged before it. */
  lemma EvaluateOne(self: Address, cfg: PolicyConfig, l: LedgerState, now: u64, c: Context)
    ensures var s := EvalContext(self, cfg, l, NOTHING_STAGED, now, c);
      Evaluate(self, cfg, l, now, [c]) == Evaluation([s.verdict], s.staging)
  {
    assert [c][..0] == [];
  }

  // ---- Committing ----

  lemma EmptySum()
    ensures Sum([]) == 0
  {
  }

  /** Staged global admissions are one admission of what is pending. */
  lemma {:induction false} AdmitAllIsAdmit(w: Window, es: seq<Entry>, now: u64)
    requires WellFormed(w, I128_MAX) && NotAfter(w.entries, now)
    requires Positive(es) && AllAt(es, now) && w.total + Sum(es) <= I128_MAX
    ensures AdmitAll(w, es) == if es == [] then w else Admit(w, now, Sum(es), I128_MAX)
  {
    hide Admit, Sum;
    if es != [] {
      var n := |es| - 1;
      SumSnoc(es);
      SumNonNegative(es[..n]);
      if n == 0 { assert es[..n] == [] && Sum([]) == 0 by { EmptySum(); } }
      AdmitAllIsAdmit(w, es[..n], now);
      if n > 0 {
        AdmitTwice(w, now, Sum(es[..n]), es[n].amount, I128_MAX);
      }
    }
  }

  /** Each staged recipient gets one admission; the others are untouched. */
  lemma {:induction false} AdmitStagedWindowOf(cfg: PolicyConfig, l: LedgerState, staged: seq<Staged>, now: u64, r: Address)
    requires Coherent(l, now) && DistinctStaged(staged) && StagedWithin(cfg, l, staged)
    ensures var a := StagedFor(staged, r);
      WindowOf(AdmitStaged(l.recipients, staged, now), r) ==
      if a > 0 then Admit(WindowOf(l.recipients, r), now, a, I128_MAX) else WindowOf(l.recipients, r)
  {
    if staged != [] {
      var n := |staged| - 1;
      AdmitStagedWindowOf(cfg, l, staged[..n], now, r);
      AdmitForWindowOf(AdmitStaged(l.recipients, staged[..n], now), staged[n].recipient, r, now, staged[n].amount);
      StagedForSnoc(staged, r);
      StagedForBound(cfg, l, staged[..n], r);
      StagedForBound(cfg, l, staged, r);
    }
  }

  lemma StagedForSnoc(staged: seq<Staged>, r: Address)
    requires staged != [] && DistinctStaged(staged)
    ensures var n := |staged| - 1;
      && StagedFor(staged, r) == (if r == staged[n].recipient then staged[n].amount else StagedFor(staged[..n], r))
      && (r == staged[n].recipient ==> FindStaged(staged[..n], r) == n)
  {
    var n := |staged| - 1;
    if r == staged[n].recipient {
      FindStagedIs(staged, r, n);
      FindStagedIs(staged[..n], r, n);
    } else {
      var k := FindStaged(staged[..n], r);
      FindStagedIs(staged, r, if k < n then k else n + 1);
    }
  }

  lemma {:induction false} AdmitStagedWellFormed(cfg: PolicyConfig, l: LedgerState, staged: seq<Staged>, now: u64)
    requires Coherent(l, now) && DistinctStaged(staged) && StagedWithin(cfg, l, staged)
    ensures RecipientsWellFormed(AdmitStaged(l.recipients, staged, now), now)
    ensures DistinctRecipients(AdmitStaged(l.recipients, staged, now))
  {
    if staged != [] {
      var n := |staged| - 1;
      AdmitStagedWellFormed(cfg, l, staged[..n], now);
      AdmitStagedWindowOf(cfg, l, staged[..n], now, staged[n].recipient);
      StagedForSnoc(staged, staged[n].recipient);
      AdmitForWellFormed(AdmitStaged(l.recipients, staged[..n], now), staged[n].recipient, now, staged[n].amount);
    }
  }

  lemma CommitNothing(l: LedgerState, now: u64)
    ensures Commit(l, NOTHING_STAGED, now) == l
  {
  }

  /** Committing what evaluation staged keeps every window exact and in shape. */
  lemma CommitCoherent(cfg: PolicyConfig, l: LedgerState, stg: Staging, now: u64)
    requires Coherent(l, now) && Within(cfg, l, stg, now)
    ensures Coherent(Commit(l, stg, now), now)
    ensures Commit(l, stg, now).spend == if stg.admission == [] then l.spend else Admit(l.spend, now, stg.pending, I128_MAX)
    ensures Commit(l, stg, now).spend.total == l.spend.total + stg.pending
    ensures Commit(l, stg, now).calls.total == SatAdd(l.calls.total, stg.calls, U32_MAX)
  {
    SumNonNegative(stg.admission);
    AdmitAllIsAdmit(l.spend, stg.admission, now);
    if stg.admission != [] {
      AdmitWellFormed(l.spend, now, stg.pending, I128_MAX);
    }
    AdmitStagedWellFormed(cfg, l, stg.recipients, now);
    AdmitCallsCoherent(l.calls, now, stg.calls);
  }

  // ---- Decisions keep the ledger coherent ----

  lemma CurrentCoherent(cfg: PolicyConfig, l: LedgerState, now: u64)
    requires Coherent(l, now)
    ensures Coherent(Current(cfg, l, now), now)
    ensures PrunesWindows(cfg) && cfg.windowSecs > 0 ==> LedgerLive(Current(cfg, l, now), now, cfg.windowSecs)
  {
    PruneCoherent(l, now, cfg.windowSecs, now);
  }

  /** Whatever the policy, the batch and the verdicts, a decision leaves every
      window in shape and every spend total exact: saturation never clips. */
  lemma DecideCoherent(self: Address, policy: Option<PolicyConfig>, st: AccountState,
                       l: LedgerState, now: u64, ctxs: seq<Context>)
    requires Coherent(l, now)
    ensures Coherent(Decide(self, policy, st, l, now, ctxs).ledger, now)
  {
    if |ctxs| <= MAX_AUTH_CONTEXTS && AccountGate(policy, st, now).None? {
      var pruned := Current(policy.value, l, now);
      CurrentCoherent(policy.value, l, now);
      EvaluateWithin(self, policy.value, pruned, now, ctxs);
      CommitCoherent(policy.value, pruned, Evaluate(self, policy.value, pruned, now, ctxs).staging, now);
    }
  }
}
