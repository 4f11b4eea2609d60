/** What a run has really let through: the transfers and protocol calls of
    every authorization that returned `Ok`, with the time it did. */
module SpendHistory {
  import opened Types
  import opened WindowSpec
  import opened LedgerSpec
  import opened EngineSpec
  import opened StagingFacts
  import opened ContractSpec
  import opened Runs

  /** What a history counts: all transfers, those to one recipient, or calls. */
  datatype Kind = AllSpend | SpendTo(recipient: Address) | Calls

  /** What one authorized context contributes. */
  function Counted(self: Address, cfg: PolicyConfig, now: u64, k: Kind, c: Context): seq<Entry> {
    match ParseCall(self, c, cfg)
    case AssetTransfer(_, to, amount) =>
      if k == AllSpend || k == SpendTo(to) then [Entry(now, amount)] else []
    case Protocol(_, _) => if k == Calls then [Entry(now, 1)] else []
    case _ => []
  }

  function CountedAll(self: Address, cfg: PolicyConfig, now: u64, k: Kind, ctxs: seq<Context>): seq<Entry> {
    if ctxs == [] then []
    else
      var n := |ctxs| - 1;
      CountedAll(self, cfg, now, k, ctxs[..n]) + Counted(self, cfg, now, k, ctxs[n])
  }

  predicate Authorizes(self: Address, s: State, e: Event) {
    (e.action.CheckAuth? || e.action.Beat?) && Succeeds(self, s, e) && s.policy.Some?
  }

  /** What one call adds to the history. */
  function Admitted(self: Address, s: State, e: Event, k: Kind): seq<Entry> {
    if Authorizes(self, s, e) then CountedAll(self, s.policy.value, e.now, k, e.action.contexts) else []
  }

  /** Everything admitted by the first `n` calls of a run. */
  function HistoryOf(self: Address, states: seq<State>, events: seq<Event>, n: nat, k: Kind): seq<Entry>
    requires n <= |events| < |states|
  {
    if n == 0 then []
    else HistoryOf(self, states, events, n - 1, k) + Admitted(self, states[n - 1], events[n - 1], k)
  }

  /** How much of kind `k` is staged. */
  function StagedAmount(stg: Staging, k: Kind): int {
    match k
    case AllSpend => stg.pending
    case SpendTo(r) => StagedFor(stg.recipients, r)
    case Calls => stg.calls
  }

  /** The rolling limit that applies to kind `k`, if any. */
  function LimitOf(cfg: PolicyConfig, k: Kind): Option<int> {
    match k
    case AllSpend => if cfg.windowCap > 0 then Some(cfg.windowCap) else None
    case SpendTo(r) => OverrideCap(cfg, r)
    case Calls => if cfg.protocolCallsPerWindow > 0 then Some(cfg.protocolCallsPerWindow) else None
  }

  /** An allowed context stages exactly what the history counts for it. */
  lemma StepIsCounted(self: Address, cfg: PolicyConfig, l: LedgerState, stg: Staging, now: u64, c: Context, k: Kind)
    requires Coherent(l, now) && Within(cfg, l, stg, now) && stg.calls < U32_MAX
    requires EvalContext(self, cfg, l, stg, now, c).verdict == Allowed && LimitOf(cfg, k).Some?
    ensures var s := EvalContext(self, cfg, l, stg, now, c).staging;
      StagedAmount(s, k) == StagedAmount(stg, k) + Sum(Counted(self, cfg, now, k, c))
  {
    hide ProtocolGate, ParseCall, Stage, FirstOverride, WindowOf, Sum;
    var call := ParseCall(self, c, cfg);
    SumOne(now, 1);
    SumOne(now, if call.AssetTransfer? then call.amount else 0);
    assert Sum([]) == 0 by { EmptySum(); }
    if call.AssetTransfer? {
      SumNonNegative(stg.admission);
      SumNonNegative(l.spend.entries);
      if OverrideCap(cfg, call.to).Some? {
        StageAdds(cfg, l, stg, call.to, call.amount, k);
      }
    }
  }

  lemma SumOne(now: u64, amount: int)
    ensures Sum([Entry(now, amount)]) == amount
  {
  }

  lemma StageAdds(cfg: PolicyConfig, l: LedgerState, stg: Staging, to: Address, amount: i128, k: Kind)
    requires RecipientsWellFormed(l.recipients, U64_MAX)
    requires DistinctStaged(stg.recipients) && StagedWithin(cfg, l, stg.recipients) && amount > 0
    requires OverrideCap(cfg, to).Some? && !RecipientOver(cfg, l, stg, to, amount)
    ensures k.SpendTo? ==>
      StagedFor(Stage(stg.recipients, to, amount), k.recipient)
      == StagedFor(stg.recipients, k.recipient) + if k.recipient == to then amount else 0
  {
    StageKeepsWithin(cfg, l, stg, to, amount);
    if k.SpendTo? {
      var r := k.recipient;
      var at, to' := FindStaged(stg.recipients, r), FindStaged(stg.recipients, to);
      FindStagedIs(Stage(stg.recipients, to, amount), r,
        if at == |stg.recipients| && r != to && to' == |stg.recipients| then at + 1 else at);
    }
  }

  lemma CountedShape(self: Address, cfg: PolicyConfig, l: LedgerState, stg: Staging, now: u64, c: Context, k: Kind)
    requires EvalContext(self, cfg, l, stg, now, c).verdict == Allowed
    ensures Positive(Counted(self, cfg, now, k, c)) && AllAt(Counted(self, cfg, now, k, c), now)
  {
  }

  /** A batch in which every context is allowed has staged exactly what the
      history counts for it. */
  lemma {:induction false} StagedIsCounted(self: Address, cfg: PolicyConfig, l: LedgerState, now: u64, ctxs: seq<Context>, k: Kind)
    requires Coherent(l, now) && |ctxs| <= MAX_AUTH_CONTEXTS
    requires AllAllowed(Evaluate(self, cfg, l, now, ctxs).verdicts)
    ensures LimitOf(cfg, k).Some? ==>
      StagedAmount(Evaluate(self, cfg, l, now, ctxs).staging, k) == Sum(CountedAll(self, cfg, now, k, ctxs))
    ensures Positive(CountedAll(self, cfg, now, k, ctxs)) && AllAt(CountedAll(self, cfg, now, k, ctxs), now)
  {
    hide Within, Coherent, EvalContext, Counted, LimitOf, Sum;
    if ctxs == [] {
      NothingStaged(k);
    } else {
      var n := |ctxs| - 1;
      var e := Evaluate(self, cfg, l, now, ctxs[..n]);
      var s := EvalContext(self, cfg, l, e.staging, now, ctxs[n]);
      AllowedSnoc(e.verdicts, s.verdict);
      hide StagedAmount;
      StagedIsCounted(self, cfg, l, now, ctxs[..n], k);
      EvaluateWithin(self, cfg, l, now, ctxs[..n]);
      FewCallsStaged(self, cfg, l, now, ctxs[..n]);
      CountedShape(self, cfg, l, e.staging, now, ctxs[n], k);
      SumConcat(CountedAll(self, cfg, now, k, ctxs[..n]), Counted(self, cfg, now, k, ctxs[n]));
      if LimitOf(cfg, k).Some? {
        StepIsCounted(self, cfg, l, e.staging, now, ctxs[n], k);
      }
    }
  }

  lemma NothingStaged(k: Kind)
    ensures StagedAmount(NOTHING_STAGED, k) == 0 == Sum([])
  {
  }

  lemma AllowedSnoc(vs: seq<Decision>, v: Decision)
    ensures AllAllowed(vs + [v]) <==> AllAllowed(vs) && v == Allowed
  {
    var all := vs + [v];
    assert forall i :: 0 <= i < |vs| ==> all[i] == vs[i];
    assert all[|vs|] == v;
  }
}
