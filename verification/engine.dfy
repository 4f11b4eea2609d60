/** The decision engine of src/engine.rs as it runs: it prunes and mutates the
    ledger, stages admissions in parallel vectors, and commits all or nothing. */
module Engine {
  import opened Types
  import opened WindowSpec
  import opened LedgerSpec
  import opened EngineSpec
  import opened WindowLedger
  import opened StagingFacts

  /** The parallel recipient vectors hold the staged pairs. */
  predicate Zipped(names: seq<Address>, amounts: seq<int>, staged: seq<Staged>) {
    && |names| == |amounts| == |staged|
    && forall i :: 0 <= i < |staged| ==> staged[i] == Staged(names[i], amounts[i])
  }

  /** One verdict per context in order, or a single one for an oversized batch. */
  method RunDecide(self: Address, policy: Option<PolicyConfig>, state: AccountState,
                   ledger: Ledger, now: u64, contexts: seq<Context>)
    returns (verdicts: seq<Decision>)
    requires ledger.Valid(now)
    modifies ledger
    ensures Ruling(verdicts, ledger.View()) == Decide(self, policy, state, old(ledger.View()), now, contexts)
    ensures ledger.Valid(now)
  {
    ghost var before := ledger.View();
    DecideCoherent(self, policy, state, before, now, contexts);
    verdicts := [];
    if |contexts| > MAX_AUTH_CONTEXTS {
      return [Blocked(TooManyAuthContexts)];
    }
    if state.adminFrozen {
      verdicts := RepeatBlocked(AdminFrozen, |contexts|);
      return;
    }
    if policy.None? {
      verdicts := RepeatBlocked(NoPolicy, |contexts|);
      return;
    }
    var cfg := policy.value;

    var accountError: Option<Error> :=
      if cfg.dmsGraceSecs > 0 && state.lastHeartbeat != 0 && SatSub(now, state.lastHeartbeat) > cfg.dmsGraceSecs
      then Some(HeartbeatExpired)
      else if cfg.paused then Some(Paused)
      else if (cfg.activeFrom != 0 && now < cfg.activeFrom) || (cfg.activeUntil != 0 && now > cfg.activeUntil)
      then Some(OutsideActiveWindow)
      else None;
    if accountError.Some? {
      verdicts := RepeatBlocked(accountError.value, |contexts|);
      return;
    }

    verdicts := RunOpen(self, cfg, ledger, now, contexts);
  }

  /** Past the account gates: prune once, evaluate everything, commit if all passed. */
  method RunOpen(self: Address, cfg: PolicyConfig, ledger: Ledger, now: u64, contexts: seq<Context>)
    returns (verdicts: seq<Decision>)
    requires ledger.Valid(now)
    modifies ledger
    ensures var pruned := Current(cfg, old(ledger.View()), now);
      var e := Evaluate(self, cfg, pruned, now, contexts);
      && verdicts == e.verdicts
      && ledger.View() == if AllAllowed(verdicts) then Commit(pruned, e.staging, now) else pruned
  {
    ghost var pruned := Current(cfg, ledger.View(), now);
    CurrentCoherent(cfg, ledger.View(), now);
    if cfg.windowCap > 0 || cfg.recipientWindowCaps != [] || cfg.protocolCallsPerWindow > 0 {
      ledger.Prune(now, cfg.windowSecs);
    }
    var pending, admission, names, amounts, calls, allPassed;
    verdicts, pending, admission, names, amounts, calls, allPassed := RunContexts(self, cfg, ledger, now, contexts);
    if allPassed {
      EvaluateWithin(self, cfg, pruned, now, contexts);
      ghost var stg := Evaluate(self, cfg, pruned, now, contexts).staging;
      assert forall i :: 0 <= i < |amounts| ==> stg.recipients[i].amount == amounts[i];
      RunCommit(ledger, now, admission, names, amounts, calls, stg);
    }
  }

  /** Evaluate every context against the ledger and what is staged before it. */
  method RunContexts(self: Address, cfg: PolicyConfig, ledger: Ledger, now: u64, contexts: seq<Context>)
    returns (verdicts: seq<Decision>, pending: int, admission: seq<Entry>,
             names: seq<Address>, amounts: seq<int>, calls: nat, allPassed: bool)
    ensures var e := Evaluate(self, cfg, ledger.View(), now, contexts);
      verdicts == e.verdicts && Holds(e.staging, pending, admission, names, amounts, calls)
    ensures allPassed <==> AllAllowed(verdicts)
  {
    verdicts, pending, admission, names, amounts, calls := [], 0, [], [], [], 0;
    allPassed := true;
    for n := 0 to |contexts|
      invariant allPassed <==> AllAllowed(verdicts)
      invariant var e := Evaluate(self, cfg, ledger.View(), now, contexts[..n]);
        verdicts == e.verdicts && Holds(e.staging, pending, admission, names, amounts, calls)
    {
      assert contexts[..n + 1][..n] == contexts[..n] && contexts[..n + 1][n] == contexts[n];
      ghost var stg := Evaluate(self, cfg, ledger.View(), now, contexts[..n]).staging;
      var verdict;
      verdict, pending, admission, names, amounts, calls :=
        RunContext(self, cfg, ledger, now, contexts[n], pending, admission, names, amounts, calls, stg);
      if verdict.Blocked? {
        allPassed := false;
      }
      verdicts := Push(verdicts, verdict);
    }
    assert contexts[..|contexts|] == contexts;
  }

  function Push(vs: seq<Decision>, v: Decision): (r: seq<Decision>)
    ensures AllAllowed(r) <==> AllAllowed(vs) && v == Allowed
  {
    var r := vs + [v];
    assert forall i :: 0 <= i < |vs| ==> r[i] == vs[i];
    assert r[|vs|] == v;
    r
  }

  /** The running vectors hold exactly this staging. */
  predicate Holds(stg: Staging, pending: int, admission: seq<Entry>,
                  names: seq<Address>, amounts: seq<int>, calls: nat)
  {
    && stg.pending == pending && stg.admission == admission && stg.calls == calls
    && Zipped(names, amounts, stg.recipients)
  }

  method RunContext(self: Address, cfg: PolicyConfig, ledger: Ledger, now: u64, ctx: Context,
                    pending0: int, admission0: seq<Entry>, names0: seq<Address>, amounts0: seq<int>,
                    calls0: nat, ghost stg: Staging)
    returns (verdict: Decision, pending: int, admission: seq<Entry>,
             names: seq<Address>, amounts: seq<int>, calls: nat)
    requires Holds(stg, pending0, admission0, names0, amounts0, calls0)
    ensures var s := EvalContext(self, cfg, ledger.View(), stg, now, ctx);
      verdict == s.verdict && Holds(s.staging, pending, admission, names, amounts, calls)
  {
    pending, admission, names, amounts, calls := pending0, admission0, names0, amounts0, calls0;
    match ParseCall(self, ctx, cfg) {
      case SelfCall(fname) =>
        verdict := if fname == HEARTBEAT then Allowed else Blocked(SelfFunctionNotAllowed);
      case CreateContract =>
        verdict := Blocked(CreateContractNotAllowed);
      case Unknown(_, _) =>
        verdict := Blocked(UnknownContract);
      case AssetOther(asset, _) =>
        verdict := Blocked(if AssetPaused(cfg, asset) then AssetNotAllowed else AssetFnNotAllowed);
      case AssetTransfer(asset, to, amount) =>
        verdict, pending, admission, names, amounts :=
          RunTransfer(cfg, ledger, now, asset, to, amount, pending, admission, names, amounts, stg);
      case Protocol(contract, fname) =>
        verdict, calls := RunProtocol(cfg, ledger, contract, fname, calls, stg);
    }
  }

  /** Admit everything staged. */
  method RunCommit(ledger: Ledger, now: u64, admission: seq<Entry>, names: seq<Address>,
                   amounts: seq<int>, calls: nat, ghost stg: Staging)
    requires Holds(stg, Sum(admission), admission, names, amounts, calls)
    requires Positive(admission) && forall i :: 0 <= i < |amounts| ==> amounts[i] > 0
    modifies ledger
    ensures ledger.View() == Commit(old(ledger.View()), stg, now)
  {
    ghost var before := ledger.View();
    for i := 0 to |admission|
      invariant ledger.View() == before.(spend := AdmitAll(before.spend, admission[..i]))
    {
      assert admission[..i + 1][..i] == admission[..i];
      ledger.Admit(admission[i].ts, admission[i].amount);
    }
    assert admission[..|admission|] == admission;
    ghost var middle := ledger.View();
    for i := 0 to |names|
      invariant ledger.View() ==
        middle.(recipients := AdmitStaged(before.recipients, stg.recipients[..i], now))
    {
      assert stg.recipients[..i + 1][..i] == stg.recipients[..i];
      assert stg.recipients[i] == Staged(names[i], amounts[i]);
      ledger.AdmitForRecipient(now, names[i], amounts[i]);
    }
    assert stg.recipients[..|stg.recipients|] == stg.recipients;
    ghost var last := ledger.View();
    for i := 0 to calls
      invariant ledger.View() == last.(calls := AdmitCalls(before.calls, now, i))
    {
      ledger.AdmitProtocolCall(now);
    }
  }

  method RepeatBlocked(e: Error, n: nat) returns (verdicts: seq<Decision>)
    ensures verdicts == Refuse(e, n)
  {
    verdicts := [];
    for i := 0 to n
      invariant verdicts == Refuse(e, i)
    {
      verdicts := verdicts + [Blocked(e)];
    }
  }

  /** The lookup loops: the first positive override of a recipient, and the first
      cap entry of an asset, which decides alone. */
  method ScanOverride(cfg: PolicyConfig, r: Address) returns (cap: Option<i128>)
    ensures cap == OverrideCap(cfg, r)
  {
    var caps := cfg.recipientWindowCaps;
    for i := 0 to |caps|
      invariant FirstOverride(caps, r) == FirstOverride(caps[i..], r)
    {
      if caps[i].recipient == r && caps[i].cap > 0 { return Some(caps[i].cap); }
      assert caps[i..][1..] == caps[i + 1..];
    }
    cap := None;
  }

  method ScanPerTxCap(cfg: PolicyConfig, asset: Address) returns (cap: Option<i128>)
    ensures cap == EffectivePerTxCap(cfg, asset)
  {
    var caps := cfg.assetCaps;
    for i := 0 to |caps|
      invariant FindAssetCap(caps, asset) == FindAssetCap(caps[i..], asset)
    {
      if caps[i].asset == asset {
        return if caps[i].perTxCap > 0 then Some(caps[i].perTxCap) else None;
      }
      assert caps[i..][1..] == caps[i + 1..];
    }
    cap := if cfg.perTxCap > 0 then Some(cfg.perTxCap) else None;
  }

  /** The transfer arm: gates, two projections, then staging. */
  method RunTransfer(cfg: PolicyConfig, ledger: Ledger, now: u64, asset: Address, to: Address, amount: i128,
                     pending0: int, admission0: seq<Entry>, names0: seq<Address>, amounts0: seq<int>,
                     ghost stg: Staging)
    returns (verdict: Decision, pending: int, admission: seq<Entry>, names: seq<Address>, amounts: seq<int>)
    requires stg.pending == pending0 && stg.admission == admission0 && Zipped(names0, amounts0, stg.recipients)
    ensures var s := EvalTransfer(cfg, ledger.View(), stg, now, asset, to, amount);
      && verdict == s.verdict
      && pending == s.staging.pending && admission == s.staging.admission
      && Zipped(names, amounts, s.staging.recipients)
      && s.staging.calls == stg.calls
  {
    pending, admission, names, amounts := pending0, admission0, names0, amounts0;
    if AssetPaused(cfg, asset) { return Blocked(AssetNotAllowed), pending, admission, names, amounts; }
    if amount <= 0 { return Blocked(InvalidAmount), pending, admission, names, amounts; }
    if to in cfg.blockedRecipients { return Blocked(RecipientBlocked), pending, admission, names, amounts; }
    if !cfg.allowAnyRecipient && to !in cfg.recipients {
      return Blocked(RecipientNotAllowed), pending, admission, names, amounts;
    }
    var perTx := ScanPerTxCap(cfg, asset);
    if perTx.Some? && amount > perTx.value {
      return Blocked(PerTxCapExceeded), pending, admission, names, amounts;
    }

    var cap := ScanOverride(cfg, to);
    var stagedRecip: int := 0;
    var stagedIdx: Option<nat> := None;
    if cap.Some? {
      var i := 0;
      while i < |names| && stagedIdx.None?
        invariant 0 <= i <= |names|
        invariant stagedIdx.None? ==> stagedRecip == 0 && forall j :: 0 <= j < i ==> names[j] != to
        invariant stagedIdx.Some? ==>
          && stagedIdx.value < |names| && names[stagedIdx.value] == to
          && stagedRecip == amounts[stagedIdx.value]
          && forall j :: 0 <= j < stagedIdx.value ==> names[j] != to
        decreases |names| - i, stagedIdx.None?
      {
        if names[i] == to {
          stagedIdx, stagedRecip := Some(i), amounts[i];
        } else {
          i := i + 1;
        }
      }
      FindStagedIs(stg.recipients, to, if stagedIdx.Some? then stagedIdx.value else |names|);
    }
    var globalProjected := Projection(ledger.total, pending, amount);
    var recipTotal := ledger.RecipientTotal(to);
    var recipProjected := Projection(recipTotal, stagedRecip, amount);
    var globalOver := cfg.windowCap > 0 && (globalProjected.None? || globalProjected.value > cfg.windowCap);
    var recipOver := cap.Some? && (recipProjected.None? || recipProjected.value > cap.value);
    if globalOver || recipOver {
      return Blocked(WindowCapExceeded), pending, admission, names, amounts;
    }
    if cfg.windowCap > 0 {
      pending := SatAdd(pending, amount, I128_MAX);
      admission := admission + [Entry(now, amount)];
    }
    if cap.Some? {
      var next := SatAdd(stagedRecip, amount, I128_MAX);
      if stagedIdx.Some? {
        amounts := amounts[stagedIdx.value := next];
      } else {
        names, amounts := names + [to], amounts + [next];
      }
    }
    verdict := Allowed;
  }

  /** The protocol arm: the first rule for the contract, then the rate limit. */
  method RunProtocol(cfg: PolicyConfig, ledger: Ledger, contract: Address, fname: Symbol,
                     calls0: nat, ghost stg: Staging)
    returns (verdict: Decision, calls: nat)
    requires stg.calls == calls0
    ensures var s := EvalProtocol(cfg, ledger.View(), stg, contract, fname);
      && verdict == s.verdict && s.staging == stg.(calls := calls)
  {
    calls := calls0;
    var found, paused, fnOk := false, false, true;
    var i := 0;
    while i < |cfg.protocols| && !found
      invariant 0 <= i <= |cfg.protocols|
      invariant !found ==> FindRule(cfg.protocols, contract) == FindRule(cfg.protocols[i..], contract)
      invariant !found ==> !paused && fnOk
      invariant found ==>
        && FindRule(cfg.protocols, contract).Some?
        && var rule := FindRule(cfg.protocols, contract).value;
           paused == rule.paused && fnOk == (rule.fns.None? || fname in rule.fns.value)
      decreases |cfg.protocols| - i, !found
    {
      var rule := cfg.protocols[i];
      if rule.contract == contract {
        found, paused := true, rule.paused;
        fnOk := rule.fns.None? || fname in rule.fns.value;
      } else {
        assert cfg.protocols[i..][1..] == cfg.protocols[i + 1..];
        i := i + 1;
      }
    }
    if !found || paused {
      verdict := Blocked(ProtocolNotAllowed);
    } else if !fnOk {
      verdict := Blocked(FunctionNotAllowed);
    } else if cfg.protocolCallsPerWindow > 0 {
      var projected := SatAdd(SatAdd(ledger.callTotal, calls, U32_MAX), 1, U32_MAX);
      if projected > cfg.protocolCallsPerWindow {
        verdict := Blocked(ProtocolCallRateExceeded);
      } else {
        calls := SatAdd(calls, 1, U32_MAX);
        verdict := Allowed;
      }
    } else {
      verdict := Allowed;
    }
  }
}
