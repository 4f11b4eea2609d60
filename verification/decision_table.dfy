/** The decision table as a statement about the policy alone: what a call must
    be like to be let through, with the configured lists read as sets and maps. */
module DecisionTable {
  import opened Types
  import opened LedgerSpec
  import opened EngineSpec
  import opened ValidationSpec
  import opened ListOrder
  import opened ContractSpec

  /** A SAC `transfer` or `transfer_from` of exact arity. */
  predicate IsTransfer(c: Context, to: Address, amount: i128) {
    && c.Contract?
    && ((c.fnName == "transfer" && |c.args| == 3 && c.args[1] == AddressVal(to) && c.args[2] == I128Val(amount))
        || (c.fnName == "transfer_from" && |c.args| == 4 && c.args[2] == AddressVal(to) && c.args[3] == I128Val(amount)))
  }

  /** The per-transaction cap of an asset: its own entry decides alone, zero
      meaning no cap; otherwise the global cap does. */
  predicate WithinPerTx(cfg: PolicyConfig, asset: Address, amount: i128) {
    && (forall ac :: ac in cfg.assetCaps && ac.asset == asset ==> !ac.paused && (ac.perTxCap > 0 ==> amount <= ac.perTxCap))
    && ((forall ac :: ac in cfg.assetCaps ==> ac.asset != asset) && cfg.perTxCap > 0 ==> amount <= cfg.perTxCap)
  }

  predicate TransferConforms(cfg: PolicyConfig, asset: Address, to: Address, amount: i128) {
    && amount > 0
    && to !in cfg.blockedRecipients
    && (cfg.allowAnyRecipient || to in cfg.recipients)
    && WithinPerTx(cfg, asset, amount)
  }

  predicate CallConforms(cfg: PolicyConfig, contract: Address, fname: Symbol) {
    exists rule :: rule in cfg.protocols && rule.contract == contract && !rule.paused
      && (rule.fns.None? || fname in rule.fns.value)
  }

  /** What the policy allows, rolling limits apart. */
  ghost predicate Conforms(self: Address, cfg: PolicyConfig, c: Context) {
    && c.Contract?
    && if c.contract == self then c.fnName == "heartbeat"
       else if c.contract in cfg.assets
       then exists to, amount :: IsTransfer(c, to, amount) && TransferConforms(cfg, c.contract, to, amount)
       else CallConforms(cfg, c.contract, c.fnName)
  }

  /** What the rolling limits still allow, given the ledger and what is staged. */
  predicate FitsLimits(self: Address, cfg: PolicyConfig, l: LedgerState, stg: Staging, c: Context) {
    match ParseCall(self, c, cfg)
    case AssetTransfer(_, to, amount) => !GlobalOver(cfg, l, stg, amount) && !RecipientOver(cfg, l, stg, to, amount)
    case Protocol(_, _) =>
      cfg.protocolCallsPerWindow > 0 ==>
        SatAdd(SatAdd(l.calls.total, stg.calls, U32_MAX), 1, U32_MAX) <= cfg.protocolCallsPerWindow
    case _ => true
  }

  lemma PerTxMeans(self: Address, cfg: PolicyConfig, asset: Address, amount: i128)
    requires ValidPolicy(self, cfg)
    ensures WithinPerTx(cfg, asset, amount) <==>
      !AssetPaused(cfg, asset) &&
      (EffectivePerTxCap(cfg, asset).Some? ==> amount <= EffectivePerTxCap(cfg, asset).value)
  {
    ValidIsSound(self, cfg);
    UniqueAssetCap(cfg.assetCaps);
    AssetCapIsListed(cfg.assetCaps, asset);
    hide ValidPolicy, FindAssetCap;
  }

  lemma TransferMeans(self: Address, cfg: PolicyConfig, asset: Address, to: Address, amount: i128)
    requires ValidPolicy(self, cfg)
    ensures TransferGate(cfg, asset, to, amount).None? <==> TransferConforms(cfg, asset, to, amount)
  {
    hide ValidPolicy;
    PerTxMeans(self, cfg, asset, amount);
    hide EffectivePerTxCap, AssetPaused, WithinPerTx;
  }

  lemma CallMeans(self: Address, cfg: PolicyConfig, contract: Address, fname: Symbol)
    requires ValidPolicy(self, cfg)
    ensures ProtocolGate(cfg, contract, fname).None? <==> CallConforms(cfg, contract, fname)
  {
    ValidIsSound(self, cfg);
    UniqueRule(cfg.protocols);
    RuleIsListed(cfg.protocols, contract);
    hide ValidPolicy, FindRule;
  }

  lemma CallConformsIsListed(cfg: PolicyConfig, contract: Address, fname: Symbol)
    requires CallConforms(cfg, contract, fname)
    ensures FindRule(cfg.protocols, contract).Some?
  {
    RuleIsListed(cfg.protocols, contract);
  }

  /** Parsing finds exactly the transfers of exact arity. */
  lemma ParsedTransfer(self: Address, cfg: PolicyConfig, c: Context, to: Address, amount: i128)
    requires c.Contract? && c.contract != self && c.contract in cfg.assets
    ensures ParseCall(self, c, cfg) == AssetTransfer(c.contract, to, amount) <==> IsTransfer(c, to, amount)
  {
    hide FindRule;
  }

  /** A context is allowed exactly when the policy allows it and every rolling
      limit has room for it. */
  lemma AllowedExactly(self: Address, cfg: PolicyConfig, l: LedgerState, stg: Staging, now: u64, c: Context)
    requires ValidPolicy(self, cfg)
    ensures EvalContext(self, cfg, l, stg, now, c).verdict == Allowed <==>
      Conforms(self, cfg, c) && FitsLimits(self, cfg, l, stg, c)
  {
    hide ValidPolicy, FindRule, FindAssetCap, TransferGate, ProtocolGate, GlobalOver, RecipientOver, TransferConforms,
      CallConforms, Stage;
    if c.Contract? && c.contract != self {
      if c.contract in cfg.assets {
        AssetAllowedExactly(self, cfg, l, stg, now, c);
      } else if FindRule(cfg.protocols, c.contract).Some? {
        CallMeans(self, cfg, c.contract, c.fnName);
      } else if CallConforms(cfg, c.contract, c.fnName) {
        CallConformsIsListed(cfg, c.contract, c.fnName);
      }
    }
  }

  lemma AssetAllowedExactly(self: Address, cfg: PolicyConfig, l: LedgerState, stg: Staging, now: u64, c: Context)
    requires ValidPolicy(self, cfg) && c.Contract? && c.contract != self && c.contract in cfg.assets
    ensures EvalContext(self, cfg, l, stg, now, c).verdict == Allowed <==>
      Conforms(self, cfg, c) && FitsLimits(self, cfg, l, stg, c)
  {
    hide ValidPolicy, TransferGate, GlobalOver, RecipientOver, TransferConforms, IsTransfer, Stage;
    var call := ParseCall(self, c, cfg);
    assert call.AssetTransfer? || call.AssetOther? || call.Unknown?;
    hide ParseCall;
    forall to, amount ensures call == AssetTransfer(c.contract, to, amount) <==> IsTransfer(c, to, amount) {
      ParsedTransfer(self, cfg, c, to, amount);
    }
    if call.AssetTransfer? {
      AssetIsContract(self, cfg, c);
      TransferMeans(self, cfg, c.contract, call.to, call.amount);
    }
  }

  lemma AssetIsContract(self: Address, cfg: PolicyConfig, c: Context)
    ensures ParseCall(self, c, cfg).AssetTransfer? ==> c.Contract? && ParseCall(self, c, cfg).asset == c.contract
  {
  }

  // ---- What an authorization has passed ----

  lemma {:induction false} AllConform(self: Address, cfg: PolicyConfig, l: LedgerState, now: u64, ctxs: seq<Context>)
    requires ValidPolicy(self, cfg) && AllAllowed(Evaluate(self, cfg, l, now, ctxs).verdicts)
    ensures forall i :: 0 <= i < |ctxs| ==> Conforms(self, cfg, ctxs[i])
  {
    hide ValidPolicy, Conforms, EvalContext, FitsLimits;
    if ctxs != [] {
      var n := |ctxs| - 1;
      var e := Evaluate(self, cfg, l, now, ctxs[..n]);
      var v := EvalContext(self, cfg, l, e.staging, now, ctxs[n]).verdict;
      var vs := e.verdicts + [v];
      assert vs[n] == v && forall i :: 0 <= i < n ==> vs[i] == e.verdicts[i];
      AllConform(self, cfg, l, now, ctxs[..n]);
      AllowedExactly(self, cfg, l, e.staging, now, ctxs[n]);
      assert forall i :: 0 <= i < n ==> ctxs[..n][i] == ctxs[i];
    }
  }

  /** An authorization that returns `Ok` for a non-empty request found a policy,
      no freeze, a heartbeat within the grace, no pause and an open active
      window, and every one of its calls is one the policy allows. */
  lemma OkMeans(self: Address, s: State, now: u64, ctxs: seq<Context>, signed: bool)
    requires Inv(self, s, now) && ctxs != [] && Authorize(self, s, now, ctxs, signed).outcome == Done
    ensures s.agentKey.Some? && signed && s.policy.Some? && |ctxs| <= 64
    ensures !Or(s.adminFrozen, false) && !s.policy.value.paused
    ensures s.policy.value.dmsGraceSecs == 0 || Heartbeat(s) == 0 || now - Heartbeat(s) <= s.policy.value.dmsGraceSecs
    ensures s.policy.value.activeFrom <= now && (s.policy.value.activeUntil == 0 || now <= s.policy.value.activeUntil)
    ensures forall i :: 0 <= i < |ctxs| ==> Conforms(self, s.policy.value, ctxs[i])
  {
    hide ValidPolicy, Conforms, Evaluate, LoadWindow, StoredCoherent;
    var vs := AuthRuling(self, s, now, ctxs).verdicts;
    assert vs != [] && vs[0] == Allowed;
    assert AccountGate(s.policy, Account(s), now).None?;
    AllConform(self, s.policy.value, Current(s.policy.value, LoadWindow(s), now), now, ctxs);
  }
}
