/** Which error: every refusal of the decision table, of the account gates and of
    a whole authorization, by the first rule broken, with the rules read off the
    policy as sets, maps and inequalities. */
module ErrorTable {
  import opened Types
  import opened WindowSpec
  import opened LedgerSpec
  import opened EngineSpec
  import opened ValidationSpec
  import opened StagingFacts
  import opened ListOrder
  import opened DecisionTable
  import opened ContractSpec
  import opened Authorized

  // ---- The account gates ----

  /** The bounds of the active window, zero meaning none. */
  predicate WithinActive(cfg: PolicyConfig, now: u64) {
    cfg.activeFrom <= now && (cfg.activeUntil == 0 || now <= cfg.activeUntil)
  }

  /** The account gate, error by error: each is the first of the five that holds. */
  lemma GateMeans(policy: Option<PolicyConfig>, st: AccountState, now: u64)
    ensures var gate := AccountGate(policy, st, now);
      var silent := policy.Some? && policy.value.dmsGraceSecs > 0 && st.lastHeartbeat > 0
                    && now - st.lastHeartbeat > policy.value.dmsGraceSecs;
      && (gate == Some(AdminFrozen) <==> st.adminFrozen)
      && (gate == Some(NoPolicy) <==> !st.adminFrozen && policy.None?)
      && (gate == Some(HeartbeatExpired) <==> !st.adminFrozen && silent)
      && (gate == Some(Paused) <==> !st.adminFrozen && policy.Some? && !silent && policy.value.paused)
      && (gate == Some(OutsideActiveWindow) <==>
          !st.adminFrozen && policy.Some? && !silent && !policy.value.paused && !WithinActive(policy.value, now))
      && (gate.None? <==>
          !st.adminFrozen && policy.Some? && !silent && !policy.value.paused && WithinActive(policy.value, now))
  {
  }

  // ---- The rules on one context ----

  predicate OnAsset(self: Address, cfg: PolicyConfig, c: Context) {
    c.Contract? && c.contract != self && c.contract in cfg.assets
  }

  predicate OnProtocol(self: Address, cfg: PolicyConfig, c: Context) {
    && c.Contract? && c.contract != self && c.contract !in cfg.assets
    && exists rule :: rule in cfg.protocols && rule.contract == c.contract
  }

  predicate Sends(self: Address, cfg: PolicyConfig, c: Context, to: Address, amount: i128) {
    OnAsset(self, cfg, c) && IsTransfer(c, to, amount)
  }

  /** Over the whole-number sums: an overflow is above every cap. */
  predicate OverWindow(cfg: PolicyConfig, l: LedgerState, stg: Staging, to: Address, amount: i128) {
    || (cfg.windowCap > 0 && l.spend.total + stg.pending + amount > cfg.windowCap)
    || exists rc :: rc in cfg.recipientWindowCaps && rc.recipient == to && rc.cap > 0
         && WindowOf(l.recipients, to).total + StagedFor(stg.recipients, to) + amount > rc.cap
  }

  predicate OverPerTx(cfg: PolicyConfig, asset: Address, amount: i128) {
    || (exists ac :: ac in cfg.assetCaps && ac.asset == asset && ac.perTxCap > 0 && amount > ac.perTxCap)
    || ((forall ac :: ac in cfg.assetCaps ==> ac.asset != asset) && cfg.perTxCap > 0 && amount > cfg.perTxCap)
  }

  /** What each error code of the table says is wrong with a context, read off the
      policy as sets and maps, whatever else may be wrong with it. */
  ghost predicate Breaks(self: Address, cfg: PolicyConfig, l: LedgerState, stg: Staging, c: Context, e: Error) {
    match e
    case CreateContractNotAllowed => !c.Contract?
    case SelfFunctionNotAllowed => c.Contract? && c.contract == self && c.fnName != "heartbeat"
    case UnknownContract =>
      && c.Contract? && c.contract != self && !OnProtocol(self, cfg, c)
      && (OnAsset(self, cfg, c) ==>
          (c.fnName == "transfer" || c.fnName == "transfer_from") && forall to, amount :: !IsTransfer(c, to, amount))
    case AssetNotAllowed =>
      OnAsset(self, cfg, c) && exists ac :: ac in cfg.assetCaps && ac.asset == c.contract && ac.paused
    case AssetFnNotAllowed => OnAsset(self, cfg, c) && c.fnName != "transfer" && c.fnName != "transfer_from"
    case InvalidAmount => exists to, amount :: Sends(self, cfg, c, to, amount) && amount <= 0
    case RecipientBlocked => exists to, amount :: Sends(self, cfg, c, to, amount) && to in cfg.blockedRecipients
    case RecipientNotAllowed =>
      exists to, amount :: Sends(self, cfg, c, to, amount) && !cfg.allowAnyRecipient && to !in cfg.recipients
    case PerTxCapExceeded => exists to, amount :: Sends(self, cfg, c, to, amount) && OverPerTx(cfg, c.contract, amount)
    case WindowCapExceeded => exists to, amount :: Sends(self, cfg, c, to, amount) && OverWindow(cfg, l, stg, to, amount)
    case ProtocolNotAllowed =>
      OnProtocol(self, cfg, c) && exists rule :: rule in cfg.protocols && rule.contract == c.contract && rule.paused
    case FunctionNotAllowed =>
      && OnProtocol(self, cfg, c)
      && exists rule :: rule in cfg.protocols && rule.contract == c.contract && rule.fns.Some? && c.fnName !in rule.fns.value
    case ProtocolCallRateExceeded =>
      && OnProtocol(self, cfg, c) && 0 < cfg.protocolCallsPerWindow < 0xFFFF_FFFF
      && l.calls.total + stg.calls >= cfg.protocolCallsPerWindow
    case _ => false
  }

  /** The order in which the rules are tried. */
  function Rank(e: Error): nat {
    match e
    case CreateContractNotAllowed => 1
    case SelfFunctionNotAllowed => 2
    case UnknownContract => 3
    case AssetNotAllowed => 4
    case AssetFnNotAllowed => 5
    case InvalidAmount => 6
    case RecipientBlocked => 7
    case RecipientNotAllowed => 8
    case PerTxCapExceeded => 9
    case WindowCapExceeded => 10
    case ProtocolNotAllowed => 11
    case FunctionNotAllowed => 12
    case ProtocolCallRateExceeded => 13
    case _ => 0
  }

  /** `e` is the first rule the context breaks. */
  ghost predicate FirstBroken(self: Address, cfg: PolicyConfig, l: LedgerState, stg: Staging, c: Context, e: Error) {
    && Breaks(self, cfg, l, stg, c, e)
    && forall x :: Rank(x) < Rank(e) ==> !Breaks(self, cfg, l, stg, c, x)
  }

  // ---- The verdict is the first rule broken ----

  lemma SendsOnce(self: Address, cfg: PolicyConfig, c: Context, to: Address, amount: i128)
    requires Sends(self, cfg, c, to, amount)
    ensures forall t, a :: Sends(self, cfg, c, t, a) <==> t == to && a == amount
  {
  }

  /** What a transfer can break. */
  lemma TransferBreaks(self: Address, cfg: PolicyConfig, l: LedgerState, stg: Staging, c: Context, to: Address, amount: i128)
    requires Sends(self, cfg, c, to, amount)
    ensures Breaks(self, cfg, l, stg, c, InvalidAmount) <==> amount <= 0
    ensures Breaks(self, cfg, l, stg, c, RecipientBlocked) <==> to in cfg.blockedRecipients
    ensures Breaks(self, cfg, l, stg, c, RecipientNotAllowed) <==> !cfg.allowAnyRecipient && to !in cfg.recipients
    ensures Breaks(self, cfg, l, stg, c, PerTxCapExceeded) <==> OverPerTx(cfg, c.contract, amount)
    ensures Breaks(self, cfg, l, stg, c, WindowCapExceeded) <==> OverWindow(cfg, l, stg, to, amount)
    ensures forall e :: Breaks(self, cfg, l, stg, c, e) ==>
      e in {AssetNotAllowed, InvalidAmount, RecipientBlocked, RecipientNotAllowed, PerTxCapExceeded, WindowCapExceeded}
  {
    SendsOnce(self, cfg, c, to, amount);
    hide OverPerTx, OverWindow;
  }

  lemma PausedMeans(self: Address, cfg: PolicyConfig, asset: Address)
    requires ValidPolicy(self, cfg)
    ensures AssetPaused(cfg, asset) <==> exists ac :: ac in cfg.assetCaps && ac.asset == asset && ac.paused
  {
    ValidIsSound(self, cfg);
    UniqueAssetCap(cfg.assetCaps);
    AssetCapIsListed(cfg.assetCaps, asset);
    hide ValidPolicy, FindAssetCap;
  }

  lemma PerTxOver(self: Address, cfg: PolicyConfig, asset: Address, amount: i128)
    requires ValidPolicy(self, cfg)
    ensures OverPerTx(cfg, asset, amount) <==>
      EffectivePerTxCap(cfg, asset).Some? && amount > EffectivePerTxCap(cfg, asset).value
  {
    ValidIsSound(self, cfg);
    UniqueAssetCap(cfg.assetCaps);
    AssetCapIsListed(cfg.assetCaps, asset);
    hide ValidPolicy, FindAssetCap;
  }

  lemma WindowOver(self: Address, cfg: PolicyConfig, l: LedgerState, stg: Staging, now: u64, to: Address, amount: i128)
    requires ValidPolicy(self, cfg) && Coherent(l, now) && Within(cfg, l, stg, now) && amount > 0
    ensures OverWindow(cfg, l, stg, to, amount) <==>
      GlobalOver(cfg, l, stg, amount) || RecipientOver(cfg, l, stg, to, amount)
  {
    ValidIsSound(self, cfg);
    UniqueCap(cfg.recipientWindowCaps);
    OverrideIsListed(cfg.recipientWindowCaps, to);
    SumNonNegative(l.spend.entries);
    SumNonNegative(stg.admission);
    WindowOfWellFormed(l.recipients, to, now);
    SumNonNegative(WindowOf(l.recipients, to).entries);
    StagedForBound(cfg, l, stg.recipients, to);
    hide ValidPolicy, FirstOverride, WindowOf, FindStaged, Sum, WellFormed;
  }

  /** `v` is a verdict by the first rule broken. */
  ghost predicate ByFirst(self: Address, cfg: PolicyConfig, l: LedgerState, stg: Staging, c: Context, v: Decision) {
    if v == Allowed then forall e :: !Breaks(self, cfg, l, stg, c, e) else FirstBroken(self, cfg, l, stg, c, v.error)
  }

  /** Trying the rules in a list one after the other finds the first broken if the
      list is in order and no other rule is broken. */
  ghost function TryAll(self: Address, cfg: PolicyConfig, l: LedgerState, stg: Staging, c: Context, es: seq<Error>): Decision {
    if es == [] then Allowed
    else if Breaks(self, cfg, l, stg, c, es[0]) then Blocked(es[0])
    else TryAll(self, cfg, l, stg, c, es[1..])
  }

  lemma {:induction false} TryAllIsFirst(self: Address, cfg: PolicyConfig, l: LedgerState, stg: Staging, c: Context,
                                         tried: seq<Error>, es: seq<Error>)
    requires forall e :: Breaks(self, cfg, l, stg, c, e) ==> e in tried + es
    requires forall e :: e in tried ==> !Breaks(self, cfg, l, stg, c, e)
    requires forall i, j :: 0 <= i < j < |es| ==> Rank(es[i]) < Rank(es[j])
    ensures ByFirst(self, cfg, l, stg, c, TryAll(self, cfg, l, stg, c, es))
    decreases es
  {
    hide Breaks, Rank;
    if es != [] && !Breaks(self, cfg, l, stg, c, es[0]) {
      assert tried + es == (tried + [es[0]]) + es[1..];
      TryAllIsFirst(self, cfg, l, stg, c, tried + [es[0]], es[1..]);
    } else if es != [] {
      assert forall k :: 0 <= k < |es| ==> Rank(es[0]) <= Rank(es[k]);
      assert forall x :: x in es ==> Rank(es[0]) <= Rank(x);
    }
  }

  const TRANSFER_RULES: seq<Error> :=
    [AssetNotAllowed, InvalidAmount, RecipientBlocked, RecipientNotAllowed, PerTxCapExceeded, WindowCapExceeded]

  const PROTOCOL_RULES: seq<Error> := [ProtocolNotAllowed, FunctionNotAllowed, ProtocolCallRateExceeded]

  lemma TryTransfer(self: Address, cfg: PolicyConfig, l: LedgerState, stg: Staging, c: Context)
    ensures TryAll(self, cfg, l, stg, c, TRANSFER_RULES) ==
      (if Breaks(self, cfg, l, stg, c, AssetNotAllowed) then Blocked(AssetNotAllowed)
       else if Breaks(self, cfg, l, stg, c, InvalidAmount) then Blocked(InvalidAmount)
       else if Breaks(self, cfg, l, stg, c, RecipientBlocked) then Blocked(RecipientBlocked)
       else if Breaks(self, cfg, l, stg, c, RecipientNotAllowed) then Blocked(RecipientNotAllowed)
       else if Breaks(self, cfg, l, stg, c, PerTxCapExceeded) then Blocked(PerTxCapExceeded)
       else if Breaks(self, cfg, l, stg, c, WindowCapExceeded) then Blocked(WindowCapExceeded)
       else Allowed)
  {
    hide Breaks, TryAll;
    var e: seq<Error> := [];
    assert TRANSFER_RULES == [AssetNotAllowed] + ([InvalidAmount] + ([RecipientBlocked] + ([RecipientNotAllowed]
      + ([PerTxCapExceeded] + ([WindowCapExceeded] + e)))));
    TryCons(self, cfg, l, stg, c, WindowCapExceeded, e);
    TryCons(self, cfg, l, stg, c, PerTxCapExceeded, [WindowCapExceeded] + e);
    TryCons(self, cfg, l, stg, c, RecipientNotAllowed, [PerTxCapExceeded] + ([WindowCapExceeded] + e));
    TryCons(self, cfg, l, stg, c, RecipientBlocked, [RecipientNotAllowed] + ([PerTxCapExceeded] + ([WindowCapExceeded] + e)));
    TryCons(self, cfg, l, stg, c, InvalidAmount,
            [RecipientBlocked] + ([RecipientNotAllowed] + ([PerTxCapExceeded] + ([WindowCapExceeded] + e))));
    TryCons(self, cfg, l, stg, c, AssetNotAllowed, [InvalidAmount] + ([RecipientBlocked] + ([RecipientNotAllowed]
      + ([PerTxCapExceeded] + ([WindowCapExceeded] + e)))));
    TryNone(self, cfg, l, stg, c);
  }

  lemma TryCons(self: Address, cfg: PolicyConfig, l: LedgerState, stg: Staging, c: Context, e: Error, rest: seq<Error>)
    ensures TryAll(self, cfg, l, stg, c, [e] + rest) ==
      if Breaks(self, cfg, l, stg, c, e) then Blocked(e) else TryAll(self, cfg, l, stg, c, rest)
  {
    hide Breaks;
    assert ([e] + rest)[1..] == rest;
  }

  lemma TryNone(self: Address, cfg: PolicyConfig, l: LedgerState, stg: Staging, c: Context)
    ensures TryAll(self, cfg, l, stg, c, []) == Allowed
  {
  }

  lemma TryProtocol(self: Address, cfg: PolicyConfig, l: LedgerState, stg: Staging, c: Context)
    ensures TryAll(self, cfg, l, stg, c, PROTOCOL_RULES) ==
      (if Breaks(self, cfg, l, stg, c, ProtocolNotAllowed) then Blocked(ProtocolNotAllowed)
       else if Breaks(self, cfg, l, stg, c, FunctionNotAllowed) then Blocked(FunctionNotAllowed)
       else if Breaks(self, cfg, l, stg, c, ProtocolCallRateExceeded) then Blocked(ProtocolCallRateExceeded)
       else Allowed)
  {
    hide Breaks, TryAll;
    var e: seq<Error> := [];
    assert PROTOCOL_RULES == [ProtocolNotAllowed] + ([FunctionNotAllowed] + ([ProtocolCallRateExceeded] + e));
    TryCons(self, cfg, l, stg, c, ProtocolCallRateExceeded, e);
    TryCons(self, cfg, l, stg, c, FunctionNotAllowed, [ProtocolCallRateExceeded] + e);
    TryCons(self, cfg, l, stg, c, ProtocolNotAllowed, [FunctionNotAllowed] + ([ProtocolCallRateExceeded] + e));
    TryNone(self, cfg, l, stg, c);
  }

  lemma RulesInOrder()
    ensures forall i, j :: 0 <= i < j < |TRANSFER_RULES| ==> Rank(TRANSFER_RULES[i]) < Rank(TRANSFER_RULES[j])
    ensures forall i, j :: 0 <= i < j < |PROTOCOL_RULES| ==> Rank(PROTOCOL_RULES[i]) < Rank(PROTOCOL_RULES[j])
  {
  }

  lemma TransferTried(self: Address, cfg: PolicyConfig, l: LedgerState, stg: Staging, now: u64, c: Context,
                      to: Address, amount: i128)
    requires ValidPolicy(self, cfg) && Coherent(l, now) && Within(cfg, l, stg, now) && Sends(self, cfg, c, to, amount)
    ensures EvalContext(self, cfg, l, stg, now, c).verdict == TryAll(self, cfg, l, stg, c, TRANSFER_RULES)
  {
    ParsedTransfer(self, cfg, c, to, amount);
    TransferBreaks(self, cfg, l, stg, c, to, amount);
    PausedMeans(self, cfg, c.contract);
    assert Breaks(self, cfg, l, stg, c, AssetNotAllowed) <==> AssetPaused(cfg, c.contract);
    hide ValidPolicy, Coherent, Within, Breaks, Sends, ParseCall, AssetPaused, OverPerTx, OverWindow, GlobalOver, RecipientOver,
      EffectivePerTxCap, Stage, OverrideCap, TryAll;
    TryTransfer(self, cfg, l, stg, c);
    PerTxOver(self, cfg, c.contract, amount);
    if amount > 0 {
      WindowOver(self, cfg, l, stg, now, to, amount);
    }
  }

  lemma TransferVerdict(self: Address, cfg: PolicyConfig, l: LedgerState, stg: Staging, now: u64, c: Context,
                        to: Address, amount: i128)
    requires ValidPolicy(self, cfg) && Coherent(l, now) && Within(cfg, l, stg, now) && Sends(self, cfg, c, to, amount)
    ensures ByFirst(self, cfg, l, stg, c, EvalContext(self, cfg, l, stg, now, c).verdict)
  {
    hide ValidPolicy, Coherent, Within, Breaks, Sends, EvalContext, ByFirst, TryAll, Rank, OverPerTx, OverWindow;
    TransferTried(self, cfg, l, stg, now, c, to, amount);
    TransferBreaks(self, cfg, l, stg, c, to, amount);
    RulesInOrder();
    TryAllIsFirst(self, cfg, l, stg, c, [], TRANSFER_RULES);
  }

  lemma OtherAssetCall(self: Address, cfg: PolicyConfig, c: Context)
    requires OnAsset(self, cfg, c) && forall to, amount :: !IsTransfer(c, to, amount)
    ensures ParseCall(self, c, cfg) == if c.fnName == "transfer" || c.fnName == "transfer_from"
      then Unknown(c.contract, c.fnName) else AssetOther(c.contract, c.fnName)
  {
    var call := ParseCall(self, c, cfg);
    if call.AssetTransfer? {
      AssetIsContract(self, cfg, c);
      ParsedTransfer(self, cfg, c, call.to, call.amount);
    }
    hide FindRule, IsTransfer;
  }

  lemma OtherAssetBreaks(self: Address, cfg: PolicyConfig, l: LedgerState, stg: Staging, c: Context)
    requires OnAsset(self, cfg, c) && forall to, amount :: !IsTransfer(c, to, amount)
    ensures Breaks(self, cfg, l, stg, c, UnknownContract) <==> c.fnName == "transfer" || c.fnName == "transfer_from"
    ensures Breaks(self, cfg, l, stg, c, AssetFnNotAllowed) <==> c.fnName != "transfer" && c.fnName != "transfer_from"
    ensures forall e :: Breaks(self, cfg, l, stg, c, e) ==> e in {UnknownContract, AssetNotAllowed, AssetFnNotAllowed}
  {
    hide IsTransfer;
  }

  lemma OtherAssetVerdict(self: Address, cfg: PolicyConfig, l: LedgerState, stg: Staging, now: u64, c: Context)
    requires ValidPolicy(self, cfg) && OnAsset(self, cfg, c) && forall to, amount :: !IsTransfer(c, to, amount)
    ensures ByFirst(self, cfg, l, stg, c, EvalContext(self, cfg, l, stg, now, c).verdict)
  {
    PausedMeans(self, cfg, c.contract);
    assert Breaks(self, cfg, l, stg, c, AssetNotAllowed) <==> AssetPaused(cfg, c.contract);
    OtherAssetCall(self, cfg, c);
    OtherAssetBreaks(self, cfg, l, stg, c);
    hide ValidPolicy, AssetPaused, IsTransfer, ParseCall, Breaks, OnAsset;
  }

  /** The one rule of the contract decides. */
  lemma ProtocolFacts(self: Address, cfg: PolicyConfig, l: LedgerState, stg: Staging, c: Context)
    requires ValidPolicy(self, cfg) && OnProtocol(self, cfg, c)
    ensures FindRule(cfg.protocols, c.contract).Some?
    ensures var rule := FindRule(cfg.protocols, c.contract).value;
      && (Breaks(self, cfg, l, stg, c, ProtocolNotAllowed) <==> rule.paused)
      && (Breaks(self, cfg, l, stg, c, FunctionNotAllowed) <==> rule.fns.Some? && c.fnName !in rule.fns.value)
    ensures Breaks(self, cfg, l, stg, c, ProtocolCallRateExceeded) <==>
      0 < cfg.protocolCallsPerWindow < U32_MAX && l.calls.total + stg.calls >= cfg.protocolCallsPerWindow
  {
    ValidIsSound(self, cfg);
    UniqueRule(cfg.protocols);
    RuleIsListed(cfg.protocols, c.contract);
    hide ValidPolicy, FindRule;
  }

  lemma ProtocolTried(self: Address, cfg: PolicyConfig, l: LedgerState, stg: Staging, now: u64, c: Context)
    requires ValidPolicy(self, cfg) && Coherent(l, now) && OnProtocol(self, cfg, c)
    ensures EvalContext(self, cfg, l, stg, now, c).verdict == TryAll(self, cfg, l, stg, c, PROTOCOL_RULES)
  {
    ProtocolFacts(self, cfg, l, stg, c);
    SumNonNegative(l.calls.entries);
    hide ValidPolicy, FindRule, Sum, TryAll, Breaks;
    TryProtocol(self, cfg, l, stg, c);
  }

  lemma ProtocolBreaks(self: Address, cfg: PolicyConfig, l: LedgerState, stg: Staging, c: Context, e: Error)
    requires OnProtocol(self, cfg, c) && Breaks(self, cfg, l, stg, c, e)
    ensures e in PROTOCOL_RULES
  {
  }

  lemma ProtocolVerdict(self: Address, cfg: PolicyConfig, l: LedgerState, stg: Staging, now: u64, c: Context)
    requires ValidPolicy(self, cfg) && Coherent(l, now) && OnProtocol(self, cfg, c)
    ensures ByFirst(self, cfg, l, stg, c, EvalContext(self, cfg, l, stg, now, c).verdict)
  {
    hide ValidPolicy, Coherent, Breaks, OnProtocol, EvalContext, ByFirst, TryAll, Rank;
    ProtocolTried(self, cfg, l, stg, now, c);
    forall e | Breaks(self, cfg, l, stg, c, e) ensures e in PROTOCOL_RULES {
      ProtocolBreaks(self, cfg, l, stg, c, e);
    }
    RulesInOrder();
    TryAllIsFirst(self, cfg, l, stg, c, [], PROTOCOL_RULES);
  }

  lemma VerdictIsFirst(self: Address, cfg: PolicyConfig, l: LedgerState, stg: Staging, now: u64, c: Context)
    requires ValidPolicy(self, cfg) && Coherent(l, now) && Within(cfg, l, stg, now)
    ensures ByFirst(self, cfg, l, stg, c, EvalContext(self, cfg, l, stg, now, c).verdict)
  {
    hide ValidPolicy, Coherent, Within, IsTransfer, FindRule;
    if OnAsset(self, cfg, c) {
      if to: Address, amount: i128 :| IsTransfer(c, to, amount) {
        TransferVerdict(self, cfg, l, stg, now, c, to, amount);
      } else {
        OtherAssetVerdict(self, cfg, l, stg, now, c);
      }
    } else if OnProtocol(self, cfg, c) {
      ProtocolVerdict(self, cfg, l, stg, now, c);
    } else if c.Contract? && c.contract != self {
      RuleIsListed(cfg.protocols, c.contract);
    }
  }

  /** Every verdict names the first rule the context breaks, and a context that
      breaks none is allowed. */
  lemma BlockedByFirst(self: Address, cfg: PolicyConfig, l: LedgerState, stg: Staging, now: u64, c: Context, e: Error)
    requires ValidPolicy(self, cfg) && Coherent(l, now) && Within(cfg, l, stg, now)
    ensures EvalContext(self, cfg, l, stg, now, c).verdict == Blocked(e) <==> FirstBroken(self, cfg, l, stg, c, e)
    ensures EvalContext(self, cfg, l, stg, now, c).verdict == Allowed <==> forall x :: !Breaks(self, cfg, l, stg, c, x)
  {
    hide EvalContext, ValidPolicy, Coherent, Within, Breaks, Rank;
    VerdictIsFirst(self, cfg, l, stg, now, c);
    var v := EvalContext(self, cfg, l, stg, now, c).verdict;
    if v.Blocked? && FirstBroken(self, cfg, l, stg, c, e) {
      BreaksRanked(self, cfg, l, stg, c, e);
      RankInjective(v.error, e);
    }
  }

  lemma BreaksRanked(self: Address, cfg: PolicyConfig, l: LedgerState, stg: Staging, c: Context, e: Error)
    requires Breaks(self, cfg, l, stg, c, e)
    ensures Rank(e) > 0
  {
  }

  lemma RankInjective(a: Error, b: Error)
    requires Rank(a) == Rank(b) > 0
    ensures a == b
  {
  }

  // ---- A whole authorization ----

  /** The verdict on the `i`-th context of a request that gets past the gates. */
  function VerdictAt(self: Address, s: State, now: u64, ctxs: seq<Context>, i: nat): Decision
    requires s.policy.Some? && i < |ctxs|
  {
    var cfg, l := s.policy.value, Opening(s, now);
    EvalContext(self, cfg, l, Evaluate(self, cfg, l, now, ctxs[..i]).staging, now, ctxs[i]).verdict
  }

  /** Each of these verdicts names the first rule its context breaks, counting what
      the contexts before it have staged. */
  lemma VerdictAtMeans(self: Address, s: State, now: u64, ctxs: seq<Context>, i: nat, e: Error)
    requires Inv(self, s, now) && s.policy.Some? && i < |ctxs|
    ensures var cfg, l := s.policy.value, Opening(s, now);
      var stg := Evaluate(self, cfg, l, now, ctxs[..i]).staging;
      && (VerdictAt(self, s, now, ctxs, i) == Blocked(e) <==> FirstBroken(self, cfg, l, stg, ctxs[i], e))
      && (VerdictAt(self, s, now, ctxs, i) == Allowed <==> forall x :: !Breaks(self, cfg, l, stg, ctxs[i], x))
  {
    hide EvalContext, Evaluate, Opening, Coherent, Within, FirstBroken, Breaks, StoredCoherent, ValidPolicy;
    OpeningCoherent(self, s, now);
    EvaluateWithin(self, s.policy.value, Opening(s, now), now, ctxs[..i]);
    BlockedByFirst(self, s.policy.value, Opening(s, now), Evaluate(self, s.policy.value, Opening(s, now), now, ctxs[..i]).staging,
                   now, ctxs[i], e);
  }

  /** `e` blocks a context of the request, and everything before it is allowed. */
  predicate RefusedFirst(self: Address, s: State, now: u64, ctxs: seq<Context>, e: Error)
    requires s.policy.Some?
  {
    exists i :: 0 <= i < |ctxs| && VerdictAt(self, s, now, ctxs, i) == Blocked(e) &&
      forall j :: 0 <= j < i ==> VerdictAt(self, s, now, ctxs, j) == Allowed
  }

  lemma {:induction false} VerdictIs(self: Address, cfg: PolicyConfig, l: LedgerState, now: u64, ctxs: seq<Context>, i: nat)
    requires i < |ctxs|
    ensures Evaluate(self, cfg, l, now, ctxs).verdicts[i] ==
      EvalContext(self, cfg, l, Evaluate(self, cfg, l, now, ctxs[..i]).staging, now, ctxs[i]).verdict
  {
    hide EvalContext;
    var n := |ctxs| - 1;
    if i < n {
      VerdictIs(self, cfg, l, now, ctxs[..n], i);
      assert ctxs[..n][..i] == ctxs[..i] && ctxs[..n][i] == ctxs[i];
    }
  }

  /** What an authorization answers: key, signature, policy and size in this order,
      then the account gate, then the error of the first context refused. A
      request for nothing that gets as far as the gate is accepted. */
  lemma AuthorizeMeans(self: Address, s: State, now: u64, ctxs: seq<Context>, signed: bool)
    ensures var o := Authorize(self, s, now, ctxs, signed).outcome;
      var gate := AccountGate(s.policy, Account(s), now);
      && (s.agentKey.None? ==> o == Failed(NotInitialized))
      && (s.agentKey.Some? && !signed ==> o == Trapped)
      && (s.agentKey.Some? && signed && s.policy.None? ==> o == Failed(NoPolicy))
      && (s.agentKey.Some? && signed && s.policy.Some? ==>
          && (|ctxs| > 64 ==> o == Failed(TooManyAuthContexts))
          && (ctxs == [] ==> o == Done)
          && (0 < |ctxs| <= 64 && gate.Some? ==> o == Failed(gate.value))
          && (0 < |ctxs| <= 64 && gate.None? ==>
              && (o == Done <==> forall i :: 0 <= i < |ctxs| ==> VerdictAt(self, s, now, ctxs, i) == Allowed)
              && forall e :: o == Failed(e) <==> RefusedFirst(self, s, now, ctxs, e)))
  {
    if s.agentKey.Some? && signed && s.policy.Some? {
      var vs := AuthRuling(self, s, now, ctxs).verdicts;
      var gate := AccountGate(s.policy, Account(s), now);
      hide AccountGate, Evaluate, EvalContext, LoadWindow;
      if |ctxs| > 64 {
        assert vs[0] == Blocked(TooManyAuthContexts);
      } else if gate.Some? {
        assert ctxs != [] ==> vs[0] == Blocked(gate.value);
      } else {
        OpenVerdicts(self, s, now, ctxs);
        forall e ensures FirstError(vs) == Some(e) <==> RefusedFirst(self, s, now, ctxs, e) {
          FirstErrorMeans(vs, e);
        }
        hide FirstError, VerdictAt;
      }
    }
  }

  lemma OpenVerdicts(self: Address, s: State, now: u64, ctxs: seq<Context>)
    requires s.policy.Some? && |ctxs| <= 64 && AccountGate(s.policy, Account(s), now).None?
    ensures var vs := AuthRuling(self, s, now, ctxs).verdicts;
      |vs| == |ctxs| && forall i :: 0 <= i < |vs| ==> vs[i] == VerdictAt(self, s, now, ctxs, i)
  {
    hide AccountGate, EvalContext, LoadWindow, PruneLedger;
    hide Evaluate;
    forall i | 0 <= i < |ctxs| ensures AuthRuling(self, s, now, ctxs).verdicts[i] == VerdictAt(self, s, now, ctxs, i) {
      VerdictIs(self, s.policy.value, Opening(s, now), now, ctxs, i);
    }
  }

  lemma FirstErrorMeans(vs: seq<Decision>, e: Error)
    ensures FirstError(vs) == Some(e) <==>
      exists i :: 0 <= i < |vs| && vs[i] == Blocked(e) && forall j :: 0 <= j < i ==> vs[j] == Allowed
  {
    var f := FirstError(vs);
    if f.Some? {
      var k :| 0 <= k < |vs| && vs[k] == Blocked(f.value) && AllAllowed(vs[..k]);
      assert forall j :: 0 <= j < k ==> vs[j] == vs[..k][j];
    }
    hide FirstError;
  }
}
