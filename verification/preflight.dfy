/** The advisory reads of src/lib.rs and their agreement with enforcement. */
module Preflight {
  import opened Types
  import opened WindowSpec
  import opened LedgerSpec
  import opened EngineSpec
  import opened ValidationSpec
  import opened StagingFacts
  import opened ContractSpec
  import ListOrder

  /** A SAC transfer call; pre-flight passes the asset as `from`. */
  function TransferContext(asset: Address, from: Val, to: Address, amount: i128): Context {
    Contract(asset, TRANSFER, [from, AddressVal(to), I128Val(amount)])
  }

  datatype CheckDetail = CheckDetail(
    verdict: Decision,
    remainingWindow: Option<int>,
    perTxCap: Option<i128>,
    effectivePerTxCap: Option<i128>,
    effectiveWindowCap: Option<i128>)

  /** The reads prune a local copy only when a spend limit is configured. */
  function AdvisoryLedger(cfg: PolicyConfig, l: LedgerState, now: u64): LedgerState {
    if cfg.windowCap > 0 || cfg.recipientWindowCaps != [] then PruneLedger(l, now, cfg.windowSecs) else l
  }

  function CheckedDetail(self: Address, s: State, now: u64, asset: Address, to: Address, amount: i128): CheckDetail {
    if s.policy.None? then CheckDetail(Blocked(NoPolicy), None, None, None, None)
    else
      var l := AdvisoryLedger(s.policy.value, LoadWindow(s), now);
      var m := ReadCapMetrics(s.policy.value, l, to);
      var vs := Decide(self, s.policy, Account(s), l, now, [TransferContext(asset, AddressVal(asset), to, amount)]).verdicts;
      CheckDetail(vs[0], m.remaining, m.perTxCap, EffectivePerTxCap(s.policy.value, asset), m.windowCap)
  }

  datatype BatchTransfer = BatchTransfer(to: Address, amount: i128)

  datatype BatchCheck = BatchCheck(verdicts: seq<Decision>, admissible: bool)

  function BatchContexts(asset: Address, ts: seq<BatchTransfer>): (ctxs: seq<Context>)
    ensures |ctxs| == |ts|
    ensures forall i :: 0 <= i < |ts| ==> ctxs[i] == TransferContext(asset, AddressVal(asset), ts[i].to, ts[i].amount)
  {
    seq(|ts|, i requires 0 <= i < |ts| => TransferContext(asset, AddressVal(asset), ts[i].to, ts[i].amount))
  }

  function CheckedBatch(self: Address, s: State, now: u64, asset: Address, ts: seq<BatchTransfer>): BatchCheck {
    if s.policy.None? then BatchCheck(Refuse(NoPolicy, |ts|), false)
    else
      var vs := AuthRuling(self, s, now, BatchContexts(asset, ts)).verdicts;
      BatchCheck(vs, AllAllowed(vs))
  }

  datatype Status = Status(
    hasPolicy: bool, policyRevision: u64, adminFrozen: bool, heartbeatExpired: bool, lastHeartbeat: u64,
    now: u64, paused: bool, windowRemaining: Option<int>, outsideActiveWindow: bool)

  function StatusOf(s: State, now: u64): Status {
    var none := s.policy.None?;
    Status(
      !none, Revision(s), Or(s.adminFrozen, false),
      !none && HeartbeatLapsed(s.policy.value, Heartbeat(s), now),
      Heartbeat(s), now,
      !none && s.policy.value.paused,
      if none then None
      else GlobalWindowRemaining(s.policy.value, AdvisoryLedger(s.policy.value, LoadWindow(s), now)),
      !none && OutsideActive(s.policy.value, now))
  }

  // ---- Agreement of check with enforcement ----

  function VerdictOf(o: Outcome): Option<Decision> {
    match o
    case Done => Some(Allowed)
    case Failed(e) => Some(Blocked(e))
    case Trapped => None
  }

  lemma FromIsIgnored(self: Address, cfg: PolicyConfig, l: LedgerState, stg: Staging, now: u64,
                      asset: Address, from: Val, from': Val, to: Address, amount: i128)
    ensures EvalContext(self, cfg, l, stg, now, TransferContext(asset, from, to, amount))
         == EvalContext(self, cfg, l, stg, now, TransferContext(asset, from', to, amount))
  {
    assert ParseCall(self, TransferContext(asset, from, to, amount), cfg)
        == ParseCall(self, TransferContext(asset, from', to, amount), cfg);
  }

  /** `check` gives the verdict a validly signed transfer of the same amount to
      the same recipient would get at this state and time, whoever it is from. */
  lemma CheckAgrees(self: Address, s: State, now: u64, asset: Address, from: Val, to: Address, amount: i128)
    requires Inv(self, s, now) && s.agentKey.Some?
    ensures VerdictOf(Authorize(self, s, now, [TransferContext(asset, from, to, amount)], true).outcome)
         == Some(CheckedDetail(self, s, now, asset, to, amount).verdict)
  {
    if s.policy.Some? {
      var cfg := s.policy.value;
      var l := LoadWindow(s);
      LoadCoherent(self, s, now);
      AdvisoryCoherent(cfg, l, now);
      var pruned := Current(cfg, l, now);
      var c, c' := TransferContext(asset, from, to, amount), TransferContext(asset, AddressVal(asset), to, amount);
      FromIsIgnored(self, cfg, pruned, NOTHING_STAGED, now, asset, from, AddressVal(asset), to, amount);
      OneVerdict(self, s.policy, Account(s), l, now, c);
      OneVerdict(self, s.policy, Account(s), AdvisoryLedger(cfg, l, now), now, c');
      hide Evaluate, Coherent, StoredCoherent, ValidPolicy, EvalContext;
    }
  }

  lemma OneVerdict(self: Address, policy: Option<PolicyConfig>, st: AccountState, l: LedgerState, now: u64, c: Context)
    ensures var gate := AccountGate(policy, st, now);
      Decide(self, policy, st, l, now, [c]).verdicts ==
      [if gate.Some? then Blocked(gate.value)
       else EvalContext(self, policy.value, Current(policy.value, l, now), NOTHING_STAGED, now, c).verdict]
  {
    var gate := AccountGate(policy, st, now);
    if gate.Some? {
      assert Refuse(gate.value, 1) == [Blocked(gate.value)];
    } else {
      EvaluateOne(self, policy.value, Current(policy.value, l, now), now, c);
    }
  }

  /** A batch is reported admissible exactly when `__check_auth` would accept
      it, whoever its transfers are from. */
  lemma BatchAgrees(self: Address, s: State, now: u64, asset: Address, froms: seq<Val>, ts: seq<BatchTransfer>)
    requires s.agentKey.Some? && |froms| == |ts|
    ensures var ctxs := seq(|ts|, i requires 0 <= i < |ts| => TransferContext(asset, froms[i], ts[i].to, ts[i].amount));
      CheckedBatch(self, s, now, asset, ts).admissible <==> Authorize(self, s, now, ctxs, true).outcome == Done
  {
    if s.policy.Some? {
      var ctxs := seq(|ts|, i requires 0 <= i < |ts| => TransferContext(asset, froms[i], ts[i].to, ts[i].amount));
      BatchFromIsIgnored(self, s.policy.value, Current(s.policy.value, LoadWindow(s), now), now, asset, froms, ts, ctxs);
      hide Evaluate;
    }
  }

  lemma {:induction false} BatchFromIsIgnored(self: Address, cfg: PolicyConfig, l: LedgerState, now: u64, asset: Address,
                                              froms: seq<Val>, ts: seq<BatchTransfer>, ctxs: seq<Context>)
    requires |froms| == |ts| == |ctxs|
    requires forall i :: 0 <= i < |ts| ==> ctxs[i] == TransferContext(asset, froms[i], ts[i].to, ts[i].amount)
    ensures Evaluate(self, cfg, l, now, ctxs) == Evaluate(self, cfg, l, now, BatchContexts(asset, ts))
  {
    if ts != [] {
      var n := |ts| - 1;
      BatchFromIsIgnored(self, cfg, l, now, asset, froms[..n], ts[..n], ctxs[..n]);
      assert BatchContexts(asset, ts)[..n] == BatchContexts(asset, ts[..n]);
      FromIsIgnored(self, cfg, l, Evaluate(self, cfg, l, now, ctxs[..n]).staging, now,
                    asset, froms[n], AddressVal(asset), ts[n].to, ts[n].amount);
      hide EvalContext;
    }
  }

  // ---- Headroom ----

  /** When nothing but the rolling windows can refuse a transfer, the reported
      headroom decides: alone for a recipient without an override, together
      with the global headroom for one with an override. This holds whatever
      was spent before, also under caps tightened below it. */
  lemma HeadroomIsExact(self: Address, s: State, now: u64, asset: Address, to: Address, amount: i128)
    requires Inv(self, s, now) && s.policy.Some?
    requires AccountGate(s.policy, Account(s), now).None?
    requires asset != self && asset in s.policy.value.assets
    requires TransferGate(s.policy.value, asset, to, amount).None?
    ensures var d := CheckedDetail(self, s, now, asset, to, amount);
      var global := StatusOf(s, now).windowRemaining;
      && (OverrideCap(s.policy.value, to).None? ==> d.remainingWindow == global)
      && (d.verdict == Allowed <==>
          && (d.remainingWindow.Some? ==> amount <= d.remainingWindow.value)
          && (global.Some? ==> amount <= global.value))
      && (d.verdict != Allowed ==> d.verdict == Blocked(WindowCapExceeded))
  {
    hide Decide, Coherent, StoredCoherent, GlobalOver, RecipientOver, ReadCapMetrics, GlobalWindowRemaining,
      AccountGate, Current, AdvisoryLedger, LoadWindow;
    var cfg := s.policy.value;
    var l := AdvisoryLedger(cfg, LoadWindow(s), now);
    LoadCoherent(self, s, now);
    AdvisoryCoherent(cfg, LoadWindow(s), now);
    var c := TransferContext(asset, AddressVal(asset), to, amount);
    OneVerdict(self, s.policy, Account(s), l, now, c);
    CoherentLater(l, now, U64_MAX);
    assert amount > 0 && ParseCall(self, c, cfg) == AssetTransfer(asset, to, amount);
    assert cfg.windowCap >= 0 by { ValidIsSound(self, cfg); }
    hide ValidPolicy, ParseCall, TransferGate;
    WindowRulesMeetHeadroom(cfg, l, Current(cfg, l, now), to, amount);
  }

  lemma AdvisoryCoherent(cfg: PolicyConfig, l: LedgerState, now: u64)
    requires Coherent(l, now)
    ensures Coherent(AdvisoryLedger(cfg, l, now), now)
    ensures Current(cfg, AdvisoryLedger(cfg, l, now), now) == Current(cfg, l, now)
    ensures cfg.windowCap > 0 || cfg.recipientWindowCaps != [] ==>
      Current(cfg, AdvisoryLedger(cfg, l, now), now) == AdvisoryLedger(cfg, l, now)
  {
    PruneCoherent(l, now, cfg.windowSecs, now);
    if AdvisoryLedger(cfg, l, now) != l {
      PruneLiveLedger(PruneLedger(l, now, cfg.windowSecs), now, cfg.windowSecs, now);
    }
  }

  lemma WindowRulesMeetHeadroom(cfg: PolicyConfig, l: LedgerState, pruned: LedgerState, to: Address, amount: i128)
    requires Coherent(l, U64_MAX) && amount > 0 && cfg.windowCap >= 0
    requires cfg.windowCap > 0 || cfg.recipientWindowCaps != [] ==> pruned == l
    ensures var m := ReadCapMetrics(cfg, l, to);
      var global := GlobalWindowRemaining(cfg, l);
      && (OverrideCap(cfg, to).None? ==> m.remaining == global)
      && (GlobalOver(cfg, pruned, NOTHING_STAGED, amount) <==> global.Some? && amount > global.value)
      && (OverrideCap(cfg, to).Some? ==>
          m.remaining.Some? && (RecipientOver(cfg, pruned, NOTHING_STAGED, to, amount) <==> amount > m.remaining.value))
      && (OverrideCap(cfg, to).None? ==> !RecipientOver(cfg, pruned, NOTHING_STAGED, to, amount))
  {
    SumNonNegative(l.spend.entries);
    WindowOfWellFormed(l.recipients, to, U64_MAX);
    SumNonNegative(WindowOf(l.recipients, to).entries);
  }

  // ---- What the reported caps are ----

  predicate FitsUnder(a: int, cap: int, spent: int) {
    a >= 0 && spent + a <= cap
  }

  /** The largest amount that, on top of what is spent, stays within the cap; zero
      if there is none. */
  ghost predicate IsHeadroom(h: int, cap: int, spent: int) {
    && (h == 0 || FitsUnder(h, cap, spent))
    && forall a :: FitsUnder(a, cap, spent) ==> a <= h
  }

  /** The headroom of the recipient is that of its override or of the global cap,
      whichever the reported effective cap is, on the total pruned at the time. */
  lemma HeadroomMeans(self: Address, s: State, now: u64, asset: Address, to: Address, amount: i128)
    requires Inv(self, s, now) && s.policy.Some?
    ensures var cfg, d := s.policy.value, CheckedDetail(self, s, now, asset, to, amount);
      && (forall rc :: rc in cfg.recipientWindowCaps && rc.recipient == to && rc.cap > 0 ==>
          && d.effectiveWindowCap == Some(rc.cap) && d.remainingWindow.Some?
          && IsHeadroom(d.remainingWindow.value, rc.cap, Prune(WindowOf(LoadWindow(s).recipients, to), now, cfg.windowSecs).total))
      && ((forall rc :: rc in cfg.recipientWindowCaps && rc.recipient == to ==> rc.cap <= 0) ==>
          && d.effectiveWindowCap == (if cfg.windowCap > 0 then Some(cfg.windowCap) else None)
          && d.remainingWindow == StatusOf(s, now).windowRemaining)
    ensures var cfg, left := s.policy.value, StatusOf(s, now).windowRemaining;
      && (left.Some? <==> cfg.windowCap > 0)
      && (left.Some? ==> IsHeadroom(left.value, cfg.windowCap, Prune(LoadWindow(s).spend, now, cfg.windowSecs).total))
  {
    var cfg, l := s.policy.value, LoadWindow(s);
    hide Decide, LoadWindow, StoredCoherent, Coherent, WindowOf, Prune, FirstOverride, Headroom, IsHeadroom, AccountGate;
    LoadCoherent(self, s, now);
    AdvisoryCoherent(cfg, l, now);
    ValidIsSound(self, cfg);
    hide ValidPolicy;
    ListOrder.UniqueCap(cfg.recipientWindowCaps);
    ListOrder.OverrideIsListed(cfg.recipientWindowCaps, to);
    hide SoundPolicy;
    PruneWindowOf(l.recipients, to, now, cfg.windowSecs);
    PrunedTotals(l, to, now, cfg.windowSecs);
    forall cap: i128, total: i128 | cap >= 0 && total >= 0 ensures IsHeadroom(Headroom(cap, total), cap, total) {
      HeadroomIs(cap, total);
    }
  }

  lemma HeadroomIs(cap: i128, total: i128)
    requires cap >= 0 && total >= 0
    ensures IsHeadroom(Headroom(cap, total), cap, total)
  {
  }

  lemma PrunedTotals(l: LedgerState, r: Address, now: u64, width: u64)
    requires Coherent(l, now)
    ensures 0 <= Prune(l.spend, now, width).total <= I128_MAX
    ensures 0 <= Prune(WindowOf(l.recipients, r), now, width).total <= I128_MAX
  {
    WindowOfWellFormed(l.recipients, r, now);
    SumNonNegative(l.spend.entries);
    SumNonNegative(WindowOf(l.recipients, r).entries);
    PruneShaped(l.spend, now, width, now);
    PruneShaped(WindowOf(l.recipients, r), now, width, now);
  }

  /** The per-transaction caps reported: the global one whatever the asset, and the
      one in force for it, which its own entry decides alone; and the latter is
      exact: where nothing before it refuses a transfer, that rule does exactly
      above it. */
  lemma PerTxCapsMean(self: Address, s: State, now: u64, asset: Address, to: Address, amount: i128)
    requires Inv(self, s, now) && s.policy.Some?
    ensures var cfg, d := s.policy.value, CheckedDetail(self, s, now, asset, to, amount);
      && d.perTxCap == (if cfg.perTxCap > 0 then Some(cfg.perTxCap) else None)
      && (forall ac :: ac in cfg.assetCaps && ac.asset == asset ==>
          d.effectivePerTxCap == if ac.perTxCap > 0 then Some(ac.perTxCap) else None)
      && ((forall ac :: ac in cfg.assetCaps ==> ac.asset != asset) ==> d.effectivePerTxCap == d.perTxCap)
    ensures var cfg, d := s.policy.value, CheckedDetail(self, s, now, asset, to, amount);
      AccountGate(s.policy, Account(s), now).None? && asset != self && asset in cfg.assets && amount > 0
      && (forall ac :: ac in cfg.assetCaps && ac.asset == asset ==> !ac.paused)
      && to !in cfg.blockedRecipients && (cfg.allowAnyRecipient || to in cfg.recipients) ==>
        (d.verdict == Blocked(PerTxCapExceeded) <==> d.effectivePerTxCap.Some? && amount > d.effectivePerTxCap.value)
  {
    var cfg, l := s.policy.value, AdvisoryLedger(s.policy.value, LoadWindow(s), now);
    var c := TransferContext(asset, AddressVal(asset), to, amount);
    OneVerdict(self, s.policy, Account(s), l, now, c);
    assert asset != self && asset in cfg.assets ==> ParseCall(self, c, cfg) == AssetTransfer(asset, to, amount);
    hide Decide, LoadWindow, StoredCoherent, AdvisoryLedger, FindAssetCap, GlobalOver, RecipientOver, AccountGate, Current, ParseCall,
      Stage;
    ValidIsSound(self, cfg);
    hide ValidPolicy;
    ListOrder.UniqueAssetCap(cfg.assetCaps);
    ListOrder.AssetCapIsListed(cfg.assetCaps, asset);
    hide SoundPolicy;
  }

  /** Without a policy nothing is reported but the refusal. */
  lemma NoPolicyReported(self: Address, s: State, now: u64, asset: Address, to: Address, amount: i128, ts: seq<BatchTransfer>)
    requires s.policy.None?
    ensures CheckedDetail(self, s, now, asset, to, amount) == CheckDetail(Blocked(NoPolicy), None, None, None, None)
    ensures var b := CheckedBatch(self, s, now, asset, ts);
      !b.admissible && |b.verdicts| == |ts| && forall i :: 0 <= i < |ts| ==> b.verdicts[i] == Blocked(NoPolicy)
    ensures StatusOf(s, now) == Status(false, Revision(s), Or(s.adminFrozen, false), false, Heartbeat(s), now, false, None, false)
  {
  }

  /** The verdicts of a payment run are one for each transfer, or one for too many,
      and explain the answer: the first refusal among them is the error enforcement
      returns, and a run of one gets the verdict of `check`. */
  lemma BatchVerdictsExplain(self: Address, s: State, now: u64, asset: Address, ts: seq<BatchTransfer>)
    requires Inv(self, s, now) && s.agentKey.Some? && s.policy.Some?
    ensures var vs := CheckedBatch(self, s, now, asset, ts).verdicts;
      && |vs| == (if |ts| > 64 then 1 else |ts|)
      && (forall i :: 0 <= i < |vs| && vs[i].Blocked? && (forall j :: 0 <= j < i ==> vs[j] == Allowed) ==>
          Authorize(self, s, now, BatchContexts(asset, ts), true).outcome == Failed(vs[i].error))
      && (|ts| == 1 ==> vs == [CheckedDetail(self, s, now, asset, ts[0].to, ts[0].amount).verdict])
  {
    hide Evaluate, LoadWindow, StoredCoherent, AccountGate, ValidPolicy;
    var vs := CheckedBatch(self, s, now, asset, ts).verdicts;
    forall i | 0 <= i < |vs| && vs[i].Blocked? && (forall j :: 0 <= j < i ==> vs[j] == Allowed)
      ensures Authorize(self, s, now, BatchContexts(asset, ts), true).outcome == Failed(vs[i].error)
    {
      FirstErrorAt(vs, i);
    }
    if |ts| == 1 {
      var c := TransferContext(asset, AddressVal(asset), ts[0].to, ts[0].amount);
      assert BatchContexts(asset, ts) == [c];
      CheckAgrees(self, s, now, asset, AddressVal(asset), ts[0].to, ts[0].amount);
      OneVerdict(self, s.policy, Account(s), LoadWindow(s), now, c);
      assert vs == [vs[0]];
      if vs[0].Blocked? { FirstErrorAt(vs, 0); }
      hide Decide;
    }
  }

  lemma FirstErrorAt(vs: seq<Decision>, i: nat)
    requires i < |vs| && vs[i].Blocked? && forall j :: 0 <= j < i ==> vs[j] == Allowed
    ensures FirstError(vs) == Some(vs[i].error)
  {
    var f := FirstError(vs);
    assert !AllAllowed(vs);
    var k :| 0 <= k < |vs| && vs[k] == Blocked(f.value) && AllAllowed(vs[..k]);
    assert forall j :: 0 <= j < k ==> vs[j] == vs[..k][j];
    hide FirstError;
  }

  // ---- Health and status ----

  /** The health read says expired exactly when the silence has outlasted the
      grace, for which the gate blocks, or no heartbeat was ever recorded, which
      the gate lets pass. It warns once four fifths of the grace, rounded down,
      have run. */
  lemma HealthAgainstGate(now: u64, last: u64, cfg: PolicyConfig)
    ensures DmsHealth(now, last, cfg) == DmsHealthStatus.Expired <==>
      cfg.dmsGraceSecs > 0 && (now - last > cfg.dmsGraceSecs || last == 0)
    ensures HeartbeatLapsed(cfg, last, now) <==> cfg.dmsGraceSecs > 0 && now - last > cfg.dmsGraceSecs && last > 0
    ensures cfg.dmsGraceSecs <= MAX_DMS_GRACE_SECS ==>
      (DmsHealth(now, last, cfg) == Warn <==>
        && cfg.dmsGraceSecs > 0 && last > 0 && now - last <= cfg.dmsGraceSecs
        && ((if now > last then now - last else 0) + 1) * 100 > cfg.dmsGraceSecs * 80)
  {
  }

  /** What the status fields are, in terms of storage and the clock. */
  lemma StatusMeans(s: State, now: u64)
    ensures var st := StatusOf(s, now);
      && (st.hasPolicy <==> s.policy.Some?) && st.now == now
      && st.policyRevision == Revision(s) && st.lastHeartbeat == Heartbeat(s) && st.adminFrozen == Or(s.adminFrozen, false)
      && (st.paused <==> s.policy.Some? && s.policy.value.paused)
      && (st.heartbeatExpired <==>
          s.policy.Some? && Heartbeat(s) > 0 && 0 < s.policy.value.dmsGraceSecs < now - Heartbeat(s))
      && (st.outsideActiveWindow <==>
          s.policy.Some? && (now < s.policy.value.activeFrom || 0 < s.policy.value.activeUntil < now))
  {
  }

  /** The status fields determine the account gate. */
  lemma StatusExplainsGate(s: State, now: u64)
    ensures var st := StatusOf(s, now);
      AccountGate(s.policy, Account(s), now) ==
      if st.adminFrozen then Some(AdminFrozen)
      else if !st.hasPolicy then Some(NoPolicy)
      else if st.heartbeatExpired then Some(HeartbeatExpired)
      else if st.paused then Some(Paused)
      else if st.outsideActiveWindow then Some(OutsideActiveWindow)
      else None
  {
  }
}
