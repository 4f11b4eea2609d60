/** The decision table of src/engine.rs on values: cap lookups, call parsing,
    the account gates, the per-context rules with their staged projections, and
    the all-or-nothing commit. */
module EngineSpec {
  import opened Types
  import opened WindowSpec
  import opened LedgerSpec

  const TRANSFER: Symbol := "transfer"
  const TRANSFER_FROM: Symbol := "transfer_from"
  const HEARTBEAT: Symbol := "heartbeat"

  // ---- Policy lookups ----

  /** The first positive cap listed for `r`. */
  function FirstOverride(caps: seq<RecipientCap>, r: Address): Option<i128> {
    if caps == [] then None
    else if caps[0].recipient == r && caps[0].cap > 0 then Some(caps[0].cap)
    else FirstOverride(caps[1..], r)
  }

  function FindAssetCap(caps: seq<AssetCap>, asset: Address): Option<AssetCap> {
    if caps == [] then None
    else if caps[0].asset == asset then Some(caps[0])
    else FindAssetCap(caps[1..], asset)
  }

  function FindRule(rules: seq<ProtocolRule>, contract: Address): Option<ProtocolRule> {
    if rules == [] then None
    else if rules[0].contract == contract then Some(rules[0])
    else FindRule(rules[1..], contract)
  }

  function OverrideCap(cfg: PolicyConfig, r: Address): Option<i128> {
    FirstOverride(cfg.recipientWindowCaps, r)
  }

  function EffectiveWindowCap(cfg: PolicyConfig, r: Address): Option<i128> {
    if OverrideCap(cfg, r).Some? then OverrideCap(cfg, r)
    else if cfg.windowCap > 0 then Some(cfg.windowCap) else None
  }

  function EffectivePerTxCap(cfg: PolicyConfig, asset: Address): Option<i128> {
    match FindAssetCap(cfg.assetCaps, asset)
    case Some(ac) => if ac.perTxCap > 0 then Some(ac.perTxCap) else None
    case None => if cfg.perTxCap > 0 then Some(cfg.perTxCap) else None
  }

  predicate AssetPaused(cfg: PolicyConfig, asset: Address) {
    var ac := FindAssetCap(cfg.assetCaps, asset);
    ac.Some? && ac.value.paused
  }

  // ---- Call parsing ----

  function ParseCall(self: Address, ctx: Context, cfg: PolicyConfig): ParsedCall {
    match ctx
    case CreateContractHostFn => CreateContract
    case CreateContractWithCtorHostFn => CreateContract
    case Contract(contract, fnName, args) =>
      if contract == self then SelfCall(fnName)
      else if contract in cfg.assets then
        if fnName == TRANSFER || fnName == TRANSFER_FROM then
          var toIdx := if fnName == TRANSFER then 1 else 2;
          if |args| != toIdx + 2 then Unknown(contract, fnName)
          else if args[toIdx].AddressVal? && args[toIdx + 1].I128Val?
          then AssetTransfer(contract, args[toIdx].address, args[toIdx + 1].amount)
          else Unknown(contract, fnName)
        else AssetOther(contract, fnName)
      else if FindRule(cfg.protocols, contract).Some? then Protocol(contract, fnName)
      else Unknown(contract, fnName)
  }

  // ---- Account gates ----

  /** The dead-man switch has run out. */
  predicate HeartbeatLapsed(cfg: PolicyConfig, lastHeartbeat: u64, now: u64) {
    cfg.dmsGraceSecs > 0 && lastHeartbeat != 0 && SatSub(now, lastHeartbeat) > cfg.dmsGraceSecs
  }

  predicate OutsideActive(cfg: PolicyConfig, now: u64) {
    (cfg.activeFrom != 0 && now < cfg.activeFrom) || (cfg.activeUntil != 0 && now > cfg.activeUntil)
  }

  /** The first account-level reason to refuse everything, in the engine's order. */
  function AccountGate(policy: Option<PolicyConfig>, st: AccountState, now: u64): Option<Error> {
    if st.adminFrozen then Some(AdminFrozen)
    else if policy.None? then Some(NoPolicy)
    else if HeartbeatLapsed(policy.value, st.lastHeartbeat, now) then Some(HeartbeatExpired)
    else if policy.value.paused then Some(Paused)
    else if OutsideActive(policy.value, now) then Some(OutsideActiveWindow)
    else None
  }

  // ---- Staging ----

  datatype Staged = Staged(recipient: Address, amount: int)

  /** What the contexts evaluated so far would admit. */
  datatype Staging = Staging(pending: int, admission: seq<Entry>, recipients: seq<Staged>, calls: nat)

  const NOTHING_STAGED := Staging(0, [], [], 0)

  function FindStaged(rs: seq<Staged>, r: Address): (k: nat)
    ensures k <= |rs|
    ensures k < |rs| ==> rs[k].recipient == r
    ensures forall j :: 0 <= j < k ==> rs[j].recipient != r
  {
    if rs == [] || rs[0].recipient == r then 0 else 1 + FindStaged(rs[1..], r)
  }

  function StagedFor(rs: seq<Staged>, r: Address): int {
    var k := FindStaged(rs, r);
    if k < |rs| then rs[k].amount else 0
  }

  function Stage(rs: seq<Staged>, r: Address, amount: int): seq<Staged> {
    var k := FindStaged(rs, r);
    var next := SatAdd(StagedFor(rs, r), amount, I128_MAX);
    if k < |rs| then rs[k := Staged(r, next)] else rs + [Staged(r, next)]
  }

  // ---- Per-context rules ----

  /** `base + staged + amount`, or nothing on `i128` overflow. */
  function Projection(base: int, staged: int, amount: int): Option<int> {
    match CheckedAdd(base, staged)
    case None => None
    case Some(s) => CheckedAdd(s, amount)
  }

  predicate Over(projected: Option<int>, cap: int) {
    projected.None? || projected.value > cap
  }

  predicate GlobalOver(cfg: PolicyConfig, l: LedgerState, stg: Staging, amount: int) {
    cfg.windowCap > 0 && Over(Projection(l.spend.total, stg.pending, amount), cfg.windowCap)
  }

  predicate RecipientOver(cfg: PolicyConfig, l: LedgerState, stg: Staging, to: Address, amount: int) {
    && OverrideCap(cfg, to).Some?
    && Over(Projection(WindowOf(l.recipients, to).total, StagedFor(stg.recipients, to), amount),
            OverrideCap(cfg, to).value)
  }

  /** Every rule for a transfer but the rolling windows, in the engine's order. */
  function TransferGate(cfg: PolicyConfig, asset: Address, to: Address, amount: int): Option<Error> {
    if AssetPaused(cfg, asset) then Some(AssetNotAllowed)
    else if amount <= 0 then Some(InvalidAmount)
    else if to in cfg.blockedRecipients then Some(RecipientBlocked)
    else if !cfg.allowAnyRecipient && to !in cfg.recipients then Some(RecipientNotAllowed)
    else if EffectivePerTxCap(cfg, asset).Some? && amount > EffectivePerTxCap(cfg, asset).value
    then Some(PerTxCapExceeded)
    else None
  }

  function ProtocolGate(cfg: PolicyConfig, contract: Address, fname: Symbol): Option<Error> {
    var rule := FindRule(cfg.protocols, contract);
    if rule.None? || rule.value.paused then Some(ProtocolNotAllowed)
    else if rule.value.fns.Some? && fname !in rule.value.fns.value then Some(FunctionNotAllowed)
    else None
  }

  datatype Step = Step(verdict: Decision, staging: Staging)

  function EvalTransfer(cfg: PolicyConfig, l: LedgerState, stg: Staging, now: u64,
                        asset: Address, to: Address, amount: int): Step
  {
    var gate := TransferGate(cfg, asset, to, amount);
    if gate.Some? then Step(Blocked(gate.value), stg)
    else if GlobalOver(cfg, l, stg, amount) || RecipientOver(cfg, l, stg, to, amount)
    then Step(Blocked(WindowCapExceeded), stg)
    else
      var s1 := if cfg.windowCap > 0
                then stg.(pending := SatAdd(stg.pending, amount, I128_MAX),
                          admission := stg.admission + [Entry(now, amount)])
                else stg;
      Step(Allowed,
           if OverrideCap(cfg, to).Some? then s1.(recipients := Stage(stg.recipients, to, amount)) else s1)
  }

  function EvalProtocol(cfg: PolicyConfig, l: LedgerState, stg: Staging, contract: Address, fname: Symbol): Step {
    var gate := ProtocolGate(cfg, contract, fname);
    if gate.Some? then Step(Blocked(gate.value), stg)
    else if cfg.protocolCallsPerWindow == 0 then Step(Allowed, stg)
    else if SatAdd(SatAdd(l.calls.total, stg.calls, U32_MAX), 1, U32_MAX) > cfg.protocolCallsPerWindow
    then Step(Blocked(ProtocolCallRateExceeded), stg)
    else Step(Allowed, stg.(calls := SatAdd(stg.calls, 1, U32_MAX)))
  }

  function EvalContext(self: Address, cfg: PolicyConfig, l: LedgerState, stg: Staging, now: u64, ctx: Context): Step {
    match ParseCall(self, ctx, cfg)
    case SelfCall(fname) =>
      Step(if fname == HEARTBEAT then Allowed else Blocked(SelfFunctionNotAllowed), stg)
    case CreateContract => Step(Blocked(CreateContractNotAllowed), stg)
    case Unknown(_, _) => Step(Blocked(UnknownContract), stg)
    case AssetOther(asset, _) =>
      Step(Blocked(if AssetPaused(cfg, asset) then AssetNotAllowed else AssetFnNotAllowed), stg)
    case AssetTransfer(asset, to, amount) => EvalTransfer(cfg, l, stg, now, asset, to, amount)
    case Protocol(contract, fname) => EvalProtocol(cfg, l, stg, contract, fname)
  }

  datatype Evaluation = Evaluation(verdicts: seq<Decision>, staging: Staging)

  /** All contexts in order, each against the ledger and what is staged before it. */
  function Evaluate(self: Address, cfg: PolicyConfig, l: LedgerState, now: u64, ctxs: seq<Context>): (e: Evaluation)
    ensures |e.verdicts| == |ctxs|
  {
    if ctxs == [] then Evaluation([], NOTHING_STAGED)
    else
      var n := |ctxs| - 1;
      var e := Evaluate(self, cfg, l, now, ctxs[..n]);
      var s := EvalContext(self, cfg, l, e.staging, now, ctxs[n]);
      Evaluation(e.verdicts + [s.verdict], s.staging)
  }

  // ---- Commit and decision ----

  predicate AllAllowed(vs: seq<Decision>) {
    forall i :: 0 <= i < |vs| ==> vs[i] == Allowed
  }

  function AdmitAll(w: Window, es: seq<Entry>): Window {
    if es == [] then w
    else
      var n := |es| - 1;
      Admit(AdmitAll(w, es[..n]), es[n].ts, es[n].amount, I128_MAX)
  }

  function AdmitStaged(rs: seq<RecipientWindow>, staged: seq<Staged>, now: u64): seq<RecipientWindow> {
    if staged == [] then rs
    else
      var n := |staged| - 1;
      AdmitFor(AdmitStaged(rs, staged[..n], now), staged[n].recipient, now, staged[n].amount)
  }

  function Commit(l: LedgerState, stg: Staging, now: u64): LedgerState {
    LedgerState(
      AdmitAll(l.spend, stg.admission),
      AdmitStaged(l.recipients, stg.recipients, now),
      AdmitCalls(l.calls, now, stg.calls))
  }

  /** Some rolling limit is configured, so windows are pruned before evaluation. */
  predicate PrunesWindows(cfg: PolicyConfig) {
    cfg.windowCap > 0 || cfg.recipientWindowCaps != [] || cfg.protocolCallsPerWindow > 0
  }

  function Current(cfg: PolicyConfig, l: LedgerState, now: u64): LedgerState {
    if PrunesWindows(cfg) then PruneLedger(l, now, cfg.windowSecs) else l
  }

  datatype Ruling = Ruling(verdicts: seq<Decision>, ledger: LedgerState)

  function Refuse(e: Error, n: nat): (vs: seq<Decision>)
    ensures |vs| == n && forall i :: 0 <= i < n ==> vs[i] == Blocked(e)
  {
    seq(n, _ => Blocked(e))
  }

  /** One verdict per context, and the ledger afterwards: admissions are kept
      only when every context is allowed. */
  function Decide(self: Address, policy: Option<PolicyConfig>, st: AccountState,
                  l: LedgerState, now: u64, ctxs: seq<Context>): Ruling
  {
    if |ctxs| > MAX_AUTH_CONTEXTS then Ruling([Blocked(TooManyAuthContexts)], l)
    else
      var gate := AccountGate(policy, st, now);
      if gate.Some? then Ruling(Refuse(gate.value, |ctxs|), l)
      else
        var pruned := Current(policy.value, l, now);
        var e := Evaluate(self, policy.value, pruned, now, ctxs);
        Ruling(e.verdicts, if AllAllowed(e.verdicts) then Commit(pruned, e.staging, now) else pruned)
  }

  // ---- Advisory reads ----

  /** `max(cap - total, 0)`. */
  function Headroom(cap: int, total: int): int {
    var left := SatSubI128(cap, total);
    if left < 0 then 0 else left
  }

  datatype CapMetrics = CapMetrics(remaining: Option<int>, perTxCap: Option<i128>, windowCap: Option<i128>)

  function ReadCapMetrics(cfg: PolicyConfig, l: LedgerState, r: Address): CapMetrics {
    var cap := EffectiveWindowCap(cfg, r);
    var tracked := if OverrideCap(cfg, r).Some? then WindowOf(l.recipients, r).total else l.spend.total;
    CapMetrics(
      if cap.Some? then Some(Headroom(cap.value, tracked)) else None,
      if cfg.perTxCap > 0 then Some(cfg.perTxCap) else None,
      cap)
  }

  function GlobalWindowRemaining(cfg: PolicyConfig, l: LedgerState): Option<int> {
    if cfg.windowCap > 0 then Some(Headroom(cfg.windowCap, l.spend.total)) else None
  }

  datatype DmsHealthStatus = Healthy | Warn | Expired

  /** Dead-man switch health; unlike the gate, a missing heartbeat counts as expired. */
  function DmsHealth(now: u64, lastHeartbeat: u64, cfg: PolicyConfig): DmsHealthStatus {
    if cfg.dmsGraceSecs == 0 then Healthy
    else if lastHeartbeat == 0 then Expired
    else
      var elapsed := SatSub(now, lastHeartbeat);
      var product := cfg.dmsGraceSecs * DMS_WARN_THRESHOLD_PERCENT;
      var threshold := (if product > U64_MAX then U64_MAX else product) / 100;
      if elapsed > cfg.dmsGraceSecs then Expired
      else if elapsed >= threshold then Warn else Healthy
  }
}
