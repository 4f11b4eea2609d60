/** The contract of src/lib.rs as it runs: entry points that read and write
    storage keys, each proved to take the step the specification gives it. */
module Contract {
  import opened Types
  import opened LedgerSpec
  import opened EngineSpec
  import opened ContractSpec
  import opened WindowLedger
  import opened Preflight
  import Engine
  import Validation

  class PolicyEngine {
    const self: Address

    // Instance storage
    var initialized: bool
    var admin: Option<Address>
    var pendingAdmin: Option<Address>
    var agentKey: Option<Key>

    // Persistent storage
    var policy: Option<PolicyConfig>
    var window: Option<WindowState>
    var lastHeartbeat: Option<u64>
    var adminFrozen: Option<bool>
    var autoFrozenAt: Option<u64>
    var policyRevision: Option<u64>

    ghost function Storage(): State
      reads this
    {
      State(initialized, admin, pendingAdmin, agentKey, policy, window,
            lastHeartbeat, adminFrozen, autoFrozenAt, policyRevision)
    }

    ghost predicate Valid(t: u64)
      reads this
    {
      Inv(self, Storage(), t)
    }

    constructor Deploy(address: Address)
      ensures self == address && Storage() == BLANK && forall t: u64 :: Valid(t)
    {
      self := address;
      initialized, admin, pendingAdmin, agentKey := false, None, None, None;
      policy, window, lastHeartbeat := None, None, None;
      adminFrozen, autoFrozenAt, policyRevision := None, None, None;
    }

    // ---- Lifecycle and policy management ----

    method InitializeAccount(now: u64, auths: set<Address>, newAdmin: Address, key: Key) returns (outcome: Outcome)
      requires Valid(now)
      modifies this
      ensures Result(outcome, Storage()) == Apply(self, old(Storage()), Event(now, auths, Initialize(newAdmin, key)))
      ensures Valid(now)
    {
      if initialized { return Failed(AlreadyInitialized); }
      if newAdmin !in auths { return Trapped; }
      admin, agentKey, initialized := Some(newAdmin), Some(key), true;
      adminFrozen, lastHeartbeat := Some(false), Some(0);
      return Done;
    }

    /** The admin check every admin-only entry point starts with. */
    method AdminOrPanic(auths: set<Address>) returns (outcome: Outcome)
      ensures outcome == if admin.None? then Failed(NotInitialized)
                         else if admin.value in auths then Done else Trapped
    {
      match admin {
        case Some(a) => outcome := if a in auths then Done else Trapped;
        case None => outcome := Failed(NotInitialized);
      }
    }

    method IncrementRevision()
      modifies this`policyRevision
      ensures Storage() == BumpRevision(old(Storage()))
    {
      var rev := if policyRevision.Some? then policyRevision.value else 0;
      policyRevision := Some(SatAdd(rev, 1, U64_MAX));
    }

    method Set(now: u64, auths: set<Address>, config: PolicyConfig) returns (outcome: Outcome)
      requires Valid(now)
      modifies this
      ensures Result(outcome, Storage()) == Apply(self, old(Storage()), Event(now, auths, SetPolicy(config)))
      ensures Valid(now)
    {
      ghost var e := Event(now, auths, SetPolicy(config));
      ApplyKeepsInv(self, Storage(), e, now);
      outcome := AdminOrPanic(auths);
      if outcome != Done { return; }
      var rule := Validation.ValidatePolicy(self, config);
      if rule.Some? { return Failed(InvalidConfig); }
      var firstInstall := policy.None?;
      policy := Some(config);
      IncrementRevision();
      if firstInstall {
        var empty := new Ledger.Empty();
        var state := empty.ToState();
        window := Some(state);
        lastHeartbeat := Some(now);
      }
    }

    method Reset(now: u64, auths: set<Address>) returns (outcome: Outcome)
      requires Valid(now)
      modifies this
      ensures Result(outcome, Storage()) == Apply(self, old(Storage()), Event(now, auths, ResetWindow))
      ensures Valid(now)
    {
      outcome := AdminOrPanic(auths);
      if outcome == Done { window := None; }
    }

    method SwitchPaused(now: u64, auths: set<Address>, paused: bool) returns (outcome: Outcome)
      requires Valid(now)
      modifies this
      ensures Result(outcome, Storage()) == Apply(self, old(Storage()), Event(now, auths, SetPaused(paused)))
      ensures Valid(now)
    {
      ApplyKeepsInv(self, Storage(), Event(now, auths, SetPaused(paused)), now);
      outcome := AdminOrPanic(auths);
      if outcome != Done { return; }
      if policy.None? { return Failed(NoPolicy); }
      var cfg := policy.value;
      if cfg.paused != paused {
        policy := Some(cfg.(paused := paused));
        IncrementRevision();
      }
    }

    method Revoke(now: u64, auths: set<Address>) returns (outcome: Outcome)
      requires Valid(now)
      modifies this
      ensures Result(outcome, Storage()) == Apply(self, old(Storage()), Event(now, auths, RevokePolicy))
      ensures Valid(now)
    {
      outcome := AdminOrPanic(auths);
      if outcome != Done { return; }
      policy, window := None, None;
      IncrementRevision();
    }

    method RotateKey(now: u64, auths: set<Address>, key: Key) returns (outcome: Outcome)
      requires Valid(now)
      modifies this
      ensures Result(outcome, Storage()) == Apply(self, old(Storage()), Event(now, auths, RotateAgentKey(key)))
      ensures Valid(now)
    {
      outcome := AdminOrPanic(auths);
      if outcome != Done { return; }
      if agentKey.None? { return Failed(NotInitialized); }
      agentKey := Some(key);
    }

    // ---- Admin rotation ----

    method Propose(now: u64, auths: set<Address>, nominee: Address) returns (outcome: Outcome)
      requires Valid(now)
      modifies this
      ensures Result(outcome, Storage()) == Apply(self, old(Storage()), Event(now, auths, ProposeAdmin(nominee)))
      ensures Valid(now)
    {
      outcome := AdminOrPanic(auths);
      if outcome != Done { return; }
      if Some(nominee) == admin { return Failed(InvalidConfig); }
      pendingAdmin := Some(nominee);
    }

    method Confirm(now: u64, auths: set<Address>) returns (outcome: Outcome)
      requires Valid(now)
      modifies this
      ensures Result(outcome, Storage()) == Apply(self, old(Storage()), Event(now, auths, ConfirmAdmin))
      ensures Valid(now)
    {
      if admin.None? { return Failed(NotInitialized); }
      if pendingAdmin.None? { return Failed(NoPendingAdmin); }
      if pendingAdmin.value !in auths { return Trapped; }
      admin, pendingAdmin := pendingAdmin, None;
      return Done;
    }

    method Cancel(now: u64, auths: set<Address>) returns (outcome: Outcome)
      requires Valid(now)
      modifies this
      ensures Result(outcome, Storage()) == Apply(self, old(Storage()), Event(now, auths, CancelAdmin))
      ensures Valid(now)
    {
      outcome := AdminOrPanic(auths);
      if outcome != Done { return; }
      if pendingAdmin.None? { return Failed(NoPendingAdmin); }
      pendingAdmin := None;
    }

    // ---- Dead-man switch and freeze ----

    method RecordHeartbeat(now: u64, auths: set<Address>, contexts: seq<Context>, signer: Option<Key>) returns (outcome: Outcome)
      requires Valid(now)
      modifies this
      ensures Result(outcome, Storage()) == Apply(self, old(Storage()), Event(now, auths, Beat(contexts, signer)))
      ensures Valid(now)
    {
      ApplyKeepsInv(self, Storage(), Event(now, auths, Beat(contexts, signer)), now);
      AuthorizeKeepsInv(self, Storage(), now, contexts, SignedBy(Storage(), signer));
      if HeartbeatContext(self) !in contexts { return Trapped; }
      outcome := Authenticate(now, contexts, signer);
      if outcome != Done { return Trapped; }
      var last := if lastHeartbeat.Some? then lastHeartbeat.value else 0;
      if now == last { return; }
      lastHeartbeat := Some(now);
    }

    method SetFrozen(now: u64, auths: set<Address>) returns (outcome: Outcome)
      requires Valid(now)
      modifies this
      ensures Result(outcome, Storage()) == Apply(self, old(Storage()), Event(now, auths, Freeze))
      ensures Valid(now)
    {
      outcome := AdminOrPanic(auths);
      if outcome == Done { adminFrozen := Some(true); }
    }

    method ClearFrozen(now: u64, auths: set<Address>) returns (outcome: Outcome)
      requires Valid(now)
      modifies this
      ensures Result(outcome, Storage()) == Apply(self, old(Storage()), Event(now, auths, Unfreeze))
      ensures Valid(now)
    {
      outcome := AdminOrPanic(auths);
      if outcome == Done {
        adminFrozen := Some(false);
        lastHeartbeat := Some(now);
      }
    }

    method RecordExpiry(now: u64, auths: set<Address>) returns (outcome: Outcome)
      requires Valid(now)
      modifies this
      ensures Result(outcome, Storage()) == Apply(self, old(Storage()), Event(now, auths, RefreshDeadman))
      ensures Valid(now)
    {
      var grace: u64 := if policy.Some? then policy.value.dmsGraceSecs else 0;
      var last: u64 := if lastHeartbeat.Some? then lastHeartbeat.value else 0;
      if grace > 0 && last != 0 && SatSub(now, last) > grace {
        var recorded: u64 := if autoFrozenAt.Some? then autoFrozenAt.value else 0;
        if recorded == 0 {
          autoFrozenAt := Some(now);
        }
      }
      return Done;
    }

    // ---- Authorization ----

    /** `__check_auth`: an error leaves storage as it was. */
    method Authenticate(now: u64, contexts: seq<Context>, signer: Option<Key>) returns (outcome: Outcome)
      requires Valid(now)
      modifies this`window
      ensures Result(outcome, Storage()) == Authorize(self, old(Storage()), now, contexts, SignedBy(old(Storage()), signer))
      ensures outcome != Done ==> Storage() == old(Storage())
      ensures Valid(now)
    {
      hide Inv, Decide, LoadWindow, HasSpendEntries;
      AuthorizeKeepsInv(self, Storage(), now, contexts, SignedBy(Storage(), signer));
      LoadCoherent(self, Storage(), now);
      if agentKey.None? { return Failed(NotInitialized); }
      if signer != agentKey { return Trapped; }
      if policy.None? { return Failed(NoPolicy); }
      var windowPersisted := window.Some?;
      var ledger := LoadLedger();
      var verdicts := Engine.RunDecide(self, policy, LoadAccount(), ledger, now, contexts);
      var firstError := FoldVerdicts(verdicts);
      if firstError.Some? { return Failed(firstError.value); }
      var hasEntries := LedgerHasEntries(ledger);
      if windowPersisted || hasEntries {
        var state := ledger.ToState();
        window := Some(state);
      }
      return Done;
    }

    method LoadLedger() returns (ledger: Ledger)
      ensures fresh(ledger) && ledger.View() == LoadWindow(Storage())
    {
      if window.Some? {
        ledger := new Ledger.FromState(window.value);
      } else {
        ledger := new Ledger.Empty();
      }
    }

    function LoadAccount(): AccountState
      reads this
    {
      AccountState(if adminFrozen.Some? then adminFrozen.value else false,
                   if lastHeartbeat.Some? then lastHeartbeat.value else 0)
    }

    static method FoldVerdicts(verdicts: seq<Decision>) returns (firstError: Option<Error>)
      ensures firstError == FirstError(verdicts)
    {
      firstError := None;
      for i := 0 to |verdicts|
        invariant firstError.None? ==> FirstError(verdicts) == FirstError(verdicts[i..])
        invariant firstError.Some? ==> FirstError(verdicts) == firstError
      {
        assert verdicts[i..][0] == verdicts[i] && verdicts[i..][1..] == verdicts[i + 1..];
        if verdicts[i].Blocked? && firstError.None? {
          firstError := Some(verdicts[i].error);
        }
      }
    }

    static method LedgerHasEntries(ledger: Ledger) returns (has: bool)
      ensures has <==> HasSpendEntries(ledger.View())
    {
      if |ledger.entries| > 0 { return true; }
      for i := 0 to |ledger.recipients|
        invariant forall k :: 0 <= k < i ==> ledger.recipients[k].window.entries == []
      {
        if ledger.recipients[i].window.entries != [] {
          assert ledger.View().recipients[i].window.entries != [];
          return true;
        }
      }
      return false;
    }

    // ---- Reads ----

    method CheckDetailed(now: u64, asset: Address, to: Address, amount: i128) returns (detail: CheckDetail)
      requires Valid(now)
      ensures detail == CheckedDetail(self, Storage(), now, asset, to, amount)
    {
      hide Coherent, Inv, LoadWindow, AdvisoryLedger, ReadCapMetrics, EffectivePerTxCap, Evaluate;
      var call := TransferContext(asset, AddressVal(asset), to, amount);
      if policy.None? { return CheckDetail(Blocked(NoPolicy), None, None, None, None); }
      var cfg := policy.value;
      var ledger := AdvisoryCopy(cfg, now);
      var metrics := CapMetricsOf(cfg, ledger, to);
      var verdicts := Engine.RunDecide(self, policy, LoadAccount(), ledger, now, [call]);
      var perTx := Engine.ScanPerTxCap(cfg, asset);
      detail := CheckDetail(verdicts[0], metrics.remaining, metrics.perTxCap, perTx, metrics.windowCap);
    }

    /** A local copy of the ledger, pruned when a spend limit is configured. */
    method AdvisoryCopy(cfg: PolicyConfig, now: u64) returns (ledger: Ledger)
      requires Valid(now)
      ensures fresh(ledger) && ledger.Valid(now)
      ensures ledger.View() == AdvisoryLedger(cfg, LoadWindow(Storage()), now)
    {
      hide Inv, LoadWindow, PruneLedger;
      LoadCoherent(self, Storage(), now);
      ledger := LoadLedger();
      if cfg.windowCap > 0 || cfg.recipientWindowCaps != [] {
        ledger.Prune(now, cfg.windowSecs);
      }
    }

    static method CapMetricsOf(cfg: PolicyConfig, ledger: Ledger, recipient: Address) returns (m: CapMetrics)
      ensures m == ReadCapMetrics(cfg, ledger.View(), recipient)
    {
      var cap := Engine.ScanOverride(cfg, recipient);
      var tracked := ledger.total;
      if cap.Some? {
        tracked := ledger.RecipientTotal(recipient);
      } else if cfg.windowCap > 0 {
        cap := Some(cfg.windowCap);
      }
      m := CapMetrics(if cap.Some? then Some(Headroom(cap.value, tracked)) else None,
                      if cfg.perTxCap > 0 then Some(cfg.perTxCap) else None, cap);
    }

    method CheckBatch(now: u64, asset: Address, transfers: seq<BatchTransfer>) returns (result: BatchCheck)
      requires Valid(now)
      ensures result == CheckedBatch(self, Storage(), now, asset, transfers)
    {
      LoadCoherent(self, Storage(), now);
      hide Inv, LoadWindow, Decide;
      var contexts: seq<Context> := [];
      for i := 0 to |transfers|
        invariant contexts == BatchContexts(asset, transfers[..i])
      {
        contexts := contexts + [TransferContext(asset, AddressVal(asset), transfers[i].to, transfers[i].amount)];
      }
      assert transfers[..|transfers|] == transfers;
      if policy.None? {
        var refused := Engine.RepeatBlocked(NoPolicy, |contexts|);
        return BatchCheck(refused, false);
      }
      var ledger := LoadLedger();
      var decisions := Engine.RunDecide(self, policy, LoadAccount(), ledger, now, contexts);
      result := Collect(decisions);
    }

    static method Collect(decisions: seq<Decision>) returns (result: BatchCheck)
      ensures result == BatchCheck(decisions, AllAllowed(decisions))
    {
      var verdicts: seq<Decision> := [];
      var admissible := true;
      for i := 0 to |decisions|
        invariant verdicts == decisions[..i]
        invariant admissible <==> AllAllowed(decisions[..i])
      {
        assert decisions[..i + 1] == decisions[..i] + [decisions[i]];
        if decisions[i].Blocked? { admissible := false; }
        verdicts := verdicts + [decisions[i]];
      }
      assert decisions[..|decisions|] == decisions;
      result := BatchCheck(verdicts, admissible);
    }

    method ReadStatus(now: u64) returns (status: Status)
      requires Valid(now)
      ensures status == StatusOf(Storage(), now)
    {
      hide Coherent, Inv, LoadWindow, AdvisoryLedger;
      var revision: u64 := if policyRevision.Some? then policyRevision.value else 0;
      var account := LoadAccount();
      if policy.None? {
        return Status(false, revision, account.adminFrozen, false, account.lastHeartbeat, now, false, None, false);
      }
      var cfg := policy.value;
      var ledger := AdvisoryCopy(cfg, now);
      status := Status(
        true, revision, account.adminFrozen,
        cfg.dmsGraceSecs > 0 && account.lastHeartbeat != 0 && SatSub(now, account.lastHeartbeat) > cfg.dmsGraceSecs,
        account.lastHeartbeat, now, cfg.paused,
        if cfg.windowCap > 0 then Some(Headroom(cfg.windowCap, ledger.total)) else None,
        OutsideActive(cfg, now));
    }
  }
}
