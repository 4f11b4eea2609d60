/** Which validation rule: a candidate policy is refused by the first stage it
    fails, in the documented order, and each rule name means a plain defect. */
module RuleOrder {
  import opened Types
  import opened ValidationSpec

  // ---- The stages ----

  /** What is wrong with one recipient cap, its sign before its width before itself. */
  predicate BadCap(self: Address, cfg: PolicyConfig, rc: RecipientCap, r: PolicyRuleId) {
    if rc.cap < 0 then r == RecipientCapSign
    else if rc.cap > 0 && cfg.windowSecs == 0 then r == WindowRequiresWidth
    else rc.recipient == self && r == SelfAddressInList
  }

  predicate BadAssetCap(self: Address, cfg: PolicyConfig, ac: AssetCap, r: PolicyRuleId) {
    if ac.perTxCap < 0 then r == AmountSign
    else if ac.asset == self then r == SelfAddressInList
    else ac.asset !in cfg.assets && r == AssetCapUnknownAsset
  }

  /** What is wrong with the `i`-th protocol rule: its contract before its functions. */
  predicate BadProtocol(cfg: PolicyConfig, i: nat, r: PolicyRuleId)
    requires i < |cfg.protocols|
  {
    var fns := cfg.protocols[i].fns;
    if exists j :: 0 <= j < i && cfg.protocols[j].contract == cfg.protocols[i].contract then r == ProtocolContractDuplicate
    else fns.Some? && (fns.value == [] || !NoDup(fns.value)) && r == ProtocolFnListInvalid
  }

  /** The first entry with anything wrong has this wrong. */
  ghost predicate FirstBadCap(self: Address, cfg: PolicyConfig, from: nat, r: PolicyRuleId) {
    exists i :: from <= i < |cfg.recipientWindowCaps| && BadCap(self, cfg, cfg.recipientWindowCaps[i], r)
      && forall j, x :: from <= j < i ==> !BadCap(self, cfg, cfg.recipientWindowCaps[j], x)
  }

  ghost predicate FirstBadAssetCap(self: Address, cfg: PolicyConfig, from: nat, r: PolicyRuleId) {
    exists i :: from <= i < |cfg.assetCaps| && BadAssetCap(self, cfg, cfg.assetCaps[i], r)
      && forall j, x :: from <= j < i ==> !BadAssetCap(self, cfg, cfg.assetCaps[j], x)
  }

  ghost predicate FirstBadProtocol(cfg: PolicyConfig, from: nat, r: PolicyRuleId) {
    exists i :: from <= i < |cfg.protocols| && BadProtocol(cfg, i, r)
      && forall j, x :: from <= j < i ==> !BadProtocol(cfg, j, x)
  }

  /** Stage `k` finds defect `r`. */
  ghost predicate Fails(self: Address, cfg: PolicyConfig, k: nat, r: PolicyRuleId) {
    if k == 1 then |cfg.assets| > 256 && r == AssetListTooLong
    else if k == 2 then |cfg.protocols| > 256 && r == ProtocolListTooLong
    else if k == 3 then
      (|cfg.recipients| > 256 || |cfg.recipientWindowCaps| > 256 || |cfg.blockedRecipients| > 256) && r == RecipientListTooLong
    else if k == 4 then |cfg.assetCaps| > 256 && r == AssetCapListTooLong
    else if k == 5 then (cfg.perTxCap < 0 || cfg.windowCap < 0) && r == AmountSign
    else if k == 6 then cfg.windowCap > 0 && cfg.windowSecs == 0 && r == WindowRequiresWidth
    else if k == 7 then 0 < cfg.windowCap < cfg.perTxCap && r == PerTxCapExceedsWindowCap
    else if k == 8 then 0 < cfg.activeUntil <= cfg.activeFrom && r == ActiveWindowOrder
    else if k == 9 then
      && (self in cfg.assets || self in cfg.recipients || self in cfg.blockedRecipients
          || exists rule :: rule in cfg.protocols && rule.contract == self)
      && r == SelfAddressInList
    else if k == 10 then
      (!NoDup(cfg.assets) || !NoDup(cfg.recipients) || !NoDup(cfg.blockedRecipients)) && r == DuplicateAddressInList
    else if k == 11 then !NoDup(CapRecipients(cfg.recipientWindowCaps)) && r == DuplicateRecipientCap
    else if k == 12 then FirstBadCap(self, cfg, 0, r)
    else if k == 13 then FirstBadAssetCap(self, cfg, 0, r)
    else if k == 14 then !NoDup(CapAssets(cfg.assetCaps)) && r == DuplicateAssetCap
    else if k == 15 then
      (exists x :: x in cfg.recipients && x in cfg.blockedRecipients) && r == RecipientAllowAndBlocked
    else if k == 16 then FirstBadProtocol(cfg, 0, r)
    else if k == 17 then (cfg.windowSecs > 315_360_000 || cfg.dmsGraceSecs > 315_360_000) && r == DurationExceedsBound
    else false
  }

  ghost predicate CleanBelow(self: Address, cfg: PolicyConfig, k: nat) {
    forall j, x :: 0 <= j < k ==> !Fails(self, cfg, j, x)
  }

  // ---- Each group of stages ----

  lemma ScalarStages(self: Address, cfg: PolicyConfig) returns (k: nat)
    ensures var o := ScalarRule(cfg);
      if o.Some? then k <= 8 && Fails(self, cfg, k, o.value) && CleanBelow(self, cfg, k) else CleanBelow(self, cfg, 9)
  {
    hide FirstBadCap, FirstBadAssetCap, FirstBadProtocol;
    k := if |cfg.assets| > 256 then 1 else if |cfg.protocols| > 256 then 2
         else if |cfg.recipients| > 256 || |cfg.recipientWindowCaps| > 256 || |cfg.blockedRecipients| > 256 then 3
         else if |cfg.assetCaps| > 256 then 4 else if cfg.perTxCap < 0 || cfg.windowCap < 0 then 5
         else if cfg.windowCap > 0 && cfg.windowSecs == 0 then 6
         else if 0 < cfg.windowCap < cfg.perTxCap then 7 else 8;
  }

  lemma AddressStages(self: Address, cfg: PolicyConfig) returns (k: nat)
    requires CleanBelow(self, cfg, 9)
    ensures var o := AddressRule(cfg, self);
      if o.Some? then k <= 10 && Fails(self, cfg, k, o.value) && CleanBelow(self, cfg, k) else CleanBelow(self, cfg, 11)
  {
    var rules := RuleContracts(cfg.protocols);
    assert self in rules <==> exists rule :: rule in cfg.protocols && rule.contract == self by {
      if self in rules {
        var i :| 0 <= i < |rules| && rules[i] == self;
        assert cfg.protocols[i] in cfg.protocols;
      }
      if rule :| rule in cfg.protocols && rule.contract == self {
        var i :| 0 <= i < |cfg.protocols| && cfg.protocols[i] == rule;
        assert rules[i] == self;
      }
    }
    hide FirstBadCap, FirstBadAssetCap, FirstBadProtocol;
    k := if AddressRule(cfg, self) == Some(SelfAddressInList) then 9 else 10;
  }

  lemma BadCapIs(self: Address, cfg: PolicyConfig, rc: RecipientCap)
    ensures forall r :: BadCap(self, cfg, rc, r) <==> RecipientCapRule(rc, cfg.windowSecs, self) == Some(r)
  {
  }

  lemma {:induction false} CapStage(self: Address, cfg: PolicyConfig, from: nat)
    requires from <= |cfg.recipientWindowCaps|
    ensures forall r :: FirstBadCap(self, cfg, from, r) <==>
      FirstRecipientCapRule(cfg.recipientWindowCaps[from..], cfg.windowSecs, self) == Some(r)
    decreases |cfg.recipientWindowCaps| - from
  {
    var caps := cfg.recipientWindowCaps;
    if from < |caps| {
      BadCapIs(self, cfg, caps[from]);
      CapStage(self, cfg, from + 1);
      assert caps[from..][1..] == caps[from + 1..] && caps[from..][0] == caps[from];
      hide BadCap, RecipientCapRule;
      if x :| BadCap(self, cfg, caps[from], x) {
        assert RecipientCapRule(caps[from], cfg.windowSecs, self) == Some(x);
      }
    }
  }

  lemma BadAssetCapIs(self: Address, cfg: PolicyConfig, ac: AssetCap)
    ensures forall r :: BadAssetCap(self, cfg, ac, r) <==> AssetCapRule(ac, cfg.assets, self) == Some(r)
  {
  }

  lemma {:induction false} AssetCapStage(self: Address, cfg: PolicyConfig, from: nat)
    requires from <= |cfg.assetCaps|
    ensures forall r :: FirstBadAssetCap(self, cfg, from, r) <==>
      FirstAssetCapRule(cfg.assetCaps[from..], cfg.assets, self) == Some(r)
    decreases |cfg.assetCaps| - from
  {
    var caps := cfg.assetCaps;
    if from < |caps| {
      BadAssetCapIs(self, cfg, caps[from]);
      AssetCapStage(self, cfg, from + 1);
      assert caps[from..][1..] == caps[from + 1..] && caps[from..][0] == caps[from];
      hide BadAssetCap, AssetCapRule;
      if x :| BadAssetCap(self, cfg, caps[from], x) {
        assert AssetCapRule(caps[from], cfg.assets, self) == Some(x);
      }
    }
  }

  /** What the scan says of one rule, given those before it. */
  function ProtocolRuleAt(cfg: PolicyConfig, i: nat): Option<PolicyRuleId>
    requires i < |cfg.protocols|
  {
    if cfg.protocols[i].contract in RuleContracts(cfg.protocols[..i]) then Some(ProtocolContractDuplicate)
    else if FnListInvalid(cfg.protocols[i].fns) then Some(ProtocolFnListInvalid) else None
  }

  lemma BadProtocolIs(cfg: PolicyConfig, i: nat)
    requires i < |cfg.protocols|
    ensures forall r :: BadProtocol(cfg, i, r) <==> ProtocolRuleAt(cfg, i) == Some(r)
  {
    var before := RuleContracts(cfg.protocols[..i]);
    assert forall j :: 0 <= j < i ==> before[j] == cfg.protocols[j].contract;
  }

  lemma {:induction false} ProtocolStage(cfg: PolicyConfig, from: nat)
    requires from <= |cfg.protocols|
    ensures forall r :: FirstBadProtocol(cfg, from, r) <==> FirstProtocolRule(cfg.protocols, from) == Some(r)
    decreases |cfg.protocols| - from
  {
    if from < |cfg.protocols| {
      BadProtocolIs(cfg, from);
      ProtocolStage(cfg, from + 1);
      assert FirstProtocolRule(cfg.protocols, from) ==
        if ProtocolRuleAt(cfg, from).Some? then ProtocolRuleAt(cfg, from) else FirstProtocolRule(cfg.protocols, from + 1);
      hide BadProtocol, FnListInvalid, ProtocolRuleAt, FirstProtocolRule;
      if x :| BadProtocol(cfg, from, x) {
        assert ProtocolRuleAt(cfg, from) == Some(x);
      }
    }
  }

  // ---- The order ----

  /** The later stages, by the scans that decide them. */
  lemma LaterStages(self: Address, cfg: PolicyConfig)
    ensures forall x :: Fails(self, cfg, 11, x) <==> HasDup(CapRecipients(cfg.recipientWindowCaps)) && x == DuplicateRecipientCap
    ensures forall x :: Fails(self, cfg, 12, x) <==>
      FirstRecipientCapRule(cfg.recipientWindowCaps, cfg.windowSecs, self) == Some(x)
    ensures forall x :: Fails(self, cfg, 13, x) <==> FirstAssetCapRule(cfg.assetCaps, cfg.assets, self) == Some(x)
    ensures forall x :: Fails(self, cfg, 14, x) <==> HasDup(CapAssets(cfg.assetCaps)) && x == DuplicateAssetCap
    ensures forall x :: Fails(self, cfg, 15, x) <==>
      (exists a :: a in cfg.recipients && a in cfg.blockedRecipients) && x == RecipientAllowAndBlocked
    ensures forall x :: Fails(self, cfg, 16, x) <==> FirstProtocolRule(cfg.protocols, 0) == Some(x)
    ensures forall x :: Fails(self, cfg, 17, x) <==>
      (cfg.windowSecs > MAX_WINDOW_SECS || cfg.dmsGraceSecs > MAX_DMS_GRACE_SECS) && x == DurationExceedsBound
  {
    CapStage(self, cfg, 0);
    AssetCapStage(self, cfg, 0);
    ProtocolStage(cfg, 0);
    assert cfg.recipientWindowCaps[0..] == cfg.recipientWindowCaps && cfg.assetCaps[0..] == cfg.assetCaps;
    hide FirstBadCap, FirstBadAssetCap, FirstBadProtocol, FirstProtocolRule, FirstRecipientCapRule, FirstAssetCapRule;
  }

  lemma CleanNext(self: Address, cfg: PolicyConfig, k: nat)
    requires CleanBelow(self, cfg, k) && forall x :: !Fails(self, cfg, k, x)
    ensures CleanBelow(self, cfg, k + 1)
  {
    hide Fails;
  }

  /** The stage that refuses the policy, and what it finds; all stages clean if
      nothing does. */
  lemma FirstStage(self: Address, cfg: PolicyConfig) returns (k: nat)
    ensures var o := FirstFailingRule(self, cfg);
      if o.Some? then k <= 17 && Fails(self, cfg, k, o.value) && CleanBelow(self, cfg, k) else CleanBelow(self, cfg, 18)
  {
    LaterStages(self, cfg);
    hide ScalarRule, AddressRule, Fails, FirstProtocolRule, FirstRecipientCapRule, FirstAssetCapRule, HasDup, CleanBelow;
    k := ScalarStages(self, cfg);
    if ScalarRule(cfg).Some? { return; }
    k := AddressStages(self, cfg);
    if AddressRule(cfg, self).Some? { return; }
    k := 11;
    if HasDup(CapRecipients(cfg.recipientWindowCaps)) { return; }
    CleanNext(self, cfg, 11);
    k := 12;
    if FirstRecipientCapRule(cfg.recipientWindowCaps, cfg.windowSecs, self).Some? { return; }
    CleanNext(self, cfg, 12);
    k := 13;
    if FirstAssetCapRule(cfg.assetCaps, cfg.assets, self).Some? { return; }
    CleanNext(self, cfg, 13);
    k := 14;
    if HasDup(CapAssets(cfg.assetCaps)) { return; }
    CleanNext(self, cfg, 14);
    k := 15;
    if exists a :: a in cfg.recipients && a in cfg.blockedRecipients { return; }
    CleanNext(self, cfg, 15);
    k := 16;
    if FirstProtocolRule(cfg.protocols, 0).Some? { return; }
    CleanNext(self, cfg, 16);
    k := 17;
    if cfg.windowSecs > MAX_WINDOW_SECS || cfg.dmsGraceSecs > MAX_DMS_GRACE_SECS { return; }
    CleanNext(self, cfg, 17);
  }

  lemma EarlyDefect(self: Address, cfg: PolicyConfig, k: nat, r: PolicyRuleId, x: PolicyRuleId)
    requires k <= 10 && Fails(self, cfg, k, r) && Fails(self, cfg, k, x)
    ensures r == x
  {
    hide FirstBadCap, FirstBadAssetCap, FirstBadProtocol;
  }

  lemma NoStageBeyond(self: Address, cfg: PolicyConfig, k: nat, r: PolicyRuleId)
    requires Fails(self, cfg, k, r)
    ensures k <= 17
  {
    hide FirstBadCap, FirstBadAssetCap, FirstBadProtocol;
  }

  lemma OneDefect(self: Address, cfg: PolicyConfig, k: nat, r: PolicyRuleId, x: PolicyRuleId)
    requires Fails(self, cfg, k, r) && Fails(self, cfg, k, x)
    ensures r == x
  {
    hide Fails;
    if k <= 10 {
      EarlyDefect(self, cfg, k, r, x);
    } else {
      NoStageBeyond(self, cfg, k, r);
      LaterStages(self, cfg);
      assert k == 11 || k == 12 || k == 13 || k == 14 || k == 15 || k == 16 || k == 17;
    }
  }

  /** A policy is refused by rule `r` exactly when `r` is what the first of the
      stages finds that finds anything. */
  lemma RefusedByFirstStage(self: Address, cfg: PolicyConfig, r: PolicyRuleId)
    ensures FirstFailingRule(self, cfg) == Some(r) <==>
      exists k :: 0 <= k <= 17 && Fails(self, cfg, k, r) && CleanBelow(self, cfg, k)
  {
    var k := FirstStage(self, cfg);
    hide Fails, FirstFailingRule;
    if i :| 0 <= i <= 17 && Fails(self, cfg, i, r) && CleanBelow(self, cfg, i) {
      assert FirstFailingRule(self, cfg).Some?;
      assert i == k;
      OneDefect(self, cfg, k, r, FirstFailingRule(self, cfg).value);
    }
  }
}
