/** Policy validation (src/lib.rs:368-574) on values: the first failing
    rule in the documented order, and what a policy that passes looks like. */
module ValidationSpec {
  import opened Types

  datatype PolicyRuleId =
    | AmountSign | WindowRequiresWidth | ActiveWindowOrder | SelfAddressInList
    | DuplicateAddressInList | DuplicateRecipientCap | RecipientListTooLong | RecipientCapSign
    | RecipientAllowAndBlocked | ProtocolContractDuplicate | ProtocolFnListInvalid
    | DurationExceedsBound | AssetListTooLong | ProtocolListTooLong
    | PerTxCapExceedsWindowCap | AssetCapListTooLong | AssetCapUnknownAsset | DuplicateAssetCap

  predicate HasDup<T(==)>(s: seq<T>) {
    exists i, j :: 0 <= i < j < |s| && s[i] == s[j]
  }

  function CapRecipients(caps: seq<RecipientCap>): (r: seq<Address>)
    ensures |r| == |caps| && forall i :: 0 <= i < |caps| ==> r[i] == caps[i].recipient
  {
    seq(|caps|, i requires 0 <= i < |caps| => caps[i].recipient)
  }

  function CapAssets(caps: seq<AssetCap>): (r: seq<Address>)
    ensures |r| == |caps| && forall i :: 0 <= i < |caps| ==> r[i] == caps[i].asset
  {
    seq(|caps|, i requires 0 <= i < |caps| => caps[i].asset)
  }

  function RuleContracts(rules: seq<ProtocolRule>): (r: seq<Address>)
    ensures |r| == |rules| && forall i :: 0 <= i < |rules| ==> r[i] == rules[i].contract
  {
    seq(|rules|, i requires 0 <= i < |rules| => rules[i].contract)
  }

  // ---- Rules on one entry of a list, and the first entry that breaks one ----

  function RecipientCapRule(rc: RecipientCap, width: u64, self: Address): Option<PolicyRuleId> {
    if rc.cap < 0 then Some(RecipientCapSign)
    else if rc.cap > 0 && width == 0 then Some(WindowRequiresWidth)
    else if rc.recipient == self then Some(SelfAddressInList)
    else None
  }

  function FirstRecipientCapRule(caps: seq<RecipientCap>, width: u64, self: Address): Option<PolicyRuleId> {
    if caps == [] then None
    else if RecipientCapRule(caps[0], width, self).Some? then RecipientCapRule(caps[0], width, self)
    else FirstRecipientCapRule(caps[1..], width, self)
  }

  function AssetCapRule(ac: AssetCap, assets: seq<Address>, self: Address): Option<PolicyRuleId> {
    if ac.perTxCap < 0 then Some(AmountSign)
    else if ac.asset == self then Some(SelfAddressInList)
    else if ac.asset !in assets then Some(AssetCapUnknownAsset)
    else None
  }

  function FirstAssetCapRule(caps: seq<AssetCap>, assets: seq<Address>, self: Address): Option<PolicyRuleId> {
    if caps == [] then None
    else if AssetCapRule(caps[0], assets, self).Some? then AssetCapRule(caps[0], assets, self)
    else FirstAssetCapRule(caps[1..], assets, self)
  }

  predicate FnListInvalid(fns: Option<seq<Symbol>>) {
    fns.Some? && (fns.value == [] || HasDup(fns.value))
  }

  /** From rule `i` on; a repeated contract is noticed before the rule's function list. */
  function FirstProtocolRule(rules: seq<ProtocolRule>, i: nat): Option<PolicyRuleId>
    requires i <= |rules|
    decreases |rules| - i
  {
    if i == |rules| then None
    else if rules[i].contract in RuleContracts(rules[..i]) then Some(ProtocolContractDuplicate)
    else if FnListInvalid(rules[i].fns) then Some(ProtocolFnListInvalid)
    else FirstProtocolRule(rules, i + 1)
  }

  function RecipientCapsRule(cfg: PolicyConfig, self: Address): Option<PolicyRuleId> {
    if HasDup(CapRecipients(cfg.recipientWindowCaps)) then Some(DuplicateRecipientCap)
    else FirstRecipientCapRule(cfg.recipientWindowCaps, cfg.windowSecs, self)
  }

  function AssetCapsRule(cfg: PolicyConfig, self: Address): Option<PolicyRuleId> {
    var first := FirstAssetCapRule(cfg.assetCaps, cfg.assets, self);
    if first.Some? then first
    else if HasDup(CapAssets(cfg.assetCaps)) then Some(DuplicateAssetCap)
    else None
  }

  /** The rules on lengths, amounts and the active window. */
  function ScalarRule(cfg: PolicyConfig): Option<PolicyRuleId> {
    if |cfg.assets| > MAX_POLICY_ASSETS then Some(AssetListTooLong)
    else if |cfg.protocols| > MAX_POLICY_PROTOCOLS then Some(ProtocolListTooLong)
    else if |cfg.recipients| > MAX_RECIPIENT_ENTRIES || |cfg.recipientWindowCaps| > MAX_RECIPIENT_ENTRIES
         || |cfg.blockedRecipients| > MAX_RECIPIENT_ENTRIES then Some(RecipientListTooLong)
    else if |cfg.assetCaps| > MAX_ASSET_CAP_ENTRIES then Some(AssetCapListTooLong)
    else if cfg.perTxCap < 0 || cfg.windowCap < 0 then Some(AmountSign)
    else if cfg.windowCap > 0 && cfg.windowSecs == 0 then Some(WindowRequiresWidth)
    else if cfg.perTxCap > 0 && cfg.windowCap > 0 && cfg.perTxCap > cfg.windowCap
    then Some(PerTxCapExceedsWindowCap)
    else if cfg.activeUntil != 0 && cfg.activeUntil <= cfg.activeFrom then Some(ActiveWindowOrder)
    else None
  }

  /** The rules on the plain address lists. */
  function AddressRule(cfg: PolicyConfig, self: Address): Option<PolicyRuleId> {
    if self in cfg.assets || self in RuleContracts(cfg.protocols)
       || self in cfg.recipients || self in cfg.blockedRecipients then Some(SelfAddressInList)
    else if HasDup(cfg.assets) || HasDup(cfg.recipients) || HasDup(cfg.blockedRecipients)
    then Some(DuplicateAddressInList)
    else None
  }

  function FirstFailingRule(self: Address, cfg: PolicyConfig): Option<PolicyRuleId> {
    var scalar, address := ScalarRule(cfg), AddressRule(cfg, self);
    var recipientCaps, assetCaps := RecipientCapsRule(cfg, self), AssetCapsRule(cfg, self);
    var protocols := FirstProtocolRule(cfg.protocols, 0);
    if scalar.Some? then scalar
    else if address.Some? then address
    else if recipientCaps.Some? then recipientCaps
    else if assetCaps.Some? then assetCaps
    else if exists r :: r in cfg.recipients && r in cfg.blockedRecipients then Some(RecipientAllowAndBlocked)
    else if protocols.Some? then protocols
    else if cfg.windowSecs > MAX_WINDOW_SECS || cfg.dmsGraceSecs > MAX_DMS_GRACE_SECS then Some(DurationExceedsBound)
    else None
  }

  predicate ValidPolicy(self: Address, cfg: PolicyConfig) {
    FirstFailingRule(self, cfg).None?
  }

  // ---- What a valid policy looks like ----

  predicate NoDup<T(==)>(s: seq<T>) {
    forall i, j :: 0 <= i < j < |s| ==> s[i] != s[j]
  }

  /** The policy as sets and maps: no key twice, no list over its bound, no
      amount negative, no rolling limit without a width, and no self entry. */
  predicate SoundPolicy(self: Address, cfg: PolicyConfig) {
    && |cfg.assets| <= MAX_POLICY_ASSETS && |cfg.protocols| <= MAX_POLICY_PROTOCOLS
    && |cfg.recipients| <= MAX_RECIPIENT_ENTRIES && |cfg.recipientWindowCaps| <= MAX_RECIPIENT_ENTRIES
    && |cfg.blockedRecipients| <= MAX_RECIPIENT_ENTRIES && |cfg.assetCaps| <= MAX_ASSET_CAP_ENTRIES
    && 0 <= cfg.perTxCap && 0 <= cfg.windowCap
    && (cfg.perTxCap > 0 && cfg.windowCap > 0 ==> cfg.perTxCap <= cfg.windowCap)
    && (cfg.activeUntil == 0 || cfg.activeUntil > cfg.activeFrom)
    && cfg.windowSecs <= MAX_WINDOW_SECS && cfg.dmsGraceSecs <= MAX_DMS_GRACE_SECS
    && (cfg.windowCap > 0 ==> cfg.windowSecs > 0)
    && NoDup(cfg.assets) && NoDup(cfg.recipients) && NoDup(cfg.blockedRecipients)
    && NoDup(CapRecipients(cfg.recipientWindowCaps)) && NoDup(CapAssets(cfg.assetCaps))
    && NoDup(RuleContracts(cfg.protocols))
    && self !in cfg.assets && self !in cfg.recipients && self !in cfg.blockedRecipients
    && self !in RuleContracts(cfg.protocols)
    && (forall rc :: rc in cfg.recipientWindowCaps ==>
         rc.cap >= 0 && rc.recipient != self && (rc.cap > 0 ==> cfg.windowSecs > 0))
    && (forall ac :: ac in cfg.assetCaps ==> ac.perTxCap >= 0 && ac.asset in cfg.assets)
    && (forall r :: r in cfg.recipients ==> r !in cfg.blockedRecipients)
    && (forall rule :: rule in cfg.protocols && rule.fns.Some? ==> rule.fns.value != [] && NoDup(rule.fns.value))
  }

  lemma {:induction false} RecipientCapsPass(caps: seq<RecipientCap>, width: u64, self: Address)
    ensures FirstRecipientCapRule(caps, width, self).None? <==>
      forall rc :: rc in caps ==> RecipientCapRule(rc, width, self).None?
  {
    if caps != [] {
      RecipientCapsPass(caps[1..], width, self);
      assert caps == [caps[0]] + caps[1..];
    }
  }

  lemma {:induction false} AssetCapsPass(caps: seq<AssetCap>, assets: seq<Address>, self: Address)
    ensures FirstAssetCapRule(caps, assets, self).None? <==>
      forall ac :: ac in caps ==> AssetCapRule(ac, assets, self).None?
  {
    if caps != [] {
      AssetCapsPass(caps[1..], assets, self);
      assert caps == [caps[0]] + caps[1..];
    }
  }

  lemma {:induction false} ProtocolsPass(rules: seq<ProtocolRule>, i: nat)
    requires i <= |rules|
    ensures FirstProtocolRule(rules, i).None? <==>
      forall k :: i <= k < |rules| ==> rules[k].contract !in RuleContracts(rules[..k]) && !FnListInvalid(rules[k].fns)
    decreases |rules| - i
  {
    if i < |rules| {
      ProtocolsPass(rules, i + 1);
    }
  }

  lemma FreshContracts(rules: seq<ProtocolRule>)
    ensures NoDup(RuleContracts(rules)) <==> forall k :: 0 <= k < |rules| ==> rules[k].contract !in RuleContracts(rules[..k])
  {
    var all := RuleContracts(rules);
    if NoDup(all) {
      forall k | 0 <= k < |rules| ensures rules[k].contract !in RuleContracts(rules[..k]) {
        assert forall i :: 0 <= i < k ==> RuleContracts(rules[..k])[i] == all[i] != all[k];
      }
    } else {
      var i, j :| 0 <= i < j < |all| && all[i] == all[j];
      assert RuleContracts(rules[..j])[i] == rules[j].contract;
    }
  }

  /** Validation accepts exactly the policies whose lists are sets and maps
      within their bounds. */
  lemma ValidIsSound(self: Address, cfg: PolicyConfig)
    ensures ValidPolicy(self, cfg) <==> SoundPolicy(self, cfg)
  {
    RecipientCapsPass(cfg.recipientWindowCaps, cfg.windowSecs, self);
    AssetCapsPass(cfg.assetCaps, cfg.assets, self);
    ProtocolsPass(cfg.protocols, 0);
    FreshContracts(cfg.protocols);
    hide FirstRecipientCapRule, FirstAssetCapRule, FirstProtocolRule;
    forall rule | rule in cfg.protocols
      ensures FnListInvalid(rule.fns) <==> rule.fns.Some? && (rule.fns.value == [] || !NoDup(rule.fns.value))
    {
    }
  }

  /** The kill switch is no part of validity, so flipping it in place keeps a valid policy valid. */
  lemma PausedIsFree(self: Address, cfg: PolicyConfig, paused: bool)
    ensures ValidPolicy(self, cfg.(paused := paused)) <==> ValidPolicy(self, cfg)
  {
  }
}
