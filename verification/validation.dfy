/** The scanning loops of policy validation in src/lib.rs. */
module Validation {
  import opened Types
  import opened ValidationSpec

  method ScanDup<T(==)>(items: seq<T>) returns (dup: bool)
    ensures dup <==> HasDup(items)
  {
    var n := |items|;
    for i := 0 to n
      invariant forall a, b :: 0 <= a < i && a < b < n ==> items[a] != items[b]
    {
      for j := i + 1 to n
        invariant forall b :: i < b < j ==> items[i] != items[b]
      {
        if items[i] == items[j] {
          return true;
        }
      }
    }
    return false;
  }

  method ScanRecipientCaps(cfg: PolicyConfig, self: Address) returns (rule: Option<PolicyRuleId>)
    ensures rule == RecipientCapsRule(cfg, self)
  {
    var caps := cfg.recipientWindowCaps;
    ghost var keys := CapRecipients(caps);
    for i := 0 to |caps|
      invariant forall a, b :: 0 <= a < i && a < b < |caps| ==> keys[a] != keys[b]
    {
      for j := i + 1 to |caps|
        invariant forall b :: i < b < j ==> keys[i] != keys[b]
      {
        if caps[i].recipient == caps[j].recipient {
          assert keys[i] == keys[j];
          return Some(DuplicateRecipientCap);
        }
      }
    }
    assert !HasDup(keys);
    for i := 0 to |caps|
      invariant FirstRecipientCapRule(caps, cfg.windowSecs, self) == FirstRecipientCapRule(caps[i..], cfg.windowSecs, self)
    {
      var rc := caps[i];
      assert caps[i..][0] == rc && caps[i..][1..] == caps[i + 1..];
      if rc.cap < 0 { return Some(RecipientCapSign); }
      if rc.cap > 0 && cfg.windowSecs == 0 { return Some(WindowRequiresWidth); }
      if rc.recipient == self { return Some(SelfAddressInList); }
    }
    return None;
  }

  method ScanAssetCaps(cfg: PolicyConfig, self: Address) returns (rule: Option<PolicyRuleId>)
    ensures rule == AssetCapsRule(cfg, self)
  {
    var caps := cfg.assetCaps;
    for i := 0 to |caps|
      invariant FirstAssetCapRule(caps, cfg.assets, self) == FirstAssetCapRule(caps[i..], cfg.assets, self)
    {
      var ac := caps[i];
      assert caps[i..][0] == ac && caps[i..][1..] == caps[i + 1..];
      if ac.perTxCap < 0 { return Some(AmountSign); }
      if ac.asset == self { return Some(SelfAddressInList); }
      if ac.asset !in cfg.assets { return Some(AssetCapUnknownAsset); }
    }
    ghost var keys := CapAssets(caps);
    for i := 0 to |caps|
      invariant forall a, b :: 0 <= a < i && a < b < |caps| ==> keys[a] != keys[b]
    {
      for j := i + 1 to |caps|
        invariant forall b :: i < b < j ==> keys[i] != keys[b]
      {
        if caps[i].asset == caps[j].asset {
          assert keys[i] == keys[j];
          return Some(DuplicateAssetCap);
        }
      }
    }
    return None;
  }

  method ScanProtocols(cfg: PolicyConfig) returns (rule: Option<PolicyRuleId>)
    ensures rule == FirstProtocolRule(cfg.protocols, 0)
  {
    var contracts: seq<Address> := [];
    for i := 0 to |cfg.protocols|
      invariant contracts == RuleContracts(cfg.protocols[..i])
      invariant FirstProtocolRule(cfg.protocols, 0) == FirstProtocolRule(cfg.protocols, i)
    {
      var pr := cfg.protocols[i];
      for j := 0 to |contracts|
        invariant pr.contract !in contracts[..j]
      {
        if contracts[j] == pr.contract {
          return Some(ProtocolContractDuplicate);
        }
      }
      assert contracts[..|contracts|] == contracts;
      contracts := contracts + [pr.contract];
      if pr.fns.Some? {
        var dup := ScanDup(pr.fns.value);
        if pr.fns.value == [] || dup {
          return Some(ProtocolFnListInvalid);
        }
      }
    }
    return None;
  }

  /** The first rule a candidate breaks, in the documented order. */
  method ValidatePolicy(self: Address, cfg: PolicyConfig) returns (rule: Option<PolicyRuleId>)
    ensures rule == FirstFailingRule(self, cfg)
    ensures rule.None? <==> SoundPolicy(self, cfg)
  {
    ValidIsSound(self, cfg);
    if |cfg.assets| > MAX_POLICY_ASSETS { return Some(AssetListTooLong); }
    if |cfg.protocols| > MAX_POLICY_PROTOCOLS { return Some(ProtocolListTooLong); }
    if |cfg.recipients| > MAX_RECIPIENT_ENTRIES || |cfg.recipientWindowCaps| > MAX_RECIPIENT_ENTRIES
       || |cfg.blockedRecipients| > MAX_RECIPIENT_ENTRIES { return Some(RecipientListTooLong); }
    if |cfg.assetCaps| > MAX_ASSET_CAP_ENTRIES { return Some(AssetCapListTooLong); }
    if cfg.perTxCap < 0 || cfg.windowCap < 0 { return Some(AmountSign); }
    if cfg.windowCap > 0 && cfg.windowSecs == 0 { return Some(WindowRequiresWidth); }
    if cfg.perTxCap > 0 && cfg.windowCap > 0 && cfg.perTxCap > cfg.windowCap { return Some(PerTxCapExceedsWindowCap); }
    if cfg.activeUntil != 0 && cfg.activeUntil <= cfg.activeFrom { return Some(ActiveWindowOrder); }

    if self in cfg.assets { return Some(SelfAddressInList); }
    for i := 0 to |cfg.protocols|
      invariant forall k :: 0 <= k < i ==> RuleContracts(cfg.protocols)[k] != self
    {
      if cfg.protocols[i].contract == self {
        assert RuleContracts(cfg.protocols)[i] == self;
        return Some(SelfAddressInList);
      }
    }
    if self in cfg.recipients || self in cfg.blockedRecipients { return Some(SelfAddressInList); }
    var dupAssets := ScanDup(cfg.assets);
    var dupRecipients := ScanDup(cfg.recipients);
    var dupBlocked := ScanDup(cfg.blockedRecipients);
    if dupAssets || dupRecipients || dupBlocked { return Some(DuplicateAddressInList); }

    rule := ScanRecipientCaps(cfg, self);
    if rule.Some? { return; }
    rule := ScanAssetCaps(cfg, self);
    if rule.Some? { return; }
    for i := 0 to |cfg.recipients|
      invariant forall k :: 0 <= k < i ==> cfg.recipients[k] !in cfg.blockedRecipients
    {
      if cfg.recipients[i] in cfg.blockedRecipients { return Some(RecipientAllowAndBlocked); }
    }
    rule := ScanProtocols(cfg);
    if rule.Some? { return; }
    if cfg.windowSecs > MAX_WINDOW_SECS || cfg.dmsGraceSecs > MAX_DMS_GRACE_SECS { return Some(DurationExceedsBound); }
    return None;
  }
}
