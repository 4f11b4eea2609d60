/** Under a valid policy the configured lists act as sets and maps: the order
    of their entries never changes a verdict. */
module ListOrder {
  import opened Types
  import opened LedgerSpec
  import opened EngineSpec
  import opened ValidationSpec

  /** `b` is `a` with the entries of its lists in another order. */
  predicate Permuted(a: PolicyConfig, b: PolicyConfig) {
    && multiset(a.assets) == multiset(b.assets)
    && multiset(a.protocols) == multiset(b.protocols)
    && multiset(a.recipients) == multiset(b.recipients)
    && multiset(a.recipientWindowCaps) == multiset(b.recipientWindowCaps)
    && multiset(a.blockedRecipients) == multiset(b.blockedRecipients)
    && multiset(a.assetCaps) == multiset(b.assetCaps)
    && b == a.(assets := b.assets, protocols := b.protocols, recipients := b.recipients,
               recipientWindowCaps := b.recipientWindowCaps, blockedRecipients := b.blockedRecipients,
               assetCaps := b.assetCaps)
  }

  lemma SameMembers<T>(a: seq<T>, b: seq<T>, x: T)
    requires multiset(a) == multiset(b)
    ensures x in a <==> x in b
  {
    assert x in a <==> x in multiset(a);
    assert x in b <==> x in multiset(b);
  }

  // ---- Lookups see only which entries a list has ----

  lemma {:induction false} OverrideIsListed(caps: seq<RecipientCap>, r: Address)
    ensures match FirstOverride(caps, r)
      case Some(c) => RecipientCap(r, c) in caps && c > 0
      case None => forall rc :: rc in caps && rc.recipient == r ==> rc.cap <= 0
  {
    if caps != [] {
      OverrideIsListed(caps[1..], r);
      assert caps == [caps[0]] + caps[1..];
    }
  }

  lemma {:induction false} AssetCapIsListed(caps: seq<AssetCap>, asset: Address)
    ensures match FindAssetCap(caps, asset)
      case Some(ac) => ac in caps && ac.asset == asset
      case None => forall ac :: ac in caps ==> ac.asset != asset
  {
    if caps != [] {
      AssetCapIsListed(caps[1..], asset);
      assert caps == [caps[0]] + caps[1..];
    }
  }

  lemma {:induction false} RuleIsListed(rules: seq<ProtocolRule>, contract: Address)
    ensures match FindRule(rules, contract)
      case Some(rule) => rule in rules && rule.contract == contract
      case None => forall rule :: rule in rules ==> rule.contract != contract
  {
    if rules != [] {
      RuleIsListed(rules[1..], contract);
      assert rules == [rules[0]] + rules[1..];
    }
  }

  lemma OverridesAgree(a: seq<RecipientCap>, b: seq<RecipientCap>, r: Address)
    requires multiset(a) == multiset(b) && NoDup(CapRecipients(a))
    ensures FirstOverride(a, r) == FirstOverride(b, r)
  {
    OverrideIsListed(a, r);
    OverrideIsListed(b, r);
    forall rc: RecipientCap ensures rc in a <==> rc in b { SameMembers(a, b, rc); }
    UniqueCap(a);
  }

  lemma UniqueCap(a: seq<RecipientCap>)
    requires NoDup(CapRecipients(a))
    ensures forall x, y :: x in a && y in a && x.recipient == y.recipient ==> x == y
  {
    forall x, y | x in a && y in a && x.recipient == y.recipient ensures x == y {
      var i :| 0 <= i < |a| && a[i] == x;
      var j :| 0 <= j < |a| && a[j] == y;
      assert CapRecipients(a)[i] == CapRecipients(a)[j];
    }
  }

  lemma UniqueAssetCap(a: seq<AssetCap>)
    requires NoDup(CapAssets(a))
    ensures forall x, y :: x in a && y in a && x.asset == y.asset ==> x == y
  {
    forall x, y | x in a && y in a && x.asset == y.asset ensures x == y {
      var i :| 0 <= i < |a| && a[i] == x;
      var j :| 0 <= j < |a| && a[j] == y;
      assert CapAssets(a)[i] == CapAssets(a)[j];
    }
  }

  lemma UniqueRule(a: seq<ProtocolRule>)
    requires NoDup(RuleContracts(a))
    ensures forall x, y :: x in a && y in a && x.contract == y.contract ==> x == y
  {
    forall x, y | x in a && y in a && x.contract == y.contract ensures x == y {
      var i :| 0 <= i < |a| && a[i] == x;
      var j :| 0 <= j < |a| && a[j] == y;
      assert RuleContracts(a)[i] == RuleContracts(a)[j];
    }
  }

  lemma AssetCapsAgree(a: seq<AssetCap>, b: seq<AssetCap>, asset: Address)
    requires multiset(a) == multiset(b) && NoDup(CapAssets(a))
    ensures FindAssetCap(a, asset) == FindAssetCap(b, asset)
  {
    AssetCapIsListed(a, asset);
    AssetCapIsListed(b, asset);
    forall ac: AssetCap ensures ac in a <==> ac in b { SameMembers(a, b, ac); }
    UniqueAssetCap(a);
    hide FindAssetCap;
  }

  lemma RulesAgree(a: seq<ProtocolRule>, b: seq<ProtocolRule>, contract: Address)
    requires multiset(a) == multiset(b) && NoDup(RuleContracts(a))
    ensures FindRule(a, contract) == FindRule(b, contract)
  {
    RuleIsListed(a, contract);
    RuleIsListed(b, contract);
    forall rule: ProtocolRule ensures rule in a <==> rule in b { SameMembers(a, b, rule); }
    UniqueRule(a);
    hide FindRule;
  }

  // ---- So evaluation does not see the order ----

  lemma ContextAgrees(self: Address, a: PolicyConfig, b: PolicyConfig, l: LedgerState, stg: Staging, now: u64, c: Context)
    requires ValidPolicy(self, a) && Permuted(a, b)
    ensures EvalContext(self, a, l, stg, now, c) == EvalContext(self, b, l, stg, now, c)
  {
    ValidIsSound(self, a);
    hide ValidPolicy, FindRule, FindAssetCap, FirstOverride;
    if c.Contract? {
      SameMembers(a.assets, b.assets, c.contract);
      RulesAgree(a.protocols, b.protocols, c.contract);
      AssetCapsAgree(a.assetCaps, b.assetCaps, c.contract);
      var call := ParseCall(self, c, a);
      if call.AssetTransfer? {
        SameMembers(a.recipients, b.recipients, call.to);
        SameMembers(a.blockedRecipients, b.blockedRecipients, call.to);
        OverridesAgree(a.recipientWindowCaps, b.recipientWindowCaps, call.to);
      }
    }
  }

  lemma {:induction false} EvaluationAgrees(self: Address, a: PolicyConfig, b: PolicyConfig, l: LedgerState, now: u64, ctxs: seq<Context>)
    requires ValidPolicy(self, a) && Permuted(a, b)
    ensures Evaluate(self, a, l, now, ctxs) == Evaluate(self, b, l, now, ctxs)
  {
    if ctxs != [] {
      var n := |ctxs| - 1;
      EvaluationAgrees(self, a, b, l, now, ctxs[..n]);
      ContextAgrees(self, a, b, l, Evaluate(self, a, l, now, ctxs[..n]).staging, now, ctxs[n]);
    }
  }

  /** Reordering the lists of a valid policy changes neither the verdicts nor
      the ledger of any batch. */
  lemma OrderIsIrrelevant(self: Address, a: PolicyConfig, b: PolicyConfig, st: AccountState,
                          l: LedgerState, now: u64, ctxs: seq<Context>)
    requires ValidPolicy(self, a) && Permuted(a, b)
    ensures Decide(self, Some(a), st, l, now, ctxs) == Decide(self, Some(b), st, l, now, ctxs)
  {
    assert |a.recipientWindowCaps| == |multiset(a.recipientWindowCaps)| == |b.recipientWindowCaps|;
    assert Current(a, l, now) == Current(b, l, now);
    EvaluationAgrees(self, a, b, Current(a, l, now), now, ctxs);
  }
}
