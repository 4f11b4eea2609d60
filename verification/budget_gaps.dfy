/** Where the ceilings end. Each condition under which they are proved is one a
    run can break: these runs, all from deployment, let through more than the
    limit in force after a window was dropped or widened, while a cap was
    disabled, at the last second of the clock, under a call limit of `u32::MAX`
    or lowered from it, and after `reset_window` removed the key that protocol
    calls are counted under. */
module BudgetGaps {
  import opened Types
  import opened WindowSpec
  import opened LedgerSpec
  import opened EngineSpec
  import opened ValidationSpec
  import opened StagingFacts
  import opened ContractSpec
  import opened Runs
  import opened SpendHistory
  import opened History
  import opened StorageFacts
  import opened Scenarios
  import opened BatchSequence

  // ---- Spend ----

  /** The account can spend under a spend policy, and holds window `w`. */
  predicate CanSpend(s: State, asset: Address, width: u64, cap: i128, w: Window) {
    && s.admin.Some? && s.agentKey.Some? && !Or(s.adminFrozen, false)
    && s.policy == Some(SpendPolicy(asset, width, cap))
    && s.window == Some(ToState(SpendLedger(w))) && WellFormed(w, I128_MAX)
  }

  /** The next call spends `amount`. */
  lemma Spend(self: Address, states: seq<State>, events: seq<Event>, s: State, h: seq<Entry>,
              asset: Address, to: Address, amount: i128, width: u64, cap: i128, w: Window, now: u64)
    returns (states': seq<State>, events': seq<Event>, s': State)
    requires Reaches(self, 0, states, events, AllSpend, s, h) && Clock(0, events, |events|) <= now
    requires asset != self && amount > 0 && CanSpend(s, asset, width, cap, w)
    requires cap > 0 ==> 0 <= Prune(w, now, width).total <= cap - amount
    ensures |states| > 0 && states' == states + [s'] && |events'| == |states| && Clock(0, events', |events'|) == now
    ensures s' == s.(window := Some(ToState(SpendLedger(
      if cap > 0 then Admit(Prune(w, now, width), now, amount, I128_MAX) else w))))
    ensures Reaches(self, 0, states', events', AllSpend, s', h + [Entry(now, amount)])
  {
    SpendLoads(s, w);
    hide Reaches, Apply, Admitted, Prune, Admit, LoadWindow, ToState;
    SpendAccepted(self, s, asset, to, amount, width, cap, w, now);
    s' := s.(window := Some(ToState(SpendLedger(if cap > 0 then Admit(Prune(w, now, width), now, amount, I128_MAX) else w))));
    states', events' := Extend(self, 0, states, events, AllSpend, s, h, Request(s, now, Transfer(asset, to, amount)), s',
                               h + [Entry(now, amount)]);
  }

  /** The next call edits the policy. */
  lemma Edit(self: Address, states: seq<State>, events: seq<Event>, k: Kind, s: State, h: seq<Entry>, cfg: PolicyConfig, now: u64)
    returns (states': seq<State>, events': seq<Event>, s': State)
    requires Reaches(self, 0, states, events, k, s, h) && Clock(0, events, |events|) <= now
    requires s.admin.Some? && s.policy.Some? && ValidPolicy(self, cfg)
    ensures |states| > 0 && states' == states + [s'] && |events'| == |states| && Clock(0, events', |events'|) == now
    ensures s' == BumpRevision(s.(policy := Some(cfg))) && Reaches(self, 0, states', events', k, s', h)
  {
    hide Reaches, Apply, Admitted, ValidPolicy;
    Edited(self, s, now, cfg, k);
    s' := BumpRevision(s.(policy := Some(cfg)));
    assert h + [] == h;
    states', events' := Extend(self, 0, states, events, k, s, h, Event(now, {s.admin.value}, SetPolicy(cfg)), s', h);
  }

  /** Every cap, spent from deployment in second `now`. */
  lemma SpendCap(self: Address, admin: Address, key: Key, asset: Address, to: Address, width: u64, cap: i128, now: u64)
    returns (states: seq<State>, events: seq<Event>, s: State)
    requires asset != self && 0 < width <= MAX_WINDOW_SECS && cap > 0
    ensures |states| == |events| + 1 == 4 && states[0] == BLANK && Clock(0, events, |events|) == now
    ensures s == Deployed(admin, key, SpendPolicy(asset, width, cap)).(
      window := Some(ToState(SpendLedger(Window(cap, [Entry(now, cap)])))))
    ensures Reaches(self, 0, states, events, AllSpend, s, [Entry(now, cap)])
    ensures forall i :: 0 <= i < |states| && states[i].policy.Some? ==> states[i].policy == Some(SpendPolicy(asset, width, cap))
  {
    hide Reaches, Prune, Admit, ValidPolicy, WellFormed;
    SpendPolicyValid(self, asset, width, cap);
    EmptyWindow(now, width);
    OneEntryWindow(now, cap);
    states, events := Deploy(self, admin, key, SpendPolicy(asset, width, cap), AllSpend);
    states, events, s := Spend(self, states, events, Deployed(admin, key, SpendPolicy(asset, width, cap)), [],
                               asset, to, cap, width, cap, EMPTY_WINDOW, now);
    assert [] + [Entry(now, cap)] == [Entry(now, cap)];
  }

  /** Dropping the window is what it is for: revoking and installing again gives a
      fresh budget, for every cap and width. */
  lemma DroppedFreshBudget(self: Address, admin: Address, key: Key, asset: Address, to: Address, width: u64, cap: i128)
    returns (states: seq<State>, events: seq<Event>)
    requires asset != self && 0 < width <= MAX_WINDOW_SECS && cap > 0
    ensures IsRun(self, 0, states, events) && states[0] == BLANK
    ensures forall i :: 0 <= i < |states| && states[i].policy.Some? ==> states[i].policy == Some(SpendPolicy(asset, width, cap))
    ensures Rolling(HistoryOf(self, states, events, |events|, AllSpend), 1, width) == 2 * cap
  {
    hide Apply, Admitted, Prune, Admit, ValidPolicy, WellFormed, Rolling, Reaches;
    var cfg, h := SpendPolicy(asset, width, cap), [Entry(1, cap)];
    var s;
    SpendPolicyValid(self, asset, width, cap);
    EmptyWindow(1, width);
    states, events, s := SpendCap(self, admin, key, asset, to, width, cap, 1);
    Reinstalled(self, s, 1, cfg, AllSpend);
    var bare := BumpRevision(s.(policy := None, window := None));
    var again := BumpRevision(bare.(policy := Some(cfg), window := Some(ToState(EMPTY_LEDGER)), lastHeartbeat := Some(1)));
    assert h + [] == h;
    states, events := Extend(self, 0, states, events, AllSpend, s, h, Event(1, {admin}, RevokePolicy), bare, h);
    states, events := Extend(self, 0, states, events, AllSpend, bare, h, Event(1, {admin}, SetPolicy(cfg)), again, h);
    var s';
    states, events, s' := Spend(self, states, events, again, h, asset, to, cap, width, cap, EMPTY_WINDOW, 1);
    TwoEntries(Entry(1, cap), Entry(1, cap), 1, width);
    ReachesRun(self, 0, states, events, AllSpend, s', h + [Entry(1, cap)]);
  }

  /** Widening hands out a fresh budget: for every cap and every pair of widths,
      a run from deployment under that cap throughout. The cap is spent, an `Ok`
      one narrow width later stores the prune, the window is widened, and the cap
      is spent again within the wide one. */
  lemma WideningFreshBudget(self: Address, admin: Address, key: Key, asset: Address, to: Address,
                            narrow: u64, wide: u64, cap: i128)
    returns (states: seq<State>, events: seq<Event>)
    requires asset != self && 0 < narrow < wide <= MAX_WINDOW_SECS && cap > 0
    ensures IsRun(self, 0, states, events) && states[0] == BLANK
    ensures forall i :: 0 <= i < |states| && states[i].policy.Some? ==> states[i].policy.value.windowCap == cap
    ensures states[|events|].policy == Some(SpendPolicy(asset, wide, cap))
    ensures Rolling(HistoryOf(self, states, events, |events|, AllSpend), 1 + narrow, wide) == 2 * cap
  {
    hide Apply, Admitted, Prune, Admit, ValidPolicy, WellFormed, Rolling, Reaches;
    var h, spent, now := [Entry(1, cap)], Window(cap, [Entry(1, cap)]), 1 + narrow;
    var s;
    SpendPolicyValid(self, asset, wide, cap);
    OneEntryWindow(1, cap);
    OneEntryExpires(1, cap, now, narrow);
    EmptyWindow(now, wide);
    states, events, s := SpendCap(self, admin, key, asset, to, narrow, cap, 1);
    SpendLoads(s, spent);
    BeatAccepted(self, s, asset, narrow, cap, spent, now);
    assert h + [] == h;
    var idle := s.(window := Some(ToState(SpendLedger(EMPTY_WINDOW))));
    states, events := Extend(self, 0, states, events, AllSpend, s, h, Request(s, now, HeartbeatContext(self)), idle, h);
    states, events, s := Edit(self, states, events, AllSpend, idle, h, SpendPolicy(asset, wide, cap), now);
    states, events, s := Spend(self, states, events, s, h, asset, to, cap, wide, cap, EMPTY_WINDOW, now);
    TwoEntries(Entry(1, cap), Entry(now, cap), now, wide);
    ReachesRun(self, 0, states, events, AllSpend, s, h + [Entry(now, cap)]);
  }

  /** A cap that is disabled for a while does not count what passes meanwhile:
      for every cap, width and amount, a run from deployment that ends under the
      cap with the whole cap and the amount let through in one second. */
  lemma DisabledCapUncounted(self: Address, admin: Address, key: Key, asset: Address, to: Address,
                             width: u64, cap: i128, amount: i128)
    returns (states: seq<State>, events: seq<Event>)
    requires asset != self && 0 < width <= MAX_WINDOW_SECS && cap > 0 && amount > 0
    ensures IsRun(self, 0, states, events) && states[0] == BLANK
    ensures states[|events|].policy == Some(SpendPolicy(asset, width, cap))
    ensures Rolling(HistoryOf(self, states, events, |events|, AllSpend), 1, width) == cap + amount
  {
    hide Apply, Admitted, Prune, Admit, ValidPolicy, WellFormed, Rolling, Reaches;
    var h := [Entry(1, cap)];
    var s;
    SpendPolicyValid(self, asset, width, cap);
    SpendPolicyValid(self, asset, width, 0);
    OneEntryWindow(1, cap);
    states, events, s := SpendCap(self, admin, key, asset, to, width, cap, 1);
    states, events, s := Edit(self, states, events, AllSpend, s, h, SpendPolicy(asset, width, 0), 1);
    states, events, s := Spend(self, states, events, s, h, asset, to, amount, width, 0, Window(cap, [Entry(1, cap)]), 1);
    h := h + [Entry(1, amount)];
    states, events, s := Edit(self, states, events, AllSpend, s, h, SpendPolicy(asset, width, cap), 1);
    TwoEntries(Entry(1, cap), Entry(1, amount), 1, width);
    ReachesRun(self, 0, states, events, AllSpend, s, h);
  }

  // ---- The last second ----

  /** At the clock's last second every cap can be spent twice, under one policy
      from deployment on. */
  lemma LastSecondTwice(self: Address, admin: Address, key: Key, asset: Address, to: Address, width: u64, cap: i128)
    returns (states: seq<State>, events: seq<Event>)
    requires asset != self && 0 < width <= MAX_WINDOW_SECS && cap > 0
    ensures IsRun(self, 0, states, events) && states[0] == BLANK
    ensures forall i :: 0 <= i < |states| && states[i].policy.Some? ==> states[i].policy == Some(SpendPolicy(asset, width, cap))
    ensures Rolling(HistoryOf(self, states, events, |events|, AllSpend), U64_MAX, width) == 2 * cap
  {
    hide Apply, Admitted, Prune, Admit, ValidPolicy, WellFormed, Rolling, Reaches;
    var s;
    var h, w := [Entry(U64_MAX, cap)], Window(cap, [Entry(U64_MAX, cap)]);
    OneEntryWindow(U64_MAX, cap);
    OneEntryExpires(U64_MAX, cap, U64_MAX, width);
    states, events, s := SpendCap(self, admin, key, asset, to, width, cap, U64_MAX);
    states, events, s := Spend(self, states, events, s, h, asset, to, cap, width, cap, w, U64_MAX);
    TwoEntries(Entry(U64_MAX, cap), Entry(U64_MAX, cap), U64_MAX, width);
    ReachesRun(self, 0, states, events, AllSpend, s, h + [Entry(U64_MAX, cap)]);
  }

  /** And a batch of two transfers of the cap is refused in part where the two,
      one by one, both pass. */
  lemma LastSecondBatch(self: Address, st: AccountState, asset: Address, to: Address, width: u64, cap: i128)
    requires asset != self && 0 < width && cap > 0 && !st.adminFrozen
    ensures var policy, c := Some(SpendPolicy(asset, width, cap)), Transfer(asset, to, cap);
      && Decide(self, policy, st, EMPTY_LEDGER, U64_MAX, [c, c]).verdicts == [Allowed, Blocked(WindowCapExceeded)]
      && Sequential(self, policy, st, EMPTY_LEDGER, U64_MAX, [c, c]).verdicts == [Allowed, Allowed]
  {
    var cfg, c := SpendPolicy(asset, width, cap), Transfer(asset, to, cap);
    assert Current(cfg, EMPTY_LEDGER, U64_MAX) == EMPTY_LEDGER by { SpendCurrent(asset, width, cap, EMPTY_WINDOW, U64_MAX); }
    TwoCaps(self, asset, to, width, cap);
    SequenceAtTheEnd(self, Some(cfg), st, EMPTY_LEDGER, [c, c]);
    assert Alone(self, cfg, [c, c]) == [Allowed, Allowed];
    hide EvalContext, Evaluate, Current, Sequential, Alone;
  }

  lemma TwoCaps(self: Address, asset: Address, to: Address, width: u64, cap: i128)
    requires asset != self && cap > 0
    ensures var cfg, c := SpendPolicy(asset, width, cap), Transfer(asset, to, cap);
      && EvalContext(self, cfg, EMPTY_LEDGER, NOTHING_STAGED, U64_MAX, c).verdict == Allowed
      && Evaluate(self, cfg, EMPTY_LEDGER, U64_MAX, [c, c]).verdicts == [Allowed, Blocked(WindowCapExceeded)]
  {
    var cfg, c := SpendPolicy(asset, width, cap), Transfer(asset, to, cap);
    var spent := Staging(cap, [Entry(U64_MAX, cap)], [], 0);
    assert ParseCall(self, c, cfg) == AssetTransfer(asset, to, cap);
    hide ParseCall;
    assert EvalContext(self, cfg, EMPTY_LEDGER, NOTHING_STAGED, U64_MAX, c) == Step(Allowed, spent);
    assert EvalContext(self, cfg, EMPTY_LEDGER, spent, U64_MAX, c).verdict == Blocked(WindowCapExceeded);
    hide EvalContext;
    EvaluateOne(self, cfg, EMPTY_LEDGER, U64_MAX, c);
    assert [c, c][..1] == [c];
  }

  // ---- Calls under a limit of `u32::MAX` ----

  /** `m` calls at `now` after those in `es`, as they are stored. */
  function CallsAt(es: seq<Entry>, now: u64, m: nat): seq<Entry> {
    es + if m == 0 then [] else [Entry(now, SatAdd(0, m, U32_MAX))]
  }

  /** Earlier calls, still live at `now`. */
  predicate Earlier(es: seq<Entry>, now: u64, width: u64) {
    && |es| < MAX_WINDOW_ENTRIES && Positive(es) && AllLive(es, now, width)
    && forall i :: 0 <= i < |es| ==> es[i].ts < now
  }

  lemma OneMoreCall(es: seq<Entry>, now: u64, width: u64, m: nat)
    requires Earlier(es, now, width) && 0 < width && now < U64_MAX
    ensures Positive(CallsAt(es, now, m))
    ensures var w := Window(SatAdd(0, Sum(CallsAt(es, now, m)), U32_MAX), CallsAt(es, now, m));
      && w.total >= 0 && Prune(w, now, width) == w
      && Admit(w, now, 1, U32_MAX).entries == CallsAt(es, now, m + 1)
  {
    hide Prune, Sum;
    SumNonNegative(CallsAt(es, now, m));
    PruneLive(Window(SatAdd(0, Sum(CallsAt(es, now, m)), U32_MAX), CallsAt(es, now, m)), now, width);
  }

  predicate CanCall(s: State, protocol: Address, width: u64, limit: u32, es: seq<Entry>) {
    && s.admin.Some? && s.agentKey.Some? && !Or(s.adminFrozen, false)
    && s.policy == Some(CallPolicy(protocol, width, limit))
    && s.window == Some(StoredCallEntries(es)) && Positive(es)
  }

  /** The next call is a protocol call. */
  lemma Call(self: Address, states: seq<State>, events: seq<Event>, s: State, h: seq<Entry>,
             protocol: Address, fname: Symbol, width: u64, limit: u32, es: seq<Entry>, p: Window, now: u64)
    returns (states': seq<State>, events': seq<Event>, s': State)
    requires Reaches(self, 0, states, events, Calls, s, h) && Clock(0, events, |events|) <= now
    requires protocol != self && limit > 0 && CanCall(s, protocol, width, limit, es)
    requires p == Prune(Window(SatAdd(0, Sum(es), U32_MAX), es), now, width)
    requires 0 <= p.total && SatAdd(p.total, 1, U32_MAX) <= limit
    ensures |states| > 0 && states' == states + [s'] && |events'| == |states| && Clock(0, events', |events'|) == now
    ensures s' == s.(window := Some(StoredCallEntries(Admit(p, now, 1, U32_MAX).entries)))
    ensures Reaches(self, 0, states', events', Calls, s', h + [Entry(now, 1)])
  {
    CallsLoad(s, es);
    hide Reaches, Apply, Admitted, Prune, Admit, LoadWindow, Sum;
    CallAccepted(self, s, protocol, fname, width, limit, Window(SatAdd(0, Sum(es), U32_MAX), es), now);
    s' := s.(window := Some(StoredCallEntries(Admit(p, now, 1, U32_MAX).entries)));
    states', events' := Extend(self, 0, states, events, Calls, s, h, Request(s, now, Contract(protocol, fname, [])), s',
                               h + [Entry(now, 1)]);
  }

  /** Under that limit any number of calls passes in one second. */
  lemma {:induction false} ManyCalls(self: Address, states: seq<State>, events: seq<Event>, s: State, h: seq<Entry>,
                                     protocol: Address, fname: Symbol, width: u64, es: seq<Entry>, now: u64, m: nat)
    returns (states': seq<State>, events': seq<Event>, s': State, h': seq<Entry>)
    requires Reaches(self, 0, states, events, Calls, s, h) && Clock(0, events, |events|) <= now < U64_MAX
    requires protocol != self && 0 < width && Earlier(es, now, width) && CanCall(s, protocol, width, U32_MAX, es)
    ensures Reaches(self, 0, states', events', Calls, s', h') && states <= states' && Clock(0, events', |events'|) <= now
    ensures s' == s.(window := Some(StoredCallEntries(CallsAt(es, now, m))))
    ensures forall i :: |states| <= i < |states'| ==> states'[i].policy == s.policy && states'[i].window.Some?
    ensures forall cut :: Since(h', cut) == Since(h, cut) + if now > cut then m else 0
  {
    hide Reaches, Prune, Admit, Sum;
    if m == 0 {
      states', events', s', h' := states, events, s, h;
      assert CallsAt(es, now, 0) == es;
    } else {
      states', events', s', h' := ManyCalls(self, states, events, s, h, protocol, fname, width, es, now, m - 1);
      OneMoreCall(es, now, width, m - 1);
      var w := Window(SatAdd(0, Sum(CallsAt(es, now, m - 1)), U32_MAX), CallsAt(es, now, m - 1));
      forall cut ensures Since(h' + [Entry(now, 1)], cut) == Since(h', cut) + if now > cut then 1 else 0 {
        SinceConcat(h', [Entry(now, 1)], cut);
      }
      hide CallsAt, Earlier, Since;
      states', events', s' := Call(self, states', events', s', h', protocol, fname, width, U32_MAX, w.entries, w, now);
      h' := h' + [Entry(now, 1)];
    }
  }

  /** A limit of `u32::MAX` limits nothing: from deployment, under one policy and
      with the key in storage, any number of calls passes in one second. */
  lemma LimitOfMaxIsNone(self: Address, admin: Address, key: Key, protocol: Address, fname: Symbol, width: u64, n: nat)
    returns (states: seq<State>, events: seq<Event>)
    requires protocol != self && 0 < width <= MAX_WINDOW_SECS
    ensures IsRun(self, 0, states, events) && states[0] == BLANK
    ensures forall i :: 0 <= i < |states| && states[i].policy.Some? ==>
      states[i].policy == Some(CallPolicy(protocol, width, U32_MAX)) && states[i].window.Some?
    ensures Rolling(HistoryOf(self, states, events, |events|, Calls), 1, width) == n
  {
    hide ValidPolicy, Reaches, HistoryOf, Apply, IsRun;
    var cfg := CallPolicy(protocol, width, U32_MAX);
    var s, h;
    CallPolicyValid(self, protocol, width, U32_MAX);
    states, events := Deploy(self, admin, key, cfg, Calls);
    states, events, s, h := ManyCalls(self, states, events, Deployed(admin, key, cfg), [], protocol, fname, width, [], 1, n);
    ReachesRun(self, 0, states, events, Calls, s, h);
  }

  /** More calls than a `u32` holds spoil the count for good: with `u32::MAX` of
      them in each of two seconds under that limit, and the limit then lowered to
      one, two calls pass within one width, for every width of two seconds up. */
  lemma LoweredLimitMiscounts(self: Address, admin: Address, key: Key, protocol: Address, fname: Symbol, width: u64)
    returns (states: seq<State>, events: seq<Event>)
    requires protocol != self && 2 <= width <= MAX_WINDOW_SECS
    ensures IsRun(self, 0, states, events) && states[0] == BLANK
    ensures states[|events|].policy == Some(CallPolicy(protocol, width, 1))
    ensures Rolling(HistoryOf(self, states, events, |events|, Calls), 2 + width, width) == 2
  {
    hide ValidPolicy, Reaches, HistoryOf, Apply, IsRun, Prune, Admit, Since;
    var second, third, fourth := Entry(2, U32_MAX), Entry(1 + width, 1), Entry(2 + width, 1);
    var s, h;
    states, events, s, h := TwoFullSeconds(self, admin, key, protocol, fname, width);
    CallPolicyValid(self, protocol, width, 1);
    states, events, s := Edit(self, states, events, Calls, s, h, CallPolicy(protocol, width, 1), 2);
    OldestExpires(Entry(1, U32_MAX), second, 1 + width, width);
    states, events, s := Call(self, states, events, s, h, protocol, fname, width, 1, [Entry(1, U32_MAX), second],
                              Window(0, [second]), 1 + width);
    AdmitAppends(second, 1 + width);
    OldestExpires(second, third, 2 + width, width);
    states, events, s := Call(self, states, events, s, h + [third], protocol, fname, width, 1, [second, third],
                              Window(0, [third]), 2 + width);
    ReachesRun(self, 0, states, events, Calls, s, h + [third] + [fourth]);
    LastTwo(h, third, fourth, 2);
    LastTwo(h, third, fourth, 2 + width);
  }

  /** `u32::MAX` calls in each of the seconds one and two. */
  lemma TwoFullSeconds(self: Address, admin: Address, key: Key, protocol: Address, fname: Symbol, width: u64)
    returns (states: seq<State>, events: seq<Event>, s: State, h: seq<Entry>)
    requires protocol != self && 2 <= width <= MAX_WINDOW_SECS
    ensures Reaches(self, 0, states, events, Calls, s, h) && |states| > 0 && states[0] == BLANK
    ensures Clock(0, events, |events|) <= 2 && forall cut :: cut >= 2 ==> Since(h, cut) == 0
    ensures CanCall(s, protocol, width, U32_MAX, [Entry(1, U32_MAX), Entry(2, U32_MAX)])
  {
    hide ValidPolicy, Reaches, Deployed;
    var cfg := CallPolicy(protocol, width, U32_MAX);
    CallPolicyValid(self, protocol, width, U32_MAX);
    states, events := Deploy(self, admin, key, cfg, Calls);
    assert CanCall(Deployed(admin, key, cfg), protocol, width, U32_MAX, []) by { DeployedCanCall(admin, key, protocol, width); }
    states, events, s, h := ManyCalls(self, states, events, Deployed(admin, key, cfg), [], protocol, fname, width, [], 1, U32_MAX);
    assert CallsAt([], 1, U32_MAX) == [Entry(1, U32_MAX)];
    states, events, s, h := ManyCalls(self, states, events, s, h, protocol, fname, width, [Entry(1, U32_MAX)], 2, U32_MAX);
    assert CallsAt([Entry(1, U32_MAX)], 2, U32_MAX) == [Entry(1, U32_MAX), Entry(2, U32_MAX)];
  }

  lemma DeployedCanCall(admin: Address, key: Key, protocol: Address, width: u64)
    ensures CanCall(Deployed(admin, key, CallPolicy(protocol, width, U32_MAX)), protocol, width, U32_MAX, [])
  {
  }

  /** Where the total is clipped at `u32::MAX`, the oldest entry takes all of it
      along when it expires. */
  lemma OldestExpires(a: Entry, b: Entry, now: u64, width: u64)
    requires width > 0 && a.ts < b.ts && a.ts + width == now < U64_MAX && a.amount == U32_MAX && b.amount > 0
    ensures Prune(Window(SatAdd(0, Sum([a, b]), U32_MAX), [a, b]), now, width) == Window(0, [b])
  {
    assert [a, b][1..] == [b] && [b][1..] == [];
    assert Live([b], now, width) == [b] by { assert Live([], now, width) == []; }
    assert Sum([b]) == b.amount && Sum([a, b]) == a.amount + b.amount;
  }

  lemma AdmitAppends(e: Entry, now: u64)
    requires e.ts < now
    ensures Admit(Window(0, [e]), now, 1, U32_MAX).entries == [e, Entry(now, 1)]
  {
  }

  lemma LastTwo(h: seq<Entry>, a: Entry, b: Entry, c: int)
    ensures Since(h + [a] + [b], c) == Since(h, c) + (if a.ts > c then a.amount else 0) + (if b.ts > c then b.amount else 0)
  {
    SinceConcat(h + [a], [b], c);
    SinceConcat(h, [a], c);
  }

  // ---- Calls while the key is absent ----

  /** Nothing in the account or the policy stands in the way of protocol call `c`. */
  predicate Callable(self: Address, s: State, now: u64, c: Context) {
    && s.agentKey.Some? && s.policy.Some? && AccountGate(s.policy, Account(s), now).None?
    && var call := ParseCall(self, c, s.policy.value);
       call.Protocol? && ProtocolGate(s.policy.value, call.contract, call.fname).None?
  }

  /** Whatever the limit, such a call is accepted while the key is absent, and
      leaves no trace although it counts. */
  lemma CallLeavesNoTrace(self: Address, s: State, now: u64, c: Context)
    requires s.window.None? && Callable(self, s, now, c)
    ensures Apply(self, s, Request(s, now, c)) == Result(Done, s)
    ensures Admitted(self, s, Request(s, now, c), Calls) == [Entry(now, 1)]
  {
    var cfg := s.policy.value;
    var l := Current(cfg, EMPTY_LEDGER, now);
    assert l == EMPTY_LEDGER by { assert PruneRecipients([], now, cfg.windowSecs) == []; }
    EvaluateOne(self, cfg, EMPTY_LEDGER, now, c);
    assert [c][..0] == [];
    assert AuthRuling(self, s, now, [c]).verdicts == [Allowed] by { hide Commit; }
    assert Authorize(self, s, now, [c], true).outcome == Done by { hide AuthRuling; }
    assert !AnyTracked(self, cfg, [c]);
    StoredExactly(self, s, now, [c]);
    CountedOne(self, cfg, now, Calls, c);
    hide Authorize, AuthRuling, AnyTracked, CountedAll;
  }

  /** So any number of them is let through in one second. */
  lemma {:induction false} CallsWithoutKey(self: Address, t0: u64, states: seq<State>, events: seq<Event>, s: State,
                                           h: seq<Entry>, now: u64, c: Context, n: nat)
    returns (states': seq<State>, events': seq<Event>, h': seq<Entry>)
    requires Reaches(self, t0, states, events, Calls, s, h) && Clock(t0, events, |events|) <= now
    requires s.window.None? && Callable(self, s, now, c)
    ensures Reaches(self, t0, states', events', Calls, s, h') && states <= states' && Clock(t0, events', |events'|) <= now
    ensures forall i :: |states| <= i < |states'| ==> states'[i] == s
    ensures forall cut :: Since(h', cut) == Since(h, cut) + if now > cut then n else 0
  {
    hide Reaches, Callable, Apply, Admitted;
    if n == 0 {
      states', events', h' := states, events, h;
    } else {
      states', events', h' := CallsWithoutKey(self, t0, states, events, s, h, now, c, n - 1);
      CallLeavesNoTrace(self, s, now, c);
      forall cut ensures Since(h' + [Entry(now, 1)], cut) == Since(h', cut) + if now > cut then 1 else 0 {
        SinceConcat(h', [Entry(now, 1)], cut);
      }
      states', events' := Extend(self, t0, states', events', Calls, s, h', Request(s, now, c), s, h' + [Entry(now, 1)]);
      h' := h' + [Entry(now, 1)];
    }
  }

  /** From every state without the key in which one call would pass, whatever the
      positive limit and width, any number passes in one second. */
  lemma RateFailsWithoutKey(self: Address, s: State, now: u64, c: Context, n: nat)
    returns (states: seq<State>, events: seq<Event>)
    requires s.window.None? && Callable(self, s, now, c) && s.policy.value.windowSecs > 0
    ensures IsRun(self, now, states, events) && forall i :: 0 <= i < |states| ==> states[i] == s
    ensures Rolling(HistoryOf(self, states, events, |events|, Calls), now, s.policy.value.windowSecs) == n
  {
    var h;
    assert Reaches(self, now, [s], [], Calls, s, []);
    states, events, h := CallsWithoutKey(self, now, [s], [], s, [], now, c, n);
    assert states[0] == s;
    hide Callable, HistoryOf, Apply;
  }

  /** After `reset_window` the call limit stops nothing: for every limit, width
      and number, a run from deployment that makes that many calls in one second. */
  lemma RateBrokenAfterReset(self: Address, admin: Address, key: Key, protocol: Address, fname: Symbol,
                             width: u64, limit: u32, n: nat)
    returns (states: seq<State>, events: seq<Event>)
    requires protocol != self && 0 < width <= MAX_WINDOW_SECS
    ensures IsRun(self, 0, states, events) && states[0] == BLANK
    ensures forall i :: 0 <= i < |states| && states[i].policy.Some? ==>
      states[i].policy.value.protocolCallsPerWindow == limit && states[i].policy.value.windowSecs == width
    ensures Rolling(HistoryOf(self, states, events, |events|, Calls), 1, width) == n
  {
    hide Apply, Admitted, ValidPolicy, Reaches, Callable;
    var cfg := CallPolicy(protocol, width, limit);
    var s := Deployed(admin, key, cfg);
    var bare := s.(window := None);
    CallPolicyValid(self, protocol, width, limit);
    states, events := Deploy(self, admin, key, cfg, Calls);
    ResetStep(self, s, 0, Calls);
    states, events := Extend(self, 0, states, events, Calls, s, [], Event(0, {admin}, ResetWindow), bare, []);
    CallPolicyCallable(self, admin, key, protocol, fname, width, limit);
    var h;
    states, events, h := CallsWithoutKey(self, 0, states, events, bare, [], 1, Contract(protocol, fname, []), n);
    ReachesRun(self, 0, states, events, Calls, bare, h);
  }

  lemma CallPolicyCallable(self: Address, admin: Address, key: Key, protocol: Address, fname: Symbol, width: u64, limit: u32)
    requires protocol != self
    ensures Callable(self, Deployed(admin, key, CallPolicy(protocol, width, limit)).(window := None), 1,
                     Contract(protocol, fname, []))
  {
    var rules := CallPolicy(protocol, width, limit).protocols;
    assert FindRule(rules, protocol) == Some(rules[0]);
  }

}
