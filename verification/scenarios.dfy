/** Building blocks for runs from deployment: two plain policies, what each call
    of such a run does to storage, and what it lets through. */
module Scenarios {
  import opened Types
  import opened WindowSpec
  import opened LedgerSpec
  import opened EngineSpec
  import opened ValidationSpec
  import opened StagingFacts
  import opened ContractSpec
  import opened Runs
  import opened SpendHistory
  import opened History

  // ---- Building runs ----

  /** The calls `events` lead from `states[0]` to `s`, having let through `h`. */
  ghost predicate Reaches(self: Address, t0: u64, states: seq<State>, events: seq<Event>, k: Kind, s: State, h: seq<Entry>) {
    && IsRun(self, t0, states, events)
    && states[|events|] == s
    && HistoryOf(self, states, events, |events|, k) == h
  }

  lemma {:induction false} HistoryPrefix(self: Address, states: seq<State>, events: seq<Event>, s: State, e: Event, n: nat, k: Kind)
    requires n <= |events| < |states|
    ensures HistoryOf(self, states + [s], events + [e], n, k) == HistoryOf(self, states, events, n, k)
  {
    hide Admitted;
    if n > 0 {
      HistoryPrefix(self, states, events, s, e, n - 1, k);
      assert (states + [s])[n - 1] == states[n - 1] && (events + [e])[n - 1] == events[n - 1];
    }
  }

  /** One more call, which leads to `s'` and leaves history `h'`. */
  lemma Extend(self: Address, t0: u64, states: seq<State>, events: seq<Event>, k: Kind, s: State, h: seq<Entry>,
               e: Event, s': State, h': seq<Entry>)
    returns (states': seq<State>, events': seq<Event>)
    requires Reaches(self, t0, states, events, k, s, h) && Clock(t0, events, |events|) <= e.now
    requires Apply(self, s, e).state == s' && h + Admitted(self, s, e, k) == h'
    ensures |states| > 0 && states' == states + [s'] && |events'| == |states| && Clock(t0, events', |events'|) == e.now
    ensures Reaches(self, t0, states', events', k, s', h')
  {
    hide Apply, Admitted;
    states', events' := states + [s'], events + [e];
    HistoryPrefix(self, states, events, s', e, |events|, k);
    forall i | 0 <= i < |events'| ensures StepAt(self, states', events', i) {
      assert i < |events| ==> StepAt(self, states, events, i);
    }
    assert forall i, j :: 0 <= i < j < |events'| ==> events'[i].now <= events'[j].now;
  }

  lemma ReachesRun(self: Address, t0: u64, states: seq<State>, events: seq<Event>, k: Kind, s: State, h: seq<Entry>)
    requires Reaches(self, t0, states, events, k, s, h)
    ensures IsRun(self, t0, states, events) && |states| == |events| + 1
    ensures states[|events|] == s && HistoryOf(self, states, events, |events|, k) == h
  {
    hide HistoryOf, StepAt;
  }

  // ---- Deployment and administration ----

  /** One asset, any recipient, a spend window and nothing else. */
  function SpendPolicy(asset: Address, width: u64, cap: i128): PolicyConfig {
    PolicyConfig(0, width, cap, [asset], [], [], [], [], [], true, 0, 0, false, 0, 0)
  }

  /** One protocol, a call limit and nothing else. */
  function CallPolicy(protocol: Address, width: u64, limit: u32): PolicyConfig {
    PolicyConfig(0, width, 0, [], [ProtocolRule(protocol, None, false)], [], [], [], [], true, 0, 0, false, 0, limit)
  }

  lemma SpendPolicyValid(self: Address, asset: Address, width: u64, cap: i128)
    requires asset != self && 0 < width <= MAX_WINDOW_SECS && cap >= 0
    ensures ValidPolicy(self, SpendPolicy(asset, width, cap))
  {
    ValidIsSound(self, SpendPolicy(asset, width, cap));
    hide ValidPolicy;
  }

  lemma CallPolicyValid(self: Address, protocol: Address, width: u64, limit: u32)
    requires protocol != self && width <= MAX_WINDOW_SECS
    ensures ValidPolicy(self, CallPolicy(protocol, width, limit))
  {
    ValidIsSound(self, CallPolicy(protocol, width, limit));
    hide ValidPolicy;
  }

  /** The account after its deployment and a first install at time zero. */
  function Deployed(admin: Address, key: Key, cfg: PolicyConfig): State {
    State(true, Some(admin), None, Some(key), Some(cfg), Some(ToState(EMPTY_LEDGER)), Some(0), Some(false), None, Some(1))
  }

  lemma Deploy(self: Address, admin: Address, key: Key, cfg: PolicyConfig, k: Kind)
    returns (states: seq<State>, events: seq<Event>)
    requires ValidPolicy(self, cfg)
    ensures Reaches(self, 0, states, events, k, Deployed(admin, key, cfg), [])
    ensures |states| == 3 && states[0] == BLANK && Clock(0, events, |events|) == 0
    ensures forall i :: 0 <= i < |states| && states[i].policy.Some? ==>
      states[i].policy == Some(cfg) && states[i].window.Some?
  {
    hide Apply, Admitted, ValidPolicy, Reaches;
    var init, install := Event(0, {admin}, Initialize(admin, key)), Event(0, {admin}, SetPolicy(cfg));
    var bare := Deployed(admin, key, cfg).(policy := None, window := None, policyRevision := None);
    Deploying(self, admin, key, cfg, k);
    states, events := [BLANK], [];
    assert Reaches(self, 0, states, events, k, BLANK, []) by { NoCallsYet(self, k); }
    states, events := Extend(self, 0, states, events, k, BLANK, [], init, bare, []);
    states, events := Extend(self, 0, states, events, k, bare, [], install, Deployed(admin, key, cfg), []);
  }

  lemma NoCallsYet(self: Address, k: Kind)
    ensures Reaches(self, 0, [BLANK], [], k, BLANK, [])
  {
    hide Apply;
  }

  lemma Deploying(self: Address, admin: Address, key: Key, cfg: PolicyConfig, k: Kind)
    requires ValidPolicy(self, cfg)
    ensures var bare := Deployed(admin, key, cfg).(policy := None, window := None, policyRevision := None);
      var init, install := Event(0, {admin}, Initialize(admin, key)), Event(0, {admin}, SetPolicy(cfg));
      && Apply(self, BLANK, init).state == bare && Admitted(self, BLANK, init, k) == []
      && Apply(self, bare, install).state == Deployed(admin, key, cfg) && Admitted(self, bare, install, k) == []
  {
    hide ValidPolicy;
  }

  /** An edit by the admin changes the policy and the revision, nothing else. */
  lemma Edited(self: Address, s: State, now: u64, cfg: PolicyConfig, k: Kind)
    requires s.admin.Some? && s.policy.Some? && ValidPolicy(self, cfg)
    ensures var e := Event(now, {s.admin.value}, SetPolicy(cfg));
      Apply(self, s, e).state == BumpRevision(s.(policy := Some(cfg))) && Admitted(self, s, e, k) == []
  {
    hide ValidPolicy;
  }

  lemma ResetStep(self: Address, s: State, now: u64, k: Kind)
    requires s.admin.Some?
    ensures var e := Event(now, {s.admin.value}, ResetWindow);
      Apply(self, s, e).state == s.(window := None) && Admitted(self, s, e, k) == []
  {
  }

  /** Revoking and installing again empties the window. */
  lemma Reinstalled(self: Address, s: State, now: u64, cfg: PolicyConfig, k: Kind)
    requires s.admin.Some? && ValidPolicy(self, cfg)
    ensures var revoke, install := Event(now, {s.admin.value}, RevokePolicy), Event(now, {s.admin.value}, SetPolicy(cfg));
      var bare := BumpRevision(s.(policy := None, window := None));
      && Apply(self, s, revoke).state == bare && Admitted(self, s, revoke, k) == []
      && Apply(self, bare, install).state
         == BumpRevision(bare.(policy := Some(cfg), window := Some(ToState(EMPTY_LEDGER)), lastHeartbeat := Some(now)))
      && Admitted(self, bare, install, k) == []
  {
    hide ValidPolicy;
  }

  // ---- Requests with one context ----

  /** A call signed with the agent's key. */
  function Request(s: State, now: u64, c: Context): Event {
    Event(now, {}, CheckAuth([c], s.agentKey))
  }

  lemma CountedOne(self: Address, cfg: PolicyConfig, now: u64, k: Kind, c: Context)
    ensures CountedAll(self, cfg, now, k, [c]) == Counted(self, cfg, now, k, c)
  {
    assert [c][..0] == [];
    assert CountedAll(self, cfg, now, k, []) == [];
    hide Counted;
  }

  /** The account is ready under `cfg`, and its window loads as `l`. */
  predicate Ready(s: State, cfg: PolicyConfig, l: LedgerState) {
    && s.admin.Some? && s.agentKey.Some? && s.policy == Some(cfg)
    && !Or(s.adminFrozen, false) && !cfg.paused && cfg.dmsGraceSecs == 0 && cfg.activeFrom == 0 == cfg.activeUntil
    && s.window.Some? && LoadWindow(s) == l
  }

  /** One allowed context: what is staged for it is committed and written. */
  lemma OneAccepted(self: Address, s: State, cfg: PolicyConfig, l: LedgerState, now: u64, c: Context, stg: Staging)
    requires Ready(s, cfg, l)
    requires EvalContext(self, cfg, Current(cfg, l, now), NOTHING_STAGED, now, c) == Step(Allowed, stg)
    ensures Apply(self, s, Request(s, now, c)) == Result(Done, s.(window := Some(ToState(Commit(Current(cfg, l, now), stg, now)))))
    ensures forall k :: Admitted(self, s, Request(s, now, c), k) == Counted(self, cfg, now, k, c)
  {
    hide EvalContext, Commit, Current;
    EvaluateOne(self, cfg, Current(cfg, l, now), now, c);
    assert AuthRuling(self, s, now, [c]) == Ruling([Allowed], Commit(Current(cfg, l, now), stg, now)) by {
      hide LoadWindow, Evaluate;
    }
    hide AuthRuling, HasSpendEntries, LoadWindow;
    forall k ensures CountedAll(self, cfg, now, k, [c]) == Counted(self, cfg, now, k, c) {
      CountedOne(self, cfg, now, k, c);
    }
    hide CountedAll, Counted;
  }

  // ---- Spending ----

  function Transfer(asset: Address, to: Address, amount: i128): Context {
    Contract(asset, TRANSFER, [OtherVal, AddressVal(to), I128Val(amount)])
  }

  function SpendLedger(w: Window): LedgerState {
    LedgerState(w, [], EMPTY_WINDOW)
  }

  lemma SpendCurrent(asset: Address, width: u64, cap: i128, w: Window, now: u64)
    ensures Current(SpendPolicy(asset, width, cap), SpendLedger(w), now)
      == SpendLedger(if cap > 0 then Prune(w, now, width) else w)
  {
    assert PruneRecipients([], now, width) == [];
  }

  lemma SpendLoads(s: State, w: Window)
    requires s.window == Some(ToState(SpendLedger(w))) && WellFormed(w, I128_MAX)
    ensures LoadWindow(s) == SpendLedger(w)
  {
    ReloadWellFormed(w.entries, I128_MAX);
    assert ReloadRecipients([]) == [];
  }

  /** A transfer that fits is let through; an enabled cap records it. */
  lemma SpendAccepted(self: Address, s: State, asset: Address, to: Address, amount: i128,
                      width: u64, cap: i128, w: Window, now: u64)
    requires asset != self && amount > 0 && Ready(s, SpendPolicy(asset, width, cap), SpendLedger(w))
    requires cap > 0 ==> 0 <= Prune(w, now, width).total <= cap - amount
    ensures Apply(self, s, Request(s, now, Transfer(asset, to, amount))).state == s.(window := Some(ToState(SpendLedger(
      if cap > 0 then Admit(Prune(w, now, width), now, amount, I128_MAX) else w))))
    ensures Admitted(self, s, Request(s, now, Transfer(asset, to, amount)), AllSpend) == [Entry(now, amount)]
  {
    var cfg, p := SpendPolicy(asset, width, cap), if cap > 0 then Prune(w, now, width) else w;
    var c := Transfer(asset, to, amount);
    assert ParseCall(self, c, cfg) == AssetTransfer(asset, to, amount);
    hide Prune, Admit, Ready, ParseCall, Apply, Admitted, Current;
    SpendCurrent(asset, width, cap, w, now);
    var stg := Staging(if cap > 0 then amount else 0, if cap > 0 then [Entry(now, amount)] else [], [], 0);
    assert EvalContext(self, cfg, SpendLedger(p), NOTHING_STAGED, now, c) == Step(Allowed, stg);
    OneAccepted(self, s, cfg, SpendLedger(w), now, c, stg);
    assert [Entry(now, amount)][..0] == [];
    assert AdmitAll(p, []) == p;
  }

  /** A heartbeat context spends nothing and has the window pruned. */
  lemma BeatAccepted(self: Address, s: State, asset: Address, width: u64, cap: i128, w: Window, now: u64)
    requires Ready(s, SpendPolicy(asset, width, cap), SpendLedger(w)) && cap > 0
    ensures Apply(self, s, Request(s, now, HeartbeatContext(self))).state
      == s.(window := Some(ToState(SpendLedger(Prune(w, now, width)))))
    ensures Admitted(self, s, Request(s, now, HeartbeatContext(self)), AllSpend) == []
  {
    hide Prune, Apply, Admitted, Current, Ready;
    SpendCurrent(asset, width, cap, w, now);
    OneAccepted(self, s, SpendPolicy(asset, width, cap), SpendLedger(w), now, HeartbeatContext(self), NOTHING_STAGED);
  }

  lemma TwoEntries(a: Entry, b: Entry, t: int, width: int)
    requires t - width < a.ts <= b.ts <= t
    ensures Rolling([a] + [b], t, width) == a.amount + b.amount
  {
    SinceConcat([a], [b], t - width);
    SinceConcat([a], [b], t);
    assert [a][1..] == [] && [b][1..] == [];
  }

  lemma EmptyWindow(now: u64, width: u64)
    ensures WellFormed(EMPTY_WINDOW, I128_MAX) && Prune(EMPTY_WINDOW, now, width) == EMPTY_WINDOW
  {
  }

  lemma OneEntryWindow(ts: u64, amount: i128)
    requires amount > 0
    ensures WellFormed(Window(amount, [Entry(ts, amount)]), I128_MAX)
    ensures Admit(EMPTY_WINDOW, ts, amount, I128_MAX) == Window(amount, [Entry(ts, amount)])
  {
    SumOne(ts, amount);
    hide Sum;
  }

  lemma OneEntryExpires(ts: u64, amount: i128, now: u64, width: u64)
    requires amount > 0 && 0 < width && SatAdd(ts, width, U64_MAX) <= now
    ensures Prune(Window(amount, [Entry(ts, amount)]), now, width) == EMPTY_WINDOW
  {
    hide Sum;
    var es := [Entry(ts, amount)];
    SumOne(ts, amount);
    EmptySum();
    assert es[1..] == [];
    assert Live(es, now, width) == [];
  }

  // ---- Calling ----

  function CallLedger(w: Window): LedgerState {
    LedgerState(EMPTY_WINDOW, [], w)
  }

  /** What storage holds of the calls in `es`. */
  function StoredCallEntries(es: seq<Entry>): WindowState {
    WindowState(EMPTY_WINDOW, [], es)
  }

  lemma CallsLoad(s: State, es: seq<Entry>)
    requires s.window == Some(StoredCallEntries(es)) && Positive(es)
    ensures LoadWindow(s) == CallLedger(Window(SatAdd(0, Sum(es), U32_MAX), es))
  {
    ReloadShaped(es, U32_MAX);
    assert ReloadRecipients([]) == [];
  }

  /** A call that fits is let through and counted. */
  lemma CallAccepted(self: Address, s: State, protocol: Address, fname: Symbol, width: u64, limit: u32, w: Window, now: u64)
    requires protocol != self && limit > 0 && Ready(s, CallPolicy(protocol, width, limit), CallLedger(w))
    requires 0 <= Prune(w, now, width).total && SatAdd(Prune(w, now, width).total, 1, U32_MAX) <= limit
    ensures var e := Request(s, now, Contract(protocol, fname, []));
      && Apply(self, s, e).state
         == s.(window := Some(StoredCallEntries(Admit(Prune(w, now, width), now, 1, U32_MAX).entries)))
      && Admitted(self, s, e, Calls) == [Entry(now, 1)]
  {
    var cfg, p, c := CallPolicy(protocol, width, limit), Prune(w, now, width), Contract(protocol, fname, []);
    assert FindRule(cfg.protocols, protocol) == Some(cfg.protocols[0]);
    assert ParseCall(self, c, cfg) == Protocol(protocol, fname);
    assert Current(cfg, CallLedger(w), now) == CallLedger(p) by {
      assert PruneRecipients([], now, width) == [];
    }
    hide Prune, Admit, Ready, ParseCall, Apply, Admitted, Current, FindRule;
    var stg := Staging(0, [], [], 1);
    assert EvalContext(self, cfg, CallLedger(p), NOTHING_STAGED, now, c) == Step(Allowed, stg);
    OneAccepted(self, s, cfg, CallLedger(w), now, c, stg);
    assert AdmitCalls(p, now, 0) == p;
  }
}
