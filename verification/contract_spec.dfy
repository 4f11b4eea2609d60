/** The contract of src/lib.rs on values: what is in storage, what each entry
    point does to it, and what holds of storage in every reachable state. */
module ContractSpec {
  import opened Types
  import opened LedgerSpec
  import opened EngineSpec
  import opened ValidationSpec
  import opened StagingFacts

  /** An agent public key: only equality matters. */
  datatype Key = Key(id: nat)

  /** The storage keys; an absent key is `None`. */
  datatype State = State(
    initialized: bool,
    admin: Option<Address>,
    pendingAdmin: Option<Address>,
    agentKey: Option<Key>,
    policy: Option<PolicyConfig>,
    window: Option<WindowState>,
    lastHeartbeat: Option<u64>,
    adminFrozen: Option<bool>,
    autoFrozenAt: Option<u64>,
    policyRevision: Option<u64>)

  const BLANK := State(false, None, None, None, None, None, None, None, None, None)

  function Or<T>(o: Option<T>, default: T): T {
    if o.Some? then o.value else default
  }

  function Revision(s: State): u64 { Or(s.policyRevision, 0) }

  function Heartbeat(s: State): u64 { Or(s.lastHeartbeat, 0) }

  /** The calls that change storage. `signer` is the key under which the signature
      over the payload verifies, if any: the host accepts it for the stored key
      exactly if that is the one. */
  datatype Action =
    | Initialize(admin: Address, key: Key)
    | SetPolicy(config: PolicyConfig)
    | ResetWindow
    | SetPaused(paused: bool)
    | RevokePolicy
    | RotateAgentKey(newKey: Key)
    | ProposeAdmin(nominee: Address)
    | ConfirmAdmin
    | CancelAdmin
    | Beat(contexts: seq<Context>, signer: Option<Key>)
    | Freeze
    | Unfreeze
    | RefreshDeadman
    | CheckAuth(contexts: seq<Context>, signer: Option<Key>)

  /** A call at ledger time `now`; `auths` are the addresses whose authorization
      the host has established. */
  datatype Event = Event(now: u64, auths: set<Address>, action: Action)

  /** A contract error or a host trap rolls the call back. */
  datatype Outcome = Done | Failed(error: Error) | Trapped

  datatype Result = Result(outcome: Outcome, state: State)

  // ---- Authorization ----

  function LoadWindow(s: State): LedgerState {
    if s.window.Some? then FromState(s.window.value) else EMPTY_LEDGER
  }

  function Account(s: State): AccountState {
    AccountState(Or(s.adminFrozen, false), Heartbeat(s))
  }

  function AuthRuling(self: Address, s: State, now: u64, ctxs: seq<Context>): Ruling {
    Decide(self, s.policy, Account(s), LoadWindow(s), now, ctxs)
  }

  function FirstError(vs: seq<Decision>): (e: Option<Error>)
    ensures e.None? <==> AllAllowed(vs)
    ensures e.Some? ==> exists i :: 0 <= i < |vs| && vs[i] == Blocked(e.value) && AllAllowed(vs[..i])
  {
    if vs == [] then None
    else if vs[0].Blocked? then
      assert vs[..0] == [];
      Some(vs[0].error)
    else
      var e := FirstError(vs[1..]);
      assert e.Some? ==> exists i :: 0 <= i < |vs| && vs[i] == Blocked(e.value) && AllAllowed(vs[..i]) by {
        if e.Some? {
          var k :| 0 <= k < |vs[1..]| && vs[1..][k] == Blocked(e.value) && AllAllowed(vs[1..][..k]);
          assert vs[..k + 1] == [vs[0]] + vs[1..][..k];
          assert vs[k + 1] == Blocked(e.value) && AllAllowed(vs[..k + 1]);
        }
      }
      e
  }

  predicate HasSpendEntries(l: LedgerState) {
    l.spend.entries != [] || exists i :: 0 <= i < |l.recipients| && l.recipients[i].window.entries != []
  }

  /** The window key is written only if it was there or a spend entry is. */
  predicate SavesBack(s: State, l: LedgerState) {
    s.window.Some? || HasSpendEntries(l)
  }

  predicate SignedBy(s: State, signer: Option<Key>) {
    signer.Some? && s.agentKey == signer
  }

  function Authorize(self: Address, s: State, now: u64, ctxs: seq<Context>, signed: bool): Result {
    if s.agentKey.None? then Result(Failed(NotInitialized), s)
    else if !signed then Result(Trapped, s)
    else if s.policy.None? then Result(Failed(NoPolicy), s)
    else
      var r := AuthRuling(self, s, now, ctxs);
      var e := FirstError(r.verdicts);
      if e.Some? then Result(Failed(e.value), s)
      else Result(Done, if SavesBack(s, r.ledger) then s.(window := Some(ToState(r.ledger))) else s)
  }

  // ---- Entry points ----

  function HeartbeatContext(self: Address): Context {
    Contract(self, HEARTBEAT, [])
  }

  function BumpRevision(s: State): State {
    s.(policyRevision := Some(SatAdd(Revision(s), 1, U64_MAX)))
  }

  function Install(s: State, cfg: PolicyConfig, now: u64): State {
    var installed := BumpRevision(s.(policy := Some(cfg)));
    if s.policy.None?
    then installed.(window := Some(ToState(EMPTY_LEDGER)), lastHeartbeat := Some(now))
    else installed
  }

  /** The admin-only entry points, past the admin check. */
  function AdminStep(self: Address, s: State, now: u64, a: Action): Result
    requires s.admin.Some?
  {
    match a
    case SetPolicy(cfg) =>
      if !ValidPolicy(self, cfg) then Result(Failed(InvalidConfig), s) else Result(Done, Install(s, cfg, now))
    case ResetWindow => Result(Done, s.(window := None))
    case SetPaused(paused) =>
      if s.policy.None? then Result(Failed(NoPolicy), s)
      else if s.policy.value.paused == paused then Result(Done, s)
      else Result(Done, BumpRevision(s.(policy := Some(s.policy.value.(paused := paused)))))
    case RevokePolicy => Result(Done, BumpRevision(s.(policy := None, window := None)))
    case RotateAgentKey(k) =>
      if s.agentKey.None? then Result(Failed(NotInitialized), s) else Result(Done, s.(agentKey := Some(k)))
    case ProposeAdmin(nominee) =>
      if nominee == s.admin.value then Result(Failed(InvalidConfig), s)
      else Result(Done, s.(pendingAdmin := Some(nominee)))
    case CancelAdmin =>
      if s.pendingAdmin.None? then Result(Failed(NoPendingAdmin), s) else Result(Done, s.(pendingAdmin := None))
    case Freeze => Result(Done, s.(adminFrozen := Some(true)))
    case Unfreeze => Result(Done, s.(adminFrozen := Some(false), lastHeartbeat := Some(now)))
    case _ => Result(Done, s)
  }

  predicate AdminOnly(a: Action) {
    !(a.Initialize? || a.ConfirmAdmin? || a.Beat? || a.RefreshDeadman? || a.CheckAuth?)
  }

  function Apply(self: Address, s: State, e: Event): Result {
    if AdminOnly(e.action) then
      if s.admin.None? then Result(Failed(NotInitialized), s)
      else if s.admin.value !in e.auths then Result(Trapped, s)
      else AdminStep(self, s, e.now, e.action)
    else match e.action
      case Initialize(admin, key) =>
        if s.initialized then Result(Failed(AlreadyInitialized), s)
        else if admin !in e.auths then Result(Trapped, s)
        else Result(Done, s.(initialized := true, admin := Some(admin), agentKey := Some(key),
                             adminFrozen := Some(false), lastHeartbeat := Some(0)))
      case ConfirmAdmin =>
        if s.admin.None? then Result(Failed(NotInitialized), s)
        else if s.pendingAdmin.None? then Result(Failed(NoPendingAdmin), s)
        else if s.pendingAdmin.value !in e.auths then Result(Trapped, s)
        else Result(Done, s.(admin := s.pendingAdmin, pendingAdmin := None))
      case Beat(ctxs, signer) =>
        // `require_auth` on the account itself runs `__check_auth` on the
        // contexts of the request, the heartbeat call among them.
        if HeartbeatContext(self) !in ctxs then Result(Trapped, s)
        else
          var r := Authorize(self, s, e.now, ctxs, SignedBy(s, signer));
          if r.outcome != Done then Result(Trapped, s)
          else Result(Done, r.state.(lastHeartbeat := if Heartbeat(s) == e.now then s.lastHeartbeat else Some(e.now)))
      case RefreshDeadman =>
        if s.policy.Some? && HeartbeatLapsed(s.policy.value, Heartbeat(s), e.now) && Or(s.autoFrozenAt, 0) == 0
        then Result(Done, s.(autoFrozenAt := Some(e.now)))
        else Result(Done, s)
      case CheckAuth(ctxs, signer) => Authorize(self, s, e.now, ctxs, SignedBy(s, signer))
      case _ => Result(Done, s)
  }

  // ---- The invariant of storage ----

  /** At time `t`: an installed policy is valid, every stored window has its
      shape with exact totals, and a pending admin differs from the admin. */
  predicate Inv(self: Address, s: State, t: u64) {
    && (s.initialized <==> s.admin.Some?) && (s.initialized <==> s.agentKey.Some?)
    && (s.policy.Some? ==> s.initialized && ValidPolicy(self, s.policy.value))
    && (s.window.Some? ==> StoredCoherent(s.window.value, t))
    && (s.pendingAdmin.Some? ==> s.admin.Some? && s.pendingAdmin != s.admin)
    && Heartbeat(s) <= t
  }

  lemma InvLater(self: Address, s: State, t: u64, u: u64)
    requires Inv(self, s, t) && t <= u
    ensures Inv(self, s, u)
  {
  }

  lemma LoadCoherent(self: Address, s: State, t: u64)
    requires Inv(self, s, t)
    ensures Coherent(LoadWindow(s), t)
    ensures s.window.Some? ==> LoadWindow(s).spend == s.window.value.spend
    ensures s.window.Some? ==> LoadWindow(s).recipients == s.window.value.recipients
    ensures s.window.Some? ==> LoadWindow(s).calls.entries == s.window.value.callEntries
  {
    if s.window.Some? {
      FromStateCoherent(s.window.value, t);
    }
  }

  lemma AuthorizeKeepsInv(self: Address, s: State, now: u64, ctxs: seq<Context>, signed: bool)
    requires Inv(self, s, now)
    ensures Inv(self, Authorize(self, s, now, ctxs, signed).state, now)
    ensures var s' := Authorize(self, s, now, ctxs, signed).state; s' == s.(window := s'.window)
  {
    hide Decide, Coherent, StoredCoherent, ValidPolicy, LoadWindow, HasSpendEntries;
    LoadCoherent(self, s, now);
    DecideCoherent(self, s.policy, Account(s), LoadWindow(s), now, ctxs);
    RoundTrip(AuthRuling(self, s, now, ctxs).ledger, now);
  }

  /** Every call at a time not before the last keeps the invariant. */
  lemma ApplyKeepsInv(self: Address, s: State, e: Event, t: u64)
    requires Inv(self, s, t) && t <= e.now
    ensures Inv(self, Apply(self, s, e).state, e.now)
  {
    hide Authorize, ValidPolicy, HeartbeatLapsed;
    InvLater(self, s, t, e.now);
    if e.action.CheckAuth? || e.action.Beat? {
      AuthorizeKeepsInv(self, s, e.now, e.action.contexts, SignedBy(s, e.action.signer));
    } else if e.action.SetPaused? && s.policy.Some? {
      PausedIsFree(self, s.policy.value, e.action.paused);
    } else if e.action.SetPolicy? {
      assert StoredCoherent(ToState(EMPTY_LEDGER), e.now);
    }
  }
}
