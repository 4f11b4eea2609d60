/** The rolling ceilings over whole runs. One argument serves the global spend
    cap, every recipient override and the protocol-call limit. */
module Ceilings {
  import opened Types
  import opened WindowSpec
  import opened LedgerSpec
  import opened EngineSpec
  import opened StagingFacts
  import opened ContractSpec
  import opened Runs
  import opened SpendHistory
  import opened History
  import opened Authorized
  import opened StorageFacts
  import ListOrder

  /** At time `t` the window of kind `k` stands for history `h`. */
  ghost predicate Tracks(s: State, h: seq<Entry>, k: Kind, span: u64, t: u64) {
    && WellFormed(WindowFor(LoadWindow(s), k), Saturation(k))
    && NotAfter(WindowFor(LoadWindow(s), k).entries, t)
    && Chronicle(h, t)
    && Dominates(h, WindowFor(LoadWindow(s), k).entries, t - span)
  }

  ghost predicate TracksExactly(s: State, h: seq<Entry>, k: Kind, span: u64, t: u64) {
    Agrees(h, WindowFor(LoadWindow(s), k).entries, t - span)
  }

  // ---- What a call may do to a window ----

  /** The call removes the window key or replaces what it holds. */
  predicate Drops(self: Address, s: State, e: Event) {
    && Succeeds(self, s, e)
    && (e.action.ResetWindow? || e.action.RevokePolicy? || (e.action.SetPolicy? && s.policy.None?))
  }

  /** The authorization prunes an entry of window `k` that the span still sees. */
  predicate ForgetsAt(s: State, now: u64, k: Kind, span: u64) {
    Prunes(s, now) && Forgets(WindowFor(LoadWindow(s), k).entries, now, s.policy.value.windowSecs, span)
  }

  /** The policy limits kind `k` to at most `cap`. */
  predicate Limits(cfg: PolicyConfig, k: Kind, cap: int) {
    LimitOf(cfg, k).Some? && LimitOf(cfg, k).value <= cap
  }

  /** What the request asks of kind `k` gets into storage if let through: the
      policy limits the kind, and calls find the window key there or come with a
      transfer that is tracked. */
  predicate IsCounted(self: Address, s: State, e: Event, k: Kind)
    requires s.policy.Some? && (e.action.CheckAuth? || e.action.Beat?)
  {
    && LimitOf(s.policy.value, k).Some?
    && (k == Calls ==> s.window.Some? || AnyTracked(self, s.policy.value, e.action.contexts))
  }

  /** An authorization on the terms of the ceiling: it forgets nothing the span
      sees, and what it lets through is limited to at most `cap` and counted. All
      of it can be read off the request, the policy and the stored window
      beforehand. */
  predicate Heeds(self: Address, s: State, e: Event, k: Kind, span: u64, cap: int) {
    Authorizes(self, s, e) ==>
      && !ForgetsAt(s, e.now, k, span)
      && (Admitted(self, s, e, k) != [] ==> Limits(s.policy.value, k, cap) && IsCounted(self, s, e, k))
  }

  /** This call's admission would merge two entries of window `k`. */
  predicate MergesAt(self: Address, s: State, e: Event, k: Kind) {
    && Admitted(self, s, e, k) != []
    && IsCounted(self, s, e, k)
    && Merges(WindowFor(Opening(s, e.now), k).entries, e.now)
  }

  // ---- One authorization ----

  lemma AuthorizedEvent(self: Address, s: State, e: Event)
    requires Authorizes(self, s, e)
    ensures var r := Authorize(self, s, e.now, e.action.contexts, SignedBy(s, e.action.signer));
      r.outcome == Done && Apply(self, s, e).state.window == r.state.window
  {
    hide AuthRuling;
  }

  /** The window that an accepted authorization leaves: the opening one with one
      admission of what was let through, if that is counted. */
  lemma AuthorizedWindow(self: Address, s: State, e: Event, k: Kind)
    requires Inv(self, s, e.now) && Authorizes(self, s, e)
    requires WellFormed(WindowFor(LoadWindow(s), k), Saturation(k))
    requires k == Calls && Admitted(self, s, e, k) != [] ==> s.policy.value.protocolCallsPerWindow < U32_MAX
    ensures var xs, o := Admitted(self, s, e, k), WindowFor(Opening(s, e.now), k);
      var w' := WindowFor(LoadWindow(Apply(self, s, e).state), k);
      var limit := LimitOf(s.policy.value, k);
      && WellFormed(o, Saturation(k)) && NotAfter(o.entries, e.now) && WellFormed(w', Saturation(k))
      && Positive(xs) && AllAt(xs, e.now)
      && (xs != [] && limit.Some? ==> o.total + Sum(xs) <= limit.value <= Saturation(k))
      && w' == if xs != [] && IsCounted(self, s, e, k) then Admit(o, e.now, Sum(xs), Saturation(k)) else o
  {
    var ctxs := e.action.contexts;
    assert Admitted(self, s, e, k) == CountedAll(self, s.policy.value, e.now, k, ctxs);
    hide Inv, Apply, Authorize, Authorizes, Admitted, CountedAll, Opening, LoadWindow, WindowFor, WellFormed, Admit, LimitOf,
      AnyTracked;
    AuthorizedEvent(self, s, e);
    LeftWindow(self, s, e.now, ctxs, SignedBy(s, e.action.signer), k);
    OpeningWellFormed(self, s, e.now, k);
    assert LoadWindow(Apply(self, s, e).state) == LoadWindow(Authorize(self, s, e.now, ctxs, SignedBy(s, e.action.signer)).state) by {
      SameWindow(Apply(self, s, e).state, Authorize(self, s, e.now, ctxs, SignedBy(s, e.action.signer)).state);
    }
  }

  lemma SameWindow(s: State, t: State)
    requires s.window == t.window
    ensures LoadWindow(s) == LoadWindow(t)
  {
  }

  lemma LeftWindow(self: Address, s: State, now: u64, ctxs: seq<Context>, signed: bool, k: Kind)
    requires Inv(self, s, now) && Authorize(self, s, now, ctxs, signed).outcome == Done && s.policy.Some?
    requires WellFormed(WindowFor(LoadWindow(s), k), Saturation(k))
    requires k == Calls && CountedAll(self, s.policy.value, now, k, ctxs) != [] ==>
      s.policy.value.protocolCallsPerWindow < U32_MAX
    ensures var xs, o := CountedAll(self, s.policy.value, now, k, ctxs), WindowFor(Opening(s, now), k);
      var w' := WindowFor(LoadWindow(Authorize(self, s, now, ctxs, signed).state), k);
      var limit, kept := LimitOf(s.policy.value, k), k != Calls || s.window.Some? || AnyTracked(self, s.policy.value, ctxs);
      && WellFormed(w', Saturation(k)) && Positive(xs) && AllAt(xs, now)
      && (xs != [] && limit.Some? ==> o.total + Sum(xs) <= limit.value <= Saturation(k))
      && w' == if xs != [] && limit.Some? && kept then Admit(o, now, Sum(xs), Saturation(k)) else o
  {
    hide Inv, Authorize, CountedAll, AuthRuling, Opening, LoadWindow, WindowFor, WellFormed, Admit, Coherent, LimitOf, Evaluate,
      Commit, HasSpendEntries, AnyTracked, ToState;
    Accepted(self, s, now, ctxs, signed);
    SavedExactly(self, s, now, ctxs, signed);
    DecidedWindow(self, s, now, ctxs, signed, k);
    OpeningWellFormed(self, s, now, k);
    StoredWindow(s, Authorize(self, s, now, ctxs, signed).state, AuthRuling(self, s, now, ctxs).ledger, k, now);
    if s.window.None? {
      NoKeyOpening(s, now, k);
    }
  }

  lemma NoKeyOpening(s: State, now: u64, k: Kind)
    requires s.window.None?
    ensures WindowFor(Opening(s, now), k) == EMPTY_WINDOW
  {
    OpeningOfNothing(s, now);
    hide Opening;
  }

  /** Time passes and the decision opens: a window that forgets nothing the span
      sees still stands for the history. */
  lemma OpeningTracks(self: Address, s: State, h: seq<Entry>, k: Kind, span: u64, t: u64, now: u64)
    requires Inv(self, s, now) && t <= now < U64_MAX && Tracks(s, h, k, span, t) && !ForgetsAt(s, now, k, span)
    ensures var o := WindowFor(Opening(s, now), k).entries;
      && Dominates(h, o, now - span)
      && (TracksExactly(s, h, k, span, t) ==> Agrees(h, o, now - span))
  {
    hide Inv, Opening, LoadWindow, WindowFor, Prune, AccountGate, PrunesWindows, Dominates, Agrees, Forgets,
      Chronicle;
    var w := WindowFor(LoadWindow(s), k);
    OpeningWindow(s, now, k);
    SpanShrinks(h, w.entries, t - span, now - span);
    if Prunes(s, now) {
      PruneRefines(h, w, now, s.policy.value.windowSecs, span);
    }
  }

  /** Admitting `xs` at `now` within the cap keeps the history and every span. */
  lemma AdmitStep(h: seq<Entry>, xs: seq<Entry>, p: Window, now: u64, span: u64, cap: int, ceiling: int)
    requires WellFormed(p, ceiling) && NotAfter(p.entries, now) && Chronicle(h, now) && span > 0
    requires Dominates(h, p.entries, now - span) && Ceiling(h, span, cap)
    requires xs != [] && Positive(xs) && AllAt(xs, now) && p.total + Sum(xs) <= cap && p.total + Sum(xs) <= ceiling
    ensures var w' := Admit(p, now, Sum(xs), ceiling);
      && NotAfter(w'.entries, now)
      && Chronicle(h + xs, now) && Dominates(h + xs, w'.entries, now - span) && Ceiling(h + xs, span, cap)
      && (Agrees(h, p.entries, now - span) && !Merges(p.entries, now) ==> Agrees(h + xs, w'.entries, now - span))
  {
    hide Admit, Ceiling, Merges, Agrees, Since, Sum, Chronicle;
    SumNonNegative(xs);
    AdmitWellFormed(p, now, Sum(xs), ceiling);
    AdmitRefines(h, xs, p, now, ceiling, now - span);
    var w' := Admit(p, now, Sum(xs), ceiling);
    ChronicleAppend(h, xs, now);
    SinceAtMostSum(w'.entries, now - span);
    assert Since(h + xs, now - span) <= Since(w'.entries, now - span);
    CeilingStep(h, xs, now, span, cap);
  }

  lemma {:induction false} SinceAtMostSum(es: seq<Entry>, c: int)
    requires Positive(es)
    ensures Since(es, c) <= Sum(es)
  {
    if es != [] {
      SinceAtMostSum(es[1..], c);
    }
  }

  /** An accepted authorization on these terms keeps the window standing for the
      history and every span within the cap. */
  lemma AuthorizationTracks(self: Address, s: State, e: Event, h: seq<Entry>, k: Kind, span: u64, cap: int, t: u64)
    requires Inv(self, s, t) && t <= e.now < U64_MAX && span > 0 && (k == Calls ==> cap < U32_MAX)
    requires Authorizes(self, s, e) && Heeds(self, s, e, k, span, cap)
    requires Tracks(s, h, k, span, t) && Ceiling(h, span, cap)
    ensures var s', h' := Apply(self, s, e).state, h + Admitted(self, s, e, k);
      && Tracks(s', h', k, span, e.now) && Ceiling(h', span, cap)
      && (TracksExactly(s, h, k, span, t) && !MergesAt(self, s, e, k) ==> TracksExactly(s', h', k, span, e.now))
  {
    var now, xs := e.now, Admitted(self, s, e, k);
    assert k == Calls && xs != [] ==> s.policy.value.protocolCallsPerWindow < U32_MAX;
    hide Inv, Apply, Authorizes, Admitted, Opening, ForgetsAt, Admit, WindowFor, Ceiling, WellFormed, LoadWindow, LimitOf,
      Dominates, Agrees, Chronicle, Merges;
    InvLater(self, s, t, now);
    ChronicleLater(h, t, now);
    AuthorizedWindow(self, s, e, k);
    OpeningTracks(self, s, h, k, span, t, now);
    if xs != [] {
      AdmitStep(h, xs, WindowFor(Opening(s, now), k), now, span, cap, Saturation(k));
    } else {
      assert h + xs == h;
    }
  }

  lemma ChronicleLater(h: seq<Entry>, t: int, u: int)
    requires Chronicle(h, t) && t <= u
    ensures Chronicle(h, u)
  {
  }

  lemma SpanShrinks(h: seq<Entry>, es: seq<Entry>, lo: int, hi: int)
    requires lo <= hi
    ensures Dominates(h, es, lo) ==> Dominates(h, es, hi)
    ensures Agrees(h, es, lo) ==> Agrees(h, es, hi)
  {
  }

  /** Exactly when an authorization that merges nothing leaves an exact window
      exact: when it prunes no entry the span sees and what it lets through is
      counted. */
  lemma StaysExactWhen(self: Address, s: State, e: Event, h: seq<Entry>, k: Kind, span: u64, t: u64)
    requires Inv(self, s, t) && t <= e.now < U64_MAX && span > 0
    requires Authorizes(self, s, e) && !MergesAt(self, s, e, k)
    requires k == Calls && Admitted(self, s, e, k) != [] ==> s.policy.value.protocolCallsPerWindow < U32_MAX
    requires Tracks(s, h, k, span, t) && TracksExactly(s, h, k, span, t)
    ensures TracksExactly(Apply(self, s, e).state, h + Admitted(self, s, e, k), k, span, e.now) <==>
      !ForgetsAt(s, e.now, k, span) && (Admitted(self, s, e, k) == [] || IsCounted(self, s, e, k))
  {
    var now, xs := e.now, Admitted(self, s, e, k);
    assert s.policy.Some?;
    hide Inv, Apply, Authorizes, Admitted, Opening, ForgetsAt, Admit, WindowFor, WellFormed, LoadWindow, LimitOf, AnyTracked, Merges,
      Dominates, Agrees, Chronicle;
    var o, w := WindowFor(Opening(s, now), k), WindowFor(LoadWindow(s), k);
    InvLater(self, s, t, now);
    AuthorizedWindow(self, s, e, k);
    SpanShrinks(h, w.entries, t - span, now - span);
    OpeningLoses(s, now, k, span);
    if !ForgetsAt(s, now, k, span) {
      OpeningTracks(self, s, h, k, span, t, now);
    }
    AdmissionExactWhen(h, xs, w.entries, o, IsCounted(self, s, e, k), now, span, Saturation(k));
  }

  /** The same of one window: `es` before the prune, `o` after it. */
  lemma AdmissionExactWhen(h: seq<Entry>, xs: seq<Entry>, es: seq<Entry>, o: Window, limited: bool,
                           now: u64, span: u64, ceiling: int)
    requires WellFormed(o, ceiling) && NotAfter(o.entries, now) && span > 0
    requires Positive(xs) && AllAt(xs, now)
    requires xs != [] && limited ==> o.total + Sum(xs) <= ceiling && !Merges(o.entries, now)
    requires Agrees(h, es, now - span) && Since(o.entries, now - span) <= Since(es, now - span)
    requires Since(o.entries, now - span) == Since(es, now - span) ==> Agrees(h, o.entries, now - span)
    ensures var w' := if xs != [] && limited then Admit(o, now, Sum(xs), ceiling) else o;
      Agrees(h + xs, w'.entries, now - span) <==>
        Since(o.entries, now - span) == Since(es, now - span) && (xs == [] || limited)
  {
    hide Admit, WellFormed, Sum, Merges;
    AddedSince(h, xs, now, now - span);
    if xs == [] {
      assert h + xs == h;
    } else if limited {
      AdmitSince(o, now, Sum(xs), ceiling, now - span);
      if Agrees(h, o.entries, now - span) {
        AdmitRefines(h, xs, o, now, ceiling, now - span);
      }
    }
  }

  lemma AddedSince(h: seq<Entry>, xs: seq<Entry>, now: u64, c: int)
    requires Positive(xs) && AllAt(xs, now) && c < now
    ensures Since(h + xs, c) == Since(h, c) + Sum(xs) && (xs != [] ==> Sum(xs) > 0)
  {
    SinceConcat(h, xs, c);
    SinceAll(xs, c);
    SumNonNegative(xs);
  }

  lemma OpeningLoses(s: State, now: u64, k: Kind, span: u64)
    requires now < U64_MAX && WellFormed(WindowFor(LoadWindow(s), k), Saturation(k))
    ensures var o, w := WindowFor(Opening(s, now), k).entries, WindowFor(LoadWindow(s), k).entries;
      && Since(o, now - span) <= Since(w, now - span)
      && (ForgetsAt(s, now, k, span) <==> Since(o, now - span) < Since(w, now - span))
  {
    hide Opening, LoadWindow, WindowFor, AccountGate, PrunesWindows, Prune, Forgets, Since;
    OpeningWindow(s, now, k);
    if Prunes(s, now) {
      PruneForgets(WindowFor(LoadWindow(s), k), now, s.policy.value.windowSecs, span);
    }
  }

  // ---- Whole runs ----

  /** A call that authorizes nothing and drops nothing leaves the window as it
      is, policy edits and refused calls included. */
  lemma WindowKept(self: Address, s: State, e: Event)
    requires !Drops(self, s, e) && !Authorizes(self, s, e)
    ensures Apply(self, s, e).state.window == s.window
  {
    hide AuthRuling, HeartbeatLapsed, ValidationSpec.ValidPolicy;
  }

  lemma StepTracks(self: Address, s: State, e: Event, h: seq<Entry>, k: Kind, span: u64, cap: int, t: u64)
    requires Inv(self, s, t) && t <= e.now < U64_MAX && span > 0 && (k == Calls ==> cap < U32_MAX)
    requires !Drops(self, s, e) && Heeds(self, s, e, k, span, cap)
    requires Tracks(s, h, k, span, t) && Ceiling(h, span, cap)
    ensures var s', h' := Apply(self, s, e).state, h + Admitted(self, s, e, k);
      && Tracks(s', h', k, span, e.now) && Ceiling(h', span, cap)
      && (TracksExactly(s, h, k, span, t) && !MergesAt(self, s, e, k) ==> TracksExactly(s', h', k, span, e.now))
  {
    hide Inv, Apply, Drops, Heeds, WindowFor, Dominates, Agrees, Ceiling, WellFormed, Chronicle, Authorizes,
      FromState, MergesAt;
    if Authorizes(self, s, e) {
      AuthorizationTracks(self, s, e, h, k, span, cap, t);
    } else {
      WindowKept(self, s, e);
      ChronicleLater(h, t, e.now);
      assert LoadWindow(Apply(self, s, e).state) == LoadWindow(s);
      SpanShrinks(h, WindowFor(LoadWindow(s), k).entries, t - span, e.now - span);
      assert h + [] == h;
    }
  }

  /** None of the first `n` calls drops the window, and every authorization among
      them is on the terms of the ceiling. A call limit of `u32::MAX` is no
      limit: the projection saturates there. */
  ghost predicate LimitedRun(self: Address, states: seq<State>, events: seq<Event>, n: nat, k: Kind, span: u64, cap: int)
    requires n <= |events| < |states|
  {
    && span > 0 && cap >= 0 && (k == Calls ==> cap < U32_MAX)
    && forall i :: 0 <= i < n ==>
         !Drops(self, states[i], events[i]) && Heeds(self, states[i], events[i], k, span, cap) && events[i].now < U64_MAX
  }

  /** Where counting may start: spend anywhere, calls where storage has no more
      of them than their total can hold. */
  predicate Countable(s: State, k: Kind) {
    k == Calls ==> Sum(LoadWindow(s).calls.entries) <= U32_MAX
  }

  /** The window of kind `k` is empty, as after a first install or a reset. */
  predicate StartsEmpty(s: State, k: Kind) {
    WindowFor(LoadWindow(s), k) == EMPTY_WINDOW
  }

  ghost predicate MergeFree(self: Address, states: seq<State>, events: seq<Event>, n: nat, k: Kind)
    requires n <= |events| < |states|
  {
    forall i :: 0 <= i < n ==> !MergesAt(self, states[i], events[i], k)
  }

  lemma {:induction false} RunTracks(self: Address, t0: u64, states: seq<State>, events: seq<Event>, n: nat,
                                     k: Kind, span: u64, cap: int)
    requires IsRun(self, t0, states, events) && n <= |events|
    requires Inv(self, states[0], t0) && Countable(states[0], k)
    requires LimitedRun(self, states, events, n, k, span, cap)
    ensures var h := HistoryOf(self, states, events, n, k);
      && Tracks(states[n], h, k, span, Clock(t0, events, n)) && Ceiling(h, span, cap)
      && (StartsEmpty(states[0], k) && MergeFree(self, states, events, n, k) ==>
          TracksExactly(states[n], h, k, span, Clock(t0, events, n)))
  {
    hide Apply, Tracks, Ceiling, TracksExactly, Inv, Admitted, MergesAt, StepAt, Countable, StartsEmpty, Drops,
      Heeds;
    if n == 0 {
      StartTracks(self, states[0], t0, k, span, cap);
    } else {
      RunTracks(self, t0, states, events, n - 1, k, span, cap);
      NextTracks(self, t0, states, events, n, k, span, cap);
    }
  }

  lemma NextTracks(self: Address, t0: u64, states: seq<State>, events: seq<Event>, n: nat, k: Kind, span: u64, cap: int)
    requires IsRun(self, t0, states, events) && 0 < n <= |events| && Inv(self, states[0], t0)
    requires LimitedRun(self, states, events, n, k, span, cap)
    requires var h := HistoryOf(self, states, events, n - 1, k);
      Tracks(states[n - 1], h, k, span, Clock(t0, events, n - 1)) && Ceiling(h, span, cap)
    ensures var h0, h := HistoryOf(self, states, events, n - 1, k), HistoryOf(self, states, events, n, k);
      && Tracks(states[n], h, k, span, Clock(t0, events, n)) && Ceiling(h, span, cap)
      && (TracksExactly(states[n - 1], h0, k, span, Clock(t0, events, n - 1)) && MergeFree(self, states, events, n, k) ==>
          TracksExactly(states[n], h, k, span, Clock(t0, events, n)))
  {
    hide Apply, Tracks, Ceiling, TracksExactly, Inv, Admitted, MergesAt, Clock, IsRun, Drops, Heeds;
    RunStep(self, t0, states, events, n - 1);
    var s, e, h := states[n - 1], events[n - 1], HistoryOf(self, states, events, n - 1, k);
    assert HistoryOf(self, states, events, n, k) == h + Admitted(self, s, e, k);
    assert MergeFree(self, states, events, n, k) ==> !MergesAt(self, s, e, k);
    hide HistoryOf, MergeFree;
    StepTracks(self, s, e, h, k, span, cap, Clock(t0, events, n - 1));
  }

  /** Whatever the window holds at the start stands for a history of nothing. */
  lemma StartTracks(self: Address, s: State, t0: u64, k: Kind, span: u64, cap: int)
    requires Inv(self, s, t0) && Countable(s, k) && cap >= 0
    ensures Tracks(s, [], k, span, t0) && Ceiling([], span, cap)
    ensures StartsEmpty(s, k) ==> TracksExactly(s, [], k, span, t0)
  {
    hide Inv, LoadWindow;
    var w := WindowFor(LoadWindow(s), k);
    StartWellFormed(self, s, t0, k);
    forall c ensures Since([], c) == 0 <= Since(w.entries, c) {
      SinceMonotone(w.entries, c, c);
    }
  }

  lemma StartWellFormed(self: Address, s: State, t: u64, k: Kind)
    requires Inv(self, s, t) && Countable(s, k)
    ensures var w := WindowFor(LoadWindow(s), k); WellFormed(w, Saturation(k)) && NotAfter(w.entries, t)
  {
    LoadCoherent(self, s, t);
    if k.SpendTo? {
      WindowOfWellFormed(LoadWindow(s).recipients, k.recipient, t);
    } else if k == Calls && s.window.Some? {
      FromStateCoherent(s.window.value, t);
    }
  }

  lemma LimitPositive(cfg: PolicyConfig, k: Kind)
    requires LimitOf(cfg, k).Some?
    ensures LimitOf(cfg, k).value > 0
  {
    if k.SpendTo? {
      ListOrder.OverrideIsListed(cfg.recipientWindowCaps, k.recipient);
    }
  }

  /** The hard ceiling, from any state that can be reached: as long as nobody
      succeeds in dropping the window, whatever is let through is counted and
      limited to at most `cap`, and no entry the span sees is pruned, then whatever mix of
      accepted and rejected calls and policy edits, in no span `(t - span, t]`
      was more than `cap` let through. */
  lemma RollingCeiling(self: Address, t0: u64, states: seq<State>, events: seq<Event>, n: nat,
                       k: Kind, span: u64, cap: int, t: int)
    requires IsRun(self, t0, states, events) && n <= |events|
    requires Inv(self, states[0], t0) && Countable(states[0], k)
    requires LimitedRun(self, states, events, n, k, span, cap)
    ensures Rolling(HistoryOf(self, states, events, n, k), t, span) <= cap
  {
    RunTracks(self, t0, states, events, n, k, span, cap);
    hide Tracks, TracksExactly, Inv, HistoryOf, LimitedRun, MergeFree;
  }

  /** Windows at least `span` wide, or without a width, never forget anything the
      span sees. */
  lemma WideEnough(self: Address, s: State, e: Event, k: Kind, span: u64, cap: int)
    requires s.policy.Some? && Limits(s.policy.value, k, cap)
    requires s.policy.value.windowSecs == 0 || s.policy.value.windowSecs >= span
    requires k == Calls ==> s.window.Some?
    ensures Heeds(self, s, e, k, span, cap)
  {
    hide LoadWindow, WindowFor, AccountGate, PrunesWindows, Authorizes, Admitted, LimitOf;
  }

  /** The window key stays as long as nothing drops it. */
  lemma {:induction false} KeyStays(self: Address, t0: u64, states: seq<State>, events: seq<Event>, n: nat)
    requires IsRun(self, t0, states, events) && n <= |events| && states[0].window.Some?
    requires forall i :: 0 <= i < n ==> !Drops(self, states[i], events[i])
    ensures states[n].window.Some?
  {
    if n > 0 {
      hide Apply, Drops, Authorize, AuthRuling;
      var s, e := states[n - 1], events[n - 1];
      KeyStays(self, t0, states, events, n - 1);
      assert StepAt(self, states, events, n - 1);
      if Authorizes(self, s, e) {
        AuthorizedEvent(self, s, e);
        Accepted(self, s, e.now, e.action.contexts, SignedBy(s, e.action.signer));
      } else {
        WindowKept(self, s, e);
      }
    }
  }

  // ---- A quiet width ----

  /** Whatever an authorization leaves in a window is from before or from what it
      let through just now. */
  lemma AuthorizedNotAfter(self: Address, s: State, e: Event, k: Kind, c: int)
    requires Inv(self, s, e.now) && Authorizes(self, s, e)
    requires NotAfter(WindowFor(LoadWindow(s), k).entries, c) && NotAfter(Admitted(self, s, e, k), c)
    ensures NotAfter(WindowFor(LoadWindow(Apply(self, s, e).state), k).entries, c)
  {
    hide Inv, Apply, Authorizes, Admitted, Opening, LoadWindow, Admit, WellFormed, IsCounted, LimitOf;
    OpeningNotAfter(s, e.now, k, c);
    if k == Calls {
      CallsNotAfter(self, s, e, c);
    } else {
      StartWellFormed(self, s, e.now, k);
      AuthorizedWindow(self, s, e, k);
      var xs := Admitted(self, s, e, k);
      if xs != [] {
        assert xs[0].ts == e.now;
        AdmitNotAfter(WindowFor(Opening(s, e.now), k), e.now, Sum(xs), Saturation(k), c);
      }
    }
  }

  lemma OpeningNotAfter(s: State, now: u64, k: Kind, c: int)
    requires NotAfter(WindowFor(LoadWindow(s), k).entries, c)
    ensures NotAfter(WindowFor(Opening(s, now), k).entries, c)
  {
    hide Opening, LoadWindow, WindowFor, AccountGate, PrunesWindows;
    OpeningWindow(s, now, k);
    if Prunes(s, now) {
      LiveNotAfter(WindowFor(LoadWindow(s), k).entries, now, s.policy.value.windowSecs, c);
    }
  }

  lemma CallsNotAfter(self: Address, s: State, e: Event, c: int)
    requires Inv(self, s, e.now) && Authorizes(self, s, e)
    requires NotAfter(Opening(s, e.now).calls.entries, c) && NotAfter(Admitted(self, s, e, Calls), c)
    ensures NotAfter(LoadWindow(Apply(self, s, e).state).calls.entries, c)
  {
    var now, ctxs := e.now, e.action.contexts;
    assert Admitted(self, s, e, Calls) == CountedAll(self, s.policy.value, now, Calls, ctxs);
    assert Authorize(self, s, now, ctxs, true).outcome == Done && SignedBy(s, e.action.signer) by { AuthorizedEvent(self, s, e); }
    hide Inv, Apply, Authorize, Authorizes, Admitted, CountedAll, Opening, AuthRuling, CallTotalSurvives, HasSpendEntries,
      Coherent, LimitOf, AdmitCalls, Evaluate, Commit;
    AuthorizedEvent(self, s, e);
    Accepted(self, s, now, ctxs, true);
    DecidedCalls(self, s, now, ctxs);
    var l, n := AuthRuling(self, s, now, ctxs).ledger, CallsCounted(self, s.policy.value, now, ctxs);
    if n > 0 {
      CountedNow(self, s, now, ctxs);
    }
    AdmitCallsNotAfter(Opening(s, now).calls, now, n, c);
    StoredCalls(Apply(self, s, e).state, l, now);
  }

  /** Calls are counted only if some were let through, just now. */
  lemma CountedNow(self: Address, s: State, now: u64, ctxs: seq<Context>)
    requires Inv(self, s, now) && Authorize(self, s, now, ctxs, true).outcome == Done && s.policy.Some?
    requires CallsCounted(self, s.policy.value, now, ctxs) > 0
    ensures var xs := CountedAll(self, s.policy.value, now, Calls, ctxs); xs != [] && xs[0].ts == now
  {
    hide Inv, Authorize, Evaluate, Opening, CountedAll, AuthRuling, Coherent;
    Accepted(self, s, now, ctxs, true);
    OpeningCoherent(self, s, now);
    StagedIsRecorded(self, s.policy.value, Opening(s, now), now, ctxs, Calls);
  }

  lemma StoredCalls(s: State, l: LedgerState, now: u64)
    requires Coherent(l, now) && (s.window == Some(ToState(l)) || s.window == None)
    ensures LoadWindow(s).calls.entries == l.calls.entries || LoadWindow(s).calls.entries == []
  {
    RoundTrip(l, now);
    ReloadShaped(l.calls.entries, U32_MAX);
  }

  lemma StepNoneNewer(self: Address, s: State, e: Event, h: seq<Entry>, k: Kind, t: u64)
    requires Inv(self, s, t) && t <= e.now && NoneNewer(h, WindowFor(LoadWindow(s), k).entries)
    ensures NoneNewer(h + Admitted(self, s, e, k), WindowFor(LoadWindow(Apply(self, s, e).state), k).entries)
  {
    hide Inv, Apply, Authorizes, Admitted, LoadWindow, WindowFor;
    var s' := Apply(self, s, e).state;
    var xs := Admitted(self, s, e, k);
    InvLater(self, s, t, e.now);
    forall c: int | NotAfter(h + xs, c) ensures NotAfter(WindowFor(LoadWindow(s'), k).entries, c) {
      assert NotAfter(h, c) && NotAfter(xs, c) by { NotAfterParts(h, xs, c); }
      if Authorizes(self, s, e) {
        AuthorizedNotAfter(self, s, e, k, c);
      } else if Drops(self, s, e) {
        DroppedEmpty(self, s, e, k);
      } else {
        WindowKept(self, s, e);
        SameWindow(s, s');
      }
    }
  }

  lemma NotAfterParts(a: seq<Entry>, b: seq<Entry>, c: int)
    ensures NotAfter(a + b, c) <==> NotAfter(a, c) && NotAfter(b, c)
  {
    var all := a + b;
    assert forall i :: 0 <= i < |a| ==> all[i] == a[i];
    assert forall i :: 0 <= i < |b| ==> all[|a| + i] == b[i];
  }

  lemma DroppedEmpty(self: Address, s: State, e: Event, k: Kind)
    requires Drops(self, s, e)
    ensures WindowFor(LoadWindow(Apply(self, s, e).state), k) == EMPTY_WINDOW
  {
    hide AuthRuling, HeartbeatLapsed, ValidationSpec.ValidPolicy;
  }

  /** In every run whatsoever, no window holds anything newer than what it held at
      the start and what was let through since. */
  lemma {:induction false} RunNoneNewer(self: Address, t0: u64, states: seq<State>, events: seq<Event>, n: nat, k: Kind)
    requires IsRun(self, t0, states, events) && n <= |events| && Inv(self, states[0], t0)
    ensures NoneNewer(WindowFor(LoadWindow(states[0]), k).entries + HistoryOf(self, states, events, n, k),
                      WindowFor(LoadWindow(states[n]), k).entries)
  {
    hide Apply, Inv, Admitted, LoadWindow, WindowFor, NoneNewer;
    var start := WindowFor(LoadWindow(states[0]), k).entries;
    if n == 0 {
      assert start + [] == start;
      assert NoneNewer(start, start) by { NoneNewerSelf(start); }
    } else {
      RunNoneNewer(self, t0, states, events, n - 1, k);
      RunStep(self, t0, states, events, n - 1);
      var s, e, h := states[n - 1], events[n - 1], HistoryOf(self, states, events, n - 1, k);
      StepNoneNewer(self, s, e, start + h, k, Clock(t0, events, n - 1));
      assert start + h + Admitted(self, s, e, k) == start + HistoryOf(self, states, events, n, k);
    }
  }

  lemma NoneNewerSelf(es: seq<Entry>)
    ensures NoneNewer(es, es)
  {
  }

  /** A quiet width always restores the full budget: in every run, whatever is
      edited, dropped, forgotten or uncounted in it, once what the window held at
      the start and all that was let through since is at least the width old, the
      pruned window is empty. */
  lemma QuietRestoresBudget(self: Address, t0: u64, states: seq<State>, events: seq<Event>, n: nat,
                            k: Kind, now: u64, width: u64)
    requires IsRun(self, t0, states, events) && n <= |events| && Inv(self, states[0], t0) && width > 0
    requires NotAfter(WindowFor(LoadWindow(states[0]), k).entries, now - width)
    requires NotAfter(HistoryOf(self, states, events, n, k), now - width)
    ensures Prune(WindowFor(LoadWindow(states[n]), k), now, width) == EMPTY_WINDOW
  {
    hide Inv, LoadWindow, HistoryOf, Apply, StepAt;
    var start, h := WindowFor(LoadWindow(states[0]), k).entries, HistoryOf(self, states, events, n, k);
    var w := WindowFor(LoadWindow(states[n]), k);
    RunNoneNewer(self, t0, states, events, n, k);
    NotAfterParts(start, h, now - width);
    assert NotAfter(w.entries, now - width);
    NothingLive(w.entries, now, width);
    RunKeepsInv(self, t0, states, events, n);
    LoadCoherent(self, states[n], Clock(t0, events, n));
    TotalWithinSum(LoadWindow(states[n]), Clock(t0, events, n), k);
  }

  lemma TotalWithinSum(l: LedgerState, t: u64, k: Kind)
    requires Coherent(l, t)
    ensures 0 <= WindowFor(l, k).total <= Sum(WindowFor(l, k).entries)
  {
    if k.SpendTo? {
      WindowOfWellFormed(l.recipients, k.recipient, t);
    }
    if k != Calls {
      SumNonNegative(WindowFor(l, k).entries);
    }
  }

  // ---- What the pruned total says ----

  /** Conservative refinement over the same runs, at any later time: the pruned
      total is at least what was really let through in the last `windowSecs`.
      Counted from an empty window, it equals that while no entries were merged,
      and is zero exactly when nothing was let through. */
  lemma PrunedTotalIsConservative(self: Address, t0: u64, states: seq<State>, events: seq<Event>, n: nat,
                                  k: Kind, cap: int, now: u64)
    requires IsRun(self, t0, states, events) && n <= |events|
    requires Inv(self, states[0], t0) && Countable(states[0], k)
    requires states[n].policy.Some? && Clock(t0, events, n) <= now < U64_MAX
    requires LimitedRun(self, states, events, n, k, states[n].policy.value.windowSecs, cap)
    ensures var width := states[n].policy.value.windowSecs;
      var total := Prune(WindowFor(LoadWindow(states[n]), k), now, width).total;
      var truth := Rolling(HistoryOf(self, states, events, n, k), now, width);
      && 0 <= truth <= total
      && (StartsEmpty(states[0], k) ==> (total == 0 <==> truth == 0))
      && (StartsEmpty(states[0], k) && MergeFree(self, states, events, n, k) ==> total == truth)
  {
    hide Prune, Inv, Ceiling, Agrees, Dominates, Chronicle, NoneNewer, LoadWindow, WindowFor, HistoryOf, Drops, Heeds,
      MergeFree, Rolling, StepAt, Countable, WellFormed, Clock;
    var width, t := states[n].policy.value.windowSecs, Clock(t0, events, n);
    var h, w := HistoryOf(self, states, events, n, k), WindowFor(LoadWindow(states[n]), k);
    RunTracks(self, t0, states, events, n, k, width, cap);
    RunNoneNewer(self, t0, states, events, n, k);
    assert StartsEmpty(states[0], k) ==> WindowFor(LoadWindow(states[0]), k).entries + h == h;
    PrunedBounds(h, w, now, t, width, Saturation(k));
  }

  lemma PrunedBounds(h: seq<Entry>, w: Window, now: u64, t: u64, width: u64, ceiling: int)
    requires WellFormed(w, ceiling) && NotAfter(w.entries, t) && Chronicle(h, t)
    requires t <= now < U64_MAX && width > 0 && Dominates(h, w.entries, t - width)
    ensures var total, truth := Prune(w, now, width).total, Rolling(h, now, width);
      && 0 <= truth <= total
      && (NoneNewer(h, w.entries) ==> (total == 0 <==> truth == 0))
      && (Agrees(h, w.entries, t - width) ==> total == truth)
  {
    hide Prune, Agrees, Dominates, Chronicle, Rolling, Sum;
    ChronicleLater(h, t, now);
    SpanShrinks(h, w.entries, t - width, now - width);
    PruneRefines(h, w, now, width, width);
    PruneWellFormed(w, now, width, ceiling);
    SumNonNegative(w.entries);
    PruneShaped(w, now, width, now);
    if NoneNewer(h, w.entries) {
      PruneNoneNewer(h, w, now, width);
    }
    hide NoneNewer;
    TotalBoundsRolling(h, Prune(w, now, width), now, width, ceiling);
  }
}
