/** The mutable ledger of src/window.rs: its loops, its cached totals and its
    saturating arithmetic, proved against the value-level ledger. */
module WindowLedger {
  import opened Types
  import opened WindowSpec
  import opened LedgerSpec

  /** The length of the expired prefix of an ordered list, by binary search. */
  method ExpiredPrefix(entries: seq<Entry>, now: u64, width: u64) returns (low: nat)
    ensures low <= |entries|
    ensures Ordered(entries) ==> Live(entries, now, width) == entries[low..]
  {
    low := 0;
    var high := |entries|;
    while low < high
      invariant 0 <= low <= high <= |entries|
      invariant Ordered(entries) ==> forall i :: 0 <= i < low ==> Expired(entries[i].ts, now, width)
      invariant Ordered(entries) ==> forall i :: high <= i < |entries| ==> !Expired(entries[i].ts, now, width)
    {
      var mid := low + (high - low) / 2;
      if Expired(entries[mid].ts, now, width) {
        low := mid + 1;
      } else {
        high := mid;
      }
    }
    if Ordered(entries) {
      LiveIsSuffix(entries, low, now, width);
    }
  }

  /** Drop the expired prefix of one spend window and its amounts from the total. */
  method PruneEntries(total0: i128, entries0: seq<Entry>, now: u64, width: u64)
    returns (total: int, entries: seq<Entry>)
    ensures |entries| <= |entries0| && entries == entries0[|entries0| - |entries|..]
    ensures width == 0 ==> total == total0 && entries == entries0
    ensures width > 0 && Ordered(entries0) ==> entries == Live(entries0, now, width)
    ensures WellFormed(Window(total0, entries0), I128_MAX) ==>
      Window(total, entries) == Prune(Window(total0, entries0), now, width)
  {
    hide Live, Expired;
    total, entries := total0, entries0;
    if width == 0 { return; }
    var n := |entries|;
    if n == 0 {
      NoneLive(now, width);
      return;
    }
    var low := ExpiredPrefix(entries, now, width);
    if low == n {
      total := 0;
      while entries != []
        invariant |entries| <= n && entries == entries0[n - |entries|..]
      {
        entries := entries[1..];
      }
    } else {
      total, entries := PopExpired(total, entries, low);
    }
    if WellFormed(Window(total0, entries0), I128_MAX) {
      SumNonNegative(entries);
    }
  }

  lemma NoneLive(now: u64, width: u64)
    ensures Live([], now, width) == []
  {
  }

  method PopExpired(total0: i128, entries0: seq<Entry>, k: nat) returns (total: int, entries: seq<Entry>)
    requires k <= |entries0|
    ensures entries == entries0[k..]
    ensures WellFormed(Window(total0, entries0), I128_MAX) ==> total == Sum(entries)
  {
    total, entries := total0, entries0;
    ghost var exact := WellFormed(Window(total0, entries0), I128_MAX);
    if exact {
      SumNonNegative(entries0);
    }
    for i := 0 to k
      invariant entries == entries0[i..]
      invariant exact ==> 0 <= total <= I128_MAX && total == Sum(entries)
    {
      if exact {
        SumNonNegative(entries[1..]);
        assert entries[0].amount > 0;
      }
      total := SatSubI128(total, entries[0].amount);
      entries := entries[1..];
    }
  }

  /** Drop the expired prefix of the protocol-call window by a linear scan. */
  method PruneCallEntries(total0: u32, entries0: seq<Entry>, now: u64, width: u64)
    returns (total: u32, entries: seq<Entry>)
    requires forall i :: 0 <= i < |entries0| ==> entries0[i].amount >= 0  // `u32` counts
    ensures width == 0 ==> total == total0 && entries == entries0
    ensures width > 0 && Ordered(entries0) ==> entries == Live(entries0, now, width)
    ensures Ordered(entries0) ==> Window(total, entries) == Prune(Window(total0, entries0), now, width)
  {
    total, entries := total0, entries0;
    if width == 0 { return; }
    ghost var k := 0;
    while entries != [] && Expired(entries[0].ts, now, width)
      invariant 0 <= k <= |entries0| && entries == entries0[k..]
      invariant forall i :: 0 <= i < k ==> Expired(entries0[i].ts, now, width)
      invariant Sum(entries0) - Sum(entries) >= 0
      invariant total == SatSub(total0, Sum(entries0) - Sum(entries))
      decreases |entries|
    {
      assert entries[0] == entries0[k];
      total := SatSub(total, entries[0].amount);
      entries := entries[1..];
      k := k + 1;
    }
    if Ordered(entries0) {
      assert AllLive(entries0[k..], now, width) by {
        if k < |entries0| {
          assert entries[0] == entries0[k];
        }
      }
      LiveIsSuffix(entries0, k, now, width);
    }
  }

  /** Record `amount` at `now`, coalescing and merging forward. Serves spends
      and protocol calls, which differ in `ceiling`. Reports a merged entry. */
  method AdmitToLedger(total0: int, entries0: seq<Entry>, now: u64, amount: int, ceiling: int)
    returns (total: int, entries: seq<Entry>, merged: Option<Entry>)
    ensures Window(total, entries) == Admit(Window(total0, entries0), now, amount, ceiling)
    ensures merged == if Merges(entries0, now) then Some(entries[0]) else None
  {
    total, entries, merged := total0, entries0, None;
    var n := |entries|;
    if n > 0 {
      var last := entries[n - 1];
      if last.ts == now {
        entries := entries[n - 1 := Entry(now, SatAdd(last.amount, amount, ceiling))];
        total := SatAdd(total, amount, ceiling);
        return;
      }
    }
    entries := entries + [Entry(now, amount)];
    total := SatAdd(total, amount, ceiling);
    if |entries| > MAX_WINDOW_ENTRIES {
      var older := entries[0];
      entries := entries[1..];
      var newer := entries[0];
      entries := entries[1..];
      entries := [Entry(newer.ts, SatAdd(older.amount, newer.amount, ceiling))] + entries;
      merged := Some(entries[0]);
    }
  }

  /** Rebuild a window from stored entries, dropping non-positive amounts. */
  method LedgerFromEntries(stored: seq<Entry>, ceiling: int) returns (total: int, clean: seq<Entry>)
    ensures Window(total, clean) == Reload(stored, ceiling)
  {
    total, clean := 0, [];
    var entries := stored;
    while entries != []
      invariant |entries| <= |stored| && entries == stored[|stored| - |entries|..]
      invariant Window(total, clean) == Reload(stored[..|stored| - |entries|], ceiling)
      decreases |entries|
    {
      var e := entries[0];
      ghost var k := |stored| - |entries|;
      assert e == stored[k] && stored[..k + 1][..k] == stored[..k];
      entries := entries[1..];
      if e.amount > 0 {
        total := SatAdd(total, e.amount, ceiling);
        clean := clean + [e];
      }
    }
    assert stored[..|stored|] == stored;
  }

  class Ledger {
    var total: int
    var entries: seq<Entry>
    var recipients: seq<RecipientWindow>
    var callEntries: seq<Entry>
    var callTotal: int

    ghost function View(): LedgerState
      reads this
    {
      LedgerState(Window(total, entries), recipients, Window(callTotal, callEntries))
    }

    /** Every window has its shape, spend totals are exact and fit, and no
        entry is later than `t`. */
    ghost predicate Valid(t: int)
      reads this
    {
      Coherent(View(), t)
    }

    constructor Empty()
      ensures View() == EMPTY_LEDGER && forall t :: Valid(t)
    {
      total, entries, recipients, callEntries, callTotal := 0, [], [], [], 0;
    }

    constructor FromState(state: WindowState)
      ensures View() == LedgerSpec.FromState(state)
    {
      var spendTotal, spendEntries := LedgerFromEntries(state.spend.entries, I128_MAX);
      var rs: seq<RecipientWindow> := [];
      for i := 0 to |state.recipients|
        invariant |rs| == i
        invariant rs == ReloadRecipients(state.recipients)[..i]
      {
        var t, es := LedgerFromEntries(state.recipients[i].window.entries, I128_MAX);
        rs := rs + [RecipientWindow(state.recipients[i].recipient, Window(t, es))];
      }
      var ct, ces := LedgerFromEntries(state.callEntries, U32_MAX);
      total, entries, recipients := spendTotal, spendEntries, rs;
      callEntries, callTotal := ces, ct;
    }

    method ToState() returns (state: WindowState)
      ensures state == LedgerSpec.ToState(View())
    {
      var rs: seq<RecipientWindow> := [];
      for i := 0 to |recipients|
        invariant rs == recipients[..i]
      {
        var r := recipients[i];
        rs := rs + [RecipientWindow(r.recipient, Window(r.window.total, r.window.entries))];
      }
      state := WindowState(Window(total, entries), rs, callEntries);
    }

    method Prune(now: u64, width: u64)
      requires Valid(U64_MAX)
      modifies this
      ensures View() == PruneLedger(old(View()), now, width)
      ensures forall t :: old(Valid(t)) ==> Valid(t)
    {
      ghost var before := View();
      SumNonNegative(entries);
      total, entries := PruneEntries(total, entries, now, width);
      for i := 0 to |recipients|
        invariant |recipients| == |before.recipients|
        invariant recipients[..i] == PruneRecipients(before.recipients, now, width)[..i]
        invariant recipients[i..] == before.recipients[i..]
        invariant View().spend == WindowSpec.Prune(before.spend, now, width) && View().calls == before.calls
      {
        var r := recipients[i];
        assert r == before.recipients[i];
        SumNonNegative(r.window.entries);
        var t, es := PruneEntries(r.window.total, r.window.entries, now, width);
        recipients := recipients[i := RecipientWindow(r.recipient, Window(t, es))];
      }
      callTotal, callEntries := PruneCallEntries(callTotal, callEntries, now, width);
      forall t | Coherent(before, t) ensures Coherent(PruneLedger(before, now, width), t) {
        PruneCoherent(before, now, width, t);
      }
    }

    method Admit(now: u64, amount: int)
      requires amount > 0
      modifies this
      ensures View() == old(View()).(spend := WindowSpec.Admit(old(View()).spend, now, amount, I128_MAX))
    {
      var merged;
      total, entries, merged := AdmitToLedger(total, entries, now, amount, I128_MAX);
    }

    method RecipientTotal(recipient: Address) returns (t: int)
      ensures t == WindowOf(recipients, recipient).total
    {
      for i := 0 to |recipients|
        invariant forall j :: 0 <= j < i ==> recipients[j].recipient != recipient
      {
        if recipients[i].recipient == recipient {
          FindIs(recipients, recipient, i);
          return recipients[i].window.total;
        }
      }
      FindIs(recipients, recipient, |recipients|);
      return 0;
    }

    method AdmitForRecipient(now: u64, recipient: Address, amount: int)
      requires amount > 0
      modifies this
      ensures View() == old(View()).(recipients := AdmitFor(old(recipients), recipient, now, amount))
    {
      for i := 0 to |recipients|
        invariant View() == old(View())
        invariant forall j :: 0 <= j < i ==> recipients[j].recipient != recipient
      {
        var r := recipients[i];
        if r.recipient == recipient {
          FindIs(recipients, recipient, i);
          var t, es, merged := AdmitToLedger(r.window.total, r.window.entries, now, amount, I128_MAX);
          recipients := recipients[i := RecipientWindow(recipient, Window(t, es))];
          return;
        }
      }
      FindIs(recipients, recipient, |recipients|);
      var t, es, merged := AdmitToLedger(0, [], now, amount, I128_MAX);
      recipients := recipients + [RecipientWindow(recipient, Window(t, es))];
    }

    method AdmitProtocolCall(now: u64)
      modifies this
      ensures View() == old(View()).(calls := WindowSpec.Admit(old(View()).calls, now, 1, U32_MAX))
    {
      var merged;
      callTotal, callEntries, merged := AdmitToLedger(callTotal, callEntries, now, 1, U32_MAX);
    }
  }
}
