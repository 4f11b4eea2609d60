/** The whole ledger of src/window.rs on values: the global spend window, one
    window per tracked recipient, and the protocol-call counter. */
module LedgerSpec {
  import opened Types
  import opened WindowSpec

  datatype LedgerState = LedgerState(spend: Window, recipients: seq<RecipientWindow>, calls: Window)

  const EMPTY_WINDOW := Window(0, [])
  const EMPTY_LEDGER := LedgerState(EMPTY_WINDOW, [], EMPTY_WINDOW)

  /** The position of the first window tracked for `r`, or the length. */
  function Find(rs: seq<RecipientWindow>, r: Address): (k: nat)
    ensures k <= |rs|
    ensures k < |rs| ==> rs[k].recipient == r
    ensures forall j :: 0 <= j < k ==> rs[j].recipient != r
  {
    if rs == [] || rs[0].recipient == r then 0 else 1 + Find(rs[1..], r)
  }

  function WindowOf(rs: seq<RecipientWindow>, r: Address): Window {
    var k := Find(rs, r);
    if k < |rs| then rs[k].window else EMPTY_WINDOW
  }

  /** Track window `w` for `r`, in place of the one tracked so far if any. */
  function Put(rs: seq<RecipientWindow>, r: Address, w: Window): seq<RecipientWindow> {
    var k := Find(rs, r);
    if k < |rs| then rs[k := RecipientWindow(r, w)] else rs + [RecipientWindow(r, w)]
  }

  function AdmitFor(rs: seq<RecipientWindow>, r: Address, now: u64, amount: int): seq<RecipientWindow> {
    Put(rs, r, Admit(WindowOf(rs, r), now, amount, I128_MAX))
  }

  function PruneRecipients(rs: seq<RecipientWindow>, now: u64, width: u64): (r: seq<RecipientWindow>)
    ensures |r| == |rs|
    ensures forall i :: 0 <= i < |rs| ==>
      r[i] == RecipientWindow(rs[i].recipient, Prune(rs[i].window, now, width))
  {
    seq(|rs|, i requires 0 <= i < |rs| => RecipientWindow(rs[i].recipient, Prune(rs[i].window, now, width)))
  }

  function PruneLedger(l: LedgerState, now: u64, width: u64): LedgerState {
    LedgerState(
      Prune(l.spend, now, width),
      PruneRecipients(l.recipients, now, width),
      Prune(l.calls, now, width))
  }

  /** `n` protocol calls recorded at `now`. */
  function AdmitCalls(w: Window, now: u64, n: nat): Window {
    if n == 0 then w else Admit(AdmitCalls(w, now, n - 1), now, 1, U32_MAX)
  }

  function ReloadRecipients(rs: seq<RecipientWindow>): (r: seq<RecipientWindow>)
    ensures |r| == |rs|
    ensures forall i :: 0 <= i < |rs| ==>
      r[i] == RecipientWindow(rs[i].recipient, Reload(rs[i].window.entries, I128_MAX))
  {
    seq(|rs|, i requires 0 <= i < |rs| => RecipientWindow(rs[i].recipient, Reload(rs[i].window.entries, I128_MAX)))
  }

  /** The ledger rebuilt from storage. */
  function FromState(ws: WindowState): LedgerState {
    LedgerState(
      Reload(ws.spend.entries, I128_MAX),
      ReloadRecipients(ws.recipients),
      Reload(ws.callEntries, U32_MAX))
  }

  /** What the ledger writes to storage: everything but the call total. */
  function ToState(l: LedgerState): WindowState {
    WindowState(l.spend, l.recipients, l.calls.entries)
  }

  // ---- The invariant of every ledger in use ----

  predicate DistinctRecipients(rs: seq<RecipientWindow>) {
    forall i, j :: 0 <= i < j < |rs| ==> rs[i].recipient != rs[j].recipient
  }

  predicate RecipientsWellFormed(rs: seq<RecipientWindow>, t: int) {
    forall i :: 0 <= i < |rs| ==> WellFormed(rs[i].window, I128_MAX) && NotAfter(rs[i].window.entries, t)
  }

  /** Call windows may saturate when the limit is `u32::MAX`; then the cached
      total is below the sum, never above it. */
  predicate CallsCoherent(w: Window, t: int) {
    Shaped(w.entries) && NotAfter(w.entries, t) && 0 <= w.total <= Sum(w.entries) && w.total <= U32_MAX
  }

  /** Every window has its shape, spend totals are exact, no entry is after `t`,
      and no recipient is tracked twice. */
  predicate Coherent(l: LedgerState, t: int) {
    && WellFormed(l.spend, I128_MAX) && NotAfter(l.spend.entries, t)
    && RecipientsWellFormed(l.recipients, t)
    && DistinctRecipients(l.recipients)
    && CallsCoherent(l.calls, t)
  }

  /** The same for what is in storage. */
  predicate StoredCoherent(ws: WindowState, t: int) {
    && WellFormed(ws.spend, I128_MAX) && NotAfter(ws.spend.entries, t)
    && RecipientsWellFormed(ws.recipients, t)
    && DistinctRecipients(ws.recipients)
    && Shaped(ws.callEntries) && NotAfter(ws.callEntries, t)
  }

  lemma CoherentLater(l: LedgerState, t: int, u: int)
    requires Coherent(l, t) && t <= u
    ensures Coherent(l, u)
  {
  }

  lemma WindowOfWellFormed(rs: seq<RecipientWindow>, r: Address, t: int)
    requires RecipientsWellFormed(rs, t)
    ensures WellFormed(WindowOf(rs, r), I128_MAX) && NotAfter(WindowOf(rs, r).entries, t)
  {
  }

  lemma {:induction false} FindIs(rs: seq<RecipientWindow>, r: Address, k: nat)
    requires k <= |rs| && (k < |rs| ==> rs[k].recipient == r)
    requires forall j :: 0 <= j < k ==> rs[j].recipient != r
    ensures Find(rs, r) == k
  {
    if k > 0 {
      FindIs(rs[1..], r, k - 1);
    }
  }

  // ---- Pruning the whole ledger ----

  lemma PruneCoherent(l: LedgerState, now: u64, width: u64, t: int)
    requires Coherent(l, t)
    ensures Coherent(PruneLedger(l, now, width), t)
    ensures width > 0 ==> LedgerLive(PruneLedger(l, now, width), now, width)
  {
    SumNonNegative(l.spend.entries);
    PruneWellFormed(l.spend, now, width, I128_MAX);
    PruneShaped(l.spend, now, width, t);
    PruneShaped(l.calls, now, width, t);
    var rs := PruneRecipients(l.recipients, now, width);
    forall i | 0 <= i < |rs|
      ensures WellFormed(rs[i].window, I128_MAX) && NotAfter(rs[i].window.entries, t)
      ensures width > 0 ==> AllLive(rs[i].window.entries, now, width)
    {
      var w := l.recipients[i].window;
      SumNonNegative(w.entries);
      PruneWellFormed(w, now, width, I128_MAX);
      PruneShaped(w, now, width, t);
    }
  }

  predicate LedgerLive(l: LedgerState, now: u64, width: u64) {
    && AllLive(l.spend.entries, now, width)
    && (forall i :: 0 <= i < |l.recipients| ==> AllLive(l.recipients[i].window.entries, now, width))
    && AllLive(l.calls.entries, now, width)
  }

  /** A live ledger is not changed by pruning. */
  lemma PruneLiveLedger(l: LedgerState, now: u64, width: u64, t: int)
    requires Coherent(l, t)
    requires width > 0 ==> LedgerLive(l, now, width)
    ensures PruneLedger(l, now, width) == l
  {
    SumNonNegative(l.spend.entries);
    PruneLive(l.spend, now, width);
    PruneLive(l.calls, now, width);
    forall i | 0 <= i < |l.recipients|
      ensures Prune(l.recipients[i].window, now, width) == l.recipients[i].window
    {
      SumNonNegative(l.recipients[i].window.entries);
      PruneLive(l.recipients[i].window, now, width);
    }
    assert PruneRecipients(l.recipients, now, width) == l.recipients;
  }

  lemma PruneWindowOf(rs: seq<RecipientWindow>, r: Address, now: u64, width: u64)
    ensures WindowOf(PruneRecipients(rs, now, width), r) == Prune(WindowOf(rs, r), now, width)
  {
    FindIs(PruneRecipients(rs, now, width), r, Find(rs, r));
  }

  // ---- Admission to a recipient window ----

  lemma PutFind(rs: seq<RecipientWindow>, r: Address, w: Window, q: Address)
    ensures Find(Put(rs, r, w), q) ==
            if Find(rs, q) == |rs| && Find(rs, r) == |rs| && q != r then |rs| + 1 else Find(rs, q)
    ensures WindowOf(Put(rs, r, w), q) == if q == r then w else WindowOf(rs, q)
  {
    var k := Find(rs, q);
    FindIs(Put(rs, r, w), q, if k == |rs| && Find(rs, r) == |rs| && q != r then |rs| + 1 else k);
  }

  lemma AdmitForWindowOf(rs: seq<RecipientWindow>, r: Address, q: Address, now: u64, amount: int)
    ensures WindowOf(AdmitFor(rs, r, now, amount), q) ==
            if q == r then Admit(WindowOf(rs, r), now, amount, I128_MAX) else WindowOf(rs, q)
  {
    PutFind(rs, r, Admit(WindowOf(rs, r), now, amount, I128_MAX), q);
  }

  lemma AdmitForWellFormed(rs: seq<RecipientWindow>, r: Address, now: u64, amount: int)
    requires RecipientsWellFormed(rs, now) && DistinctRecipients(rs)
    requires amount > 0 && WindowOf(rs, r).total + amount <= I128_MAX
    ensures RecipientsWellFormed(AdmitFor(rs, r, now, amount), now)
    ensures DistinctRecipients(AdmitFor(rs, r, now, amount))
  {
    AdmitWellFormed(WindowOf(rs, r), now, amount, I128_MAX);
  }

  lemma PutCommutes(rs: seq<RecipientWindow>, r: Address, x: Window, q: Address, y: Window)
    requires r != q && Find(rs, q) < |rs|
    ensures Put(Put(rs, q, y), r, x) == Put(Put(rs, r, x), q, y)
  {
    PutFind(rs, q, y, r);
    PutFind(rs, r, x, q);
  }

  /** Admissions to two recipients commute once the second is tracked. */
  lemma AdmitForCommutes(rs: seq<RecipientWindow>, r: Address, a: int, q: Address, b: int, now: u64)
    requires r != q && Find(rs, q) < |rs|
    ensures AdmitFor(AdmitFor(rs, q, now, b), r, now, a) == AdmitFor(AdmitFor(rs, r, now, a), q, now, b)
  {
    var x, y := Admit(WindowOf(rs, r), now, a, I128_MAX), Admit(WindowOf(rs, q), now, b, I128_MAX);
    PutFind(rs, q, y, r);
    PutFind(rs, r, x, q);
    PutCommutes(rs, r, x, q, y);
  }

  lemma AdmitForTwice(rs: seq<RecipientWindow>, r: Address, now: u64, a: int, b: int)
    requires RecipientsWellFormed(rs, now)
    requires a > 0 && b > 0 && WindowOf(rs, r).total + a + b <= I128_MAX
    ensures AdmitFor(AdmitFor(rs, r, now, a), r, now, b) == AdmitFor(rs, r, now, a + b)
  {
    AdmitTwice(WindowOf(rs, r), now, a, b, I128_MAX);
    PutFind(rs, r, Admit(WindowOf(rs, r), now, a, I128_MAX), r);
  }

  // ---- Protocol calls ----

  lemma {:induction false} AdmitCallsCoherent(w: Window, now: u64, n: nat)
    requires CallsCoherent(w, now)
    ensures CallsCoherent(AdmitCalls(w, now, n), now)
    ensures AdmitCalls(w, now, n).total == SatAdd(w.total, n, U32_MAX)
  {
    if n > 0 {
      AdmitCallsCoherent(w, now, n - 1);
      AdmitCallCoherent(AdmitCalls(w, now, n - 1), now);
    }
  }

  lemma AdmitCallCoherent(w: Window, now: u64)
    requires CallsCoherent(w, now)
    ensures CallsCoherent(Admit(w, now, 1, U32_MAX), now)
  {
    AdmitShaped(w, now, 1, U32_MAX);
    var r := Admit(w, now, 1, U32_MAX);
    SumNonNegative(w.entries);
    if Sum(w.entries) + 1 <= U32_MAX {
      AdmitSum(w, now, 1, U32_MAX);
    } else {
      AdmitSaturated(w, now);
    }
  }

  /** At saturation an admission still leaves at least the ceiling in the entries. */
  lemma AdmitSaturated(w: Window, now: u64)
    requires Shaped(w.entries) && NotAfter(w.entries, now) && Sum(w.entries) >= U32_MAX
    ensures Sum(Admit(w, now, 1, U32_MAX).entries) >= U32_MAX
  {
    var es := w.entries;
    var n := |es|;
    if n > 0 && es[n - 1].ts == now {
      var r := Admit(w, now, 1, U32_MAX).entries;
      SumSnoc(es);
      SumSnoc(r);
      SumNonNegative(es[..n - 1]);
      assert r[..n - 1] == es[..n - 1];
    } else {
      var pushed := es + [Entry(now, 1)];
      SumSnoc(pushed);
      assert pushed[..n] == es;
      if Merges(es, now) {
        var m := MergeOldest(pushed, U32_MAX);
        assert pushed[1..][1..] == pushed[2..];
        assert m[1..] == pushed[2..];
        SumNonNegative(pushed[2..]);
      }
    }
  }

  // ---- Storage round trip ----

  /** Loading what was stored gives back the ledger, cached totals included.
      Only the call total is not stored; it comes back when it was exact. */
  lemma RoundTrip(l: LedgerState, t: int)
    requires Coherent(l, t)
    ensures StoredCoherent(ToState(l), t)
    ensures FromState(ToState(l)).spend == l.spend
    ensures FromState(ToState(l)).recipients == l.recipients
    ensures FromState(ToState(l)) == l <==> l.calls.total == SatAdd(0, Sum(l.calls.entries), U32_MAX)
  {
    ReloadWellFormed(l.spend.entries, I128_MAX);
    ReloadShaped(l.calls.entries, U32_MAX);
    forall i | 0 <= i < |l.recipients|
      ensures Reload(l.recipients[i].window.entries, I128_MAX) == l.recipients[i].window
    {
      ReloadWellFormed(l.recipients[i].window.entries, I128_MAX);
    }
    assert ReloadRecipients(l.recipients) == l.recipients;
  }

  /** Loading a coherent store gives a coherent ledger with the stored entries. */
  lemma FromStateCoherent(ws: WindowState, t: int)
    requires StoredCoherent(ws, t)
    ensures Coherent(FromState(ws), t)
    ensures FromState(ws).spend == ws.spend
    ensures FromState(ws).recipients == ws.recipients
    ensures FromState(ws).calls.entries == ws.callEntries
    ensures FromState(ws).calls.total == SatAdd(0, Sum(ws.callEntries), U32_MAX)
  {
    ReloadWellFormed(ws.spend.entries, I128_MAX);
    ReloadShaped(ws.callEntries, U32_MAX);
    forall i | 0 <= i < |ws.recipients|
      ensures Reload(ws.recipients[i].window.entries, I128_MAX) == ws.recipients[i].window
    {
      ReloadWellFormed(ws.recipients[i].window.entries, I128_MAX);
    }
    assert ReloadRecipients(ws.recipients) == ws.recipients;
  }

  /** A stored total is ignored: only the entries decide what is loaded. */
  lemma StoredTotalsIgnored(a: WindowState, b: WindowState)
    requires a.spend.entries == b.spend.entries && a.callEntries == b.callEntries
    requires |a.recipients| == |b.recipients|
    requires forall i :: 0 <= i < |a.recipients| ==>
      && a.recipients[i].recipient == b.recipients[i].recipient
      && a.recipients[i].window.entries == b.recipients[i].window.entries
    ensures FromState(a) == FromState(b)
  {
    assert ReloadRecipients(a.recipients) == ReloadRecipients(b.recipients);
  }
}
