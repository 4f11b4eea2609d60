/** What the rolling windows of src/window.rs compute, on values: the live part
    of an entry list, admission with coalescing and merge-forward, and the
    shape every window keeps. */
module WindowSpec {
  import opened Types

  /** The exact, unbounded sum of the amounts. */
  function Sum(es: seq<Entry>): int {
    if es == [] then 0 else es[0].amount + Sum(es[1..])
  }

  /** An entry leaves the window once `ts + width <= now`, saturating at `u64`. */
  predicate Expired(ts: u64, now: u64, width: u64) {
    SatAdd(ts, width, U64_MAX) <= now
  }

  /** The entries still inside the window, in order. */
  function Live(es: seq<Entry>, now: u64, width: u64): seq<Entry> {
    if es == [] then []
    else if Expired(es[0].ts, now, width) then Live(es[1..], now, width)
    else [es[0]] + Live(es[1..], now, width)
  }

  /** Keep the live entries and take the amounts of the others off the total. */
  function Prune(w: Window, now: u64, width: u64): Window {
    if width == 0 then w
    else
      var live := Live(w.entries, now, width);
      Window(SatSub(w.total, Sum(w.entries) - Sum(live)), live)
  }

  /** Replace the two oldest entries by their sum at the newer timestamp. */
  function MergeOldest(es: seq<Entry>, ceiling: int): seq<Entry>
    requires |es| >= 2
  {
    [Entry(es[1].ts, SatAdd(es[0].amount, es[1].amount, ceiling))] + es[2..]
  }

  /** Whether an admission at `now` has to merge the two oldest entries. */
  predicate Merges(es: seq<Entry>, now: u64) {
    |es| >= MAX_WINDOW_ENTRIES && es[|es| - 1].ts != now
  }

  /** Record `amount` at `now`: coalesce with an entry of the same second,
      otherwise append, merging forward above the entry bound. */
  function Admit(w: Window, now: u64, amount: int, ceiling: int): Window {
    var n := |w.entries|;
    var total := SatAdd(w.total, amount, ceiling);
    if n > 0 && w.entries[n - 1].ts == now then
      Window(total, w.entries[n - 1 := Entry(now, SatAdd(w.entries[n - 1].amount, amount, ceiling))])
    else
      var pushed := w.entries + [Entry(now, amount)];
      Window(total, if Merges(w.entries, now) then MergeOldest(pushed, ceiling) else pushed)
  }

  /** The window rebuilt from stored entries: non-positive amounts are dropped
      and the total is recomputed, so a stored total is never believed. */
  function Reload(es: seq<Entry>, ceiling: int): Window {
    if es == [] then Window(0, [])
    else
      var n := |es| - 1;
      var w := Reload(es[..n], ceiling);
      if es[n].amount > 0
      then Window(SatAdd(w.total, es[n].amount, ceiling), w.entries + [es[n]])
      else w
  }

  // ---- Shape ----

  predicate Ordered(es: seq<Entry>) {
    forall i, j :: 0 <= i < j < |es| ==> es[i].ts < es[j].ts
  }

  predicate Positive(es: seq<Entry>) {
    forall i :: 0 <= i < |es| ==> es[i].amount > 0
  }

  predicate NotAfter(es: seq<Entry>, t: int) {
    forall i :: 0 <= i < |es| ==> es[i].ts <= t
  }

  predicate AllLive(es: seq<Entry>, now: u64, width: u64) {
    forall i :: 0 <= i < |es| ==> !Expired(es[i].ts, now, width)
  }

  /** The shape of an entry list that admissions and prunes build. */
  predicate Shaped(es: seq<Entry>) {
    Ordered(es) && Positive(es) && |es| <= MAX_WINDOW_ENTRIES
  }

  /** A window whose cached total is the exact sum of its entries and fits. */
  predicate WellFormed(w: Window, ceiling: int) {
    Shaped(w.entries) && w.total == Sum(w.entries) <= ceiling
  }

  // ---- Sums ----

  lemma {:induction false} SumConcat(a: seq<Entry>, b: seq<Entry>)
    ensures Sum(a + b) == Sum(a) + Sum(b)
  {
    if a == [] {
      assert a + b == b;
    } else {
      assert (a + b)[1..] == a[1..] + b;
      SumConcat(a[1..], b);
    }
  }

  lemma SumSnoc(es: seq<Entry>)
    requires |es| > 0
    ensures Sum(es) == Sum(es[..|es| - 1]) + es[|es| - 1].amount
  {
    var n := |es| - 1;
    assert es == es[..n] + [es[n]];
    SumConcat(es[..n], [es[n]]);
    assert Sum([es[n]]) == es[n].amount;
  }

  lemma {:induction false} SumNonNegative(es: seq<Entry>)
    requires Positive(es)
    ensures Sum(es) >= |es|
  {
    if es != [] {
      SumNonNegative(es[1..]);
    }
  }

  // ---- Pruning ----

  /** On a list whose expired entries form a prefix, the live part is the rest. */
  lemma {:induction false} LiveIsSuffix(es: seq<Entry>, k: nat, now: u64, width: u64)
    requires k <= |es|
    requires forall i :: 0 <= i < k ==> Expired(es[i].ts, now, width)
    requires AllLive(es[k..], now, width)
    ensures Live(es, now, width) == es[k..]
  {
    if k > 0 {
      assert es[1..][k - 1..] == es[k..];
      LiveIsSuffix(es[1..], k - 1, now, width);
    } else if es != [] {
      assert es[k..] == es && es[1..][0..] == es[1..];
      assert AllLive(es[1..], now, width) by {
        forall i | 0 <= i < |es[1..]| ensures !Expired(es[1..][i].ts, now, width) {
          assert es[1..][i] == es[k..][i + 1];
        }
      }
      LiveIsSuffix(es[1..], 0, now, width);
    }
  }

  /** Ordered entries expire from the front: a split point always exists. */
  lemma {:induction false} ExpirySplit(es: seq<Entry>, now: u64, width: u64) returns (k: nat)
    requires Ordered(es)
    ensures k <= |es|
    ensures forall i :: 0 <= i < k ==> Expired(es[i].ts, now, width)
    ensures AllLive(es[k..], now, width)
    ensures Live(es, now, width) == es[k..]
    ensures Sum(es) == Sum(es[..k]) + Sum(es[k..])
  {
    k := 0;
    while k < |es| && Expired(es[k].ts, now, width)
      invariant k <= |es|
      invariant forall i :: 0 <= i < k ==> Expired(es[i].ts, now, width)
    {
      k := k + 1;
    }
    LiveIsSuffix(es, k, now, width);
    assert es == es[..k] + es[k..];
    SumConcat(es[..k], es[k..]);
  }

  /** Pruning keeps the shape, keeps only live entries, and stays exact. */
  lemma PruneWellFormed(w: Window, now: u64, width: u64, ceiling: int)
    requires WellFormed(w, ceiling)
    ensures WellFormed(Prune(w, now, width), ceiling)
    ensures width > 0 ==> AllLive(Prune(w, now, width).entries, now, width)
    ensures Prune(w, now, width).total <= w.total
  {
    if width > 0 {
      var k := ExpirySplit(w.entries, now, width);
      SumNonNegative(w.entries[..k]);
      SumNonNegative(w.entries[k..]);
    }
  }

  /** Pruning keeps the shape of a list whatever its cached total. */
  lemma PruneShaped(w: Window, now: u64, width: u64, t: int)
    requires Shaped(w.entries) && NotAfter(w.entries, t) && 0 <= w.total <= Sum(w.entries)
    ensures Shaped(Prune(w, now, width).entries) && NotAfter(Prune(w, now, width).entries, t)
    ensures 0 <= Prune(w, now, width).total <= Sum(Prune(w, now, width).entries)
    ensures Prune(w, now, width).total <= w.total
    ensures width > 0 ==> AllLive(Prune(w, now, width).entries, now, width)
  {
    if width > 0 {
      var k := ExpirySplit(w.entries, now, width);
      SumNonNegative(w.entries[..k]);
      SumNonNegative(w.entries[k..]);
    }
  }

  /** Nothing happens to a window that is live already: pruning is idempotent. */
  lemma PruneLive(w: Window, now: u64, width: u64)
    requires width > 0 ==> AllLive(w.entries, now, width)
    requires w.total >= 0
    ensures Prune(w, now, width) == w
  {
    if width > 0 {
      assert w.entries[0..] == w.entries;
      LiveIsSuffix(w.entries, 0, now, width);
    }
  }

  lemma PruneIdempotent(w: Window, now: u64, width: u64)
    requires Shaped(w.entries) && 0 <= w.total <= Sum(w.entries)
    ensures Prune(Prune(w, now, width), now, width) == Prune(w, now, width)
  {
    PruneShaped(w, now, width, U64_MAX);
    PruneLive(Prune(w, now, width), now, width);
  }

  // ---- Admission ----

  /** An admission that fits is exact, keeps the shape, and ends at `now`. */
  lemma AdmitWellFormed(w: Window, now: u64, amount: int, ceiling: int)
    requires WellFormed(w, ceiling) && NotAfter(w.entries, now)
    requires amount > 0 && w.total + amount <= ceiling
    ensures WellFormed(Admit(w, now, amount, ceiling), ceiling)
    ensures NotAfter(Admit(w, now, amount, ceiling).entries, now)
    ensures Admit(w, now, amount, ceiling).total == w.total + amount
    ensures var es := Admit(w, now, amount, ceiling).entries; es[|es| - 1].ts == now
  {
    SumNonNegative(w.entries);
    AdmitSum(w, now, amount, ceiling);
    AdmitShaped(w, now, amount, ceiling);
  }

  /** Admission keeps the shape even where it saturates. */
  lemma AdmitShaped(w: Window, now: u64, amount: int, ceiling: int)
    requires Shaped(w.entries) && NotAfter(w.entries, now) && amount > 0 && ceiling > 0
    ensures Shaped(Admit(w, now, amount, ceiling).entries)
    ensures NotAfter(Admit(w, now, amount, ceiling).entries, now)
  {
    var es := w.entries;
    var pushed := es + [Entry(now, amount)];
    if es != [] && es[|es| - 1].ts == now {
      assert es[|es| - 1].amount > 0;
    } else if Merges(es, now) {
      MergeShaped(pushed, ceiling);
      hide MergeOldest;
    }
  }

  lemma MergeShaped(es: seq<Entry>, ceiling: int)
    requires Ordered(es) && Positive(es) && |es| >= 2 && ceiling > 0
    ensures Ordered(MergeOldest(es, ceiling)) && Positive(MergeOldest(es, ceiling))
    ensures forall t :: NotAfter(es, t) ==> NotAfter(MergeOldest(es, ceiling), t)
  {
    var m := MergeOldest(es, ceiling);
    assert es[0].amount > 0 && es[1].amount > 0;
    assert m[0].amount > 0 && m[0].ts == es[1].ts;
    assert forall i :: 1 <= i < |m| ==> m[i] == es[i + 1];
  }

  /** The entries of an admission that fits sum to the old sum plus `amount`. */
  lemma AdmitSum(w: Window, now: u64, amount: int, ceiling: int)
    requires Positive(w.entries) && amount > 0 && Sum(w.entries) + amount <= ceiling
    ensures Sum(Admit(w, now, amount, ceiling).entries) == Sum(w.entries) + amount
  {
    var es := w.entries;
    var n := |es|;
    if n > 0 && es[n - 1].ts == now {
      SumSnoc(es);
      SumNonNegative(es[..n - 1]);
      var r := es[n - 1 := Entry(now, es[n - 1].amount + amount)];
      SumSnoc(r);
      assert r[..n - 1] == es[..n - 1];
    } else {
      var pushed := es + [Entry(now, amount)];
      SumSnoc(pushed);
      assert pushed[..n] == es;
      if Merges(es, now) {
        MergeSum(pushed, ceiling);
      }
    }
  }

  lemma MergeSum(es: seq<Entry>, ceiling: int)
    requires |es| >= 2 && Positive(es) && Sum(es) <= ceiling
    ensures Sum(MergeOldest(es, ceiling)) == Sum(es)
    ensures es[0].amount + es[1].amount <= ceiling
  {
    assert es[1..][1..] == es[2..];
    SumNonNegative(es[2..]);
    var m := MergeOldest(es, ceiling);
    assert m[1..] == es[2..];
  }

  /** Two admissions in one second are one admission of the sum. */
  lemma AdmitTwice(w: Window, now: u64, a: int, b: int, ceiling: int)
    requires Positive(w.entries) && a > 0 && b > 0 && Sum(w.entries) + a + b <= ceiling
    requires w.total <= Sum(w.entries)
    ensures Admit(Admit(w, now, a, ceiling), now, b, ceiling) == Admit(w, now, a + b, ceiling)
  {
    hide Admit, AdmitRest, Sum;
    var w1 := Admit(w, now, a, ceiling);
    var m := |w1.entries| - 1;
    SumNonNegative(w.entries);
    AdmitLast(w, now, a, ceiling);
    AdmitLast(w, now, a + b, ceiling);
    AdmitSum(w, now, a, ceiling);
    AdmitPositive(w, now, a, ceiling);
    AdmitLast(w1, now, b, ceiling);
    assert AdmitRest(w1.entries, now, ceiling) == w1.entries[..m] by { RestOfAdmitted(w1.entries, now, ceiling); }
  }

  lemma RestOfAdmitted(es: seq<Entry>, now: u64, ceiling: int)
    requires es != [] && es[|es| - 1].ts == now
    ensures AdmitRest(es, now, ceiling) == es[..|es| - 1]
  {
  }

  /** What an admission does to all entries but the newest does not depend on the amount. */
  function AdmitRest(es: seq<Entry>, now: u64, ceiling: int): (r: seq<Entry>)
  {
    if es != [] && es[|es| - 1].ts == now then es[..|es| - 1]
    else if Merges(es, now) then MergeOldest(es, ceiling)
    else es
  }

  lemma AdmitLast(w: Window, now: u64, amount: int, ceiling: int)
    requires Positive(w.entries) && amount > 0 && Sum(w.entries) + amount <= ceiling
    ensures var newest := if w.entries != [] && w.entries[|w.entries| - 1].ts == now
                          then w.entries[|w.entries| - 1].amount else 0;
      && Admit(w, now, amount, ceiling).entries
         == AdmitRest(w.entries, now, ceiling) + [Entry(now, newest + amount)]
      && newest + amount <= ceiling
      && Admit(w, now, amount, ceiling).total == SatAdd(w.total, amount, ceiling)
  {
    var es := w.entries;
    if es != [] && es[|es| - 1].ts == now {
      SumSnoc(es);
      SumNonNegative(es[..|es| - 1]);
    } else {
      SumNonNegative(es);
      var pushed := es + [Entry(now, amount)];
      if Merges(es, now) {
        assert pushed[2..] == es[2..] + [Entry(now, amount)];
      }
    }
  }

  lemma AdmitPositive(w: Window, now: u64, amount: int, ceiling: int)
    requires Positive(w.entries) && amount > 0 && Sum(w.entries) + amount <= ceiling
    ensures Positive(Admit(w, now, amount, ceiling).entries)
  {
    SumNonNegative(w.entries);
    AdmitLast(w, now, amount, ceiling);
    if Merges(w.entries, now) {
      assert w.entries[0].amount > 0 && w.entries[1].amount > 0;
    }
  }

  // ---- Reloading ----

  /** Reloading what a well-formed window stored gives the window back. */
  lemma {:induction false} ReloadWellFormed(es: seq<Entry>, ceiling: int)
    requires Positive(es) && Sum(es) <= ceiling
    ensures Reload(es, ceiling) == Window(Sum(es), es)
  {
    if es != [] {
      var n := |es| - 1;
      SumSnoc(es);
      ReloadWellFormed(es[..n], ceiling);
      assert es[..n] + [es[n]] == es;
    }
  }

  /** Above the ceiling only the total is affected: it is clipped, never raised. */
  lemma {:induction false} ReloadShaped(es: seq<Entry>, ceiling: int)
    requires Positive(es) && ceiling >= 0
    ensures Reload(es, ceiling).entries == es
    ensures 0 <= Reload(es, ceiling).total == (if Sum(es) > ceiling then ceiling else Sum(es))
  {
    if es != [] {
      var n := |es| - 1;
      var w := Reload(es[..n], ceiling);
      assert Reload(es, ceiling) == Window(SatAdd(w.total, es[n].amount, ceiling), w.entries + [es[n]]);
      ReloadShaped(es[..n], ceiling);
      SumSnoc(es);
      SumNonNegative(es[..n]);
      hide Reload, Sum;
      assert es[..n] + [es[n]] == es;
    }
  }

  /** What reloading keeps of any stored list, well-formed or not: the entries with
      a positive amount, in their order, totalled anew up to the ceiling. */
  lemma {:induction false} ReloadMeans(es: seq<Entry>, ceiling: int)
    requires ceiling >= 0
    ensures forall e :: e in Reload(es, ceiling).entries <==> e in es && e.amount > 0
    ensures Ordered(es) ==> Ordered(Reload(es, ceiling).entries)
    ensures Reload(es, ceiling).total == SatAdd(0, Sum(Reload(es, ceiling).entries), ceiling)
  {
    if es != [] {
      var n := |es| - 1;
      var w := Reload(es[..n], ceiling);
      ReloadMeans(es[..n], ceiling);
      assert es == es[..n] + [es[n]];
      if es[n].amount > 0 {
        SumConcat(w.entries, [es[n]]);
        assert Sum([es[n]]) == es[n].amount;
        SumNonNegative(w.entries);
      }
    }
  }
}
