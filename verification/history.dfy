/** How a window, which forgets, coalesces and merges, stands for the full list
    of amounts ever admitted. The history is compared with the entries at every
    cutoff: what lies after the cutoff in the entries is at least what lies
    after it in the history, so no rolling sum is ever under-counted. */
module History {
  import opened Types
  import opened WindowSpec
  import LedgerSpec

  /** The amounts recorded strictly after `cutoff`. */
  function Since(es: seq<Entry>, cutoff: int): int {
    if es == [] then 0
    else (if es[0].ts > cutoff then es[0].amount else 0) + Since(es[1..], cutoff)
  }

  /** The amounts recorded in the span `(t - width, t]`. */
  function Rolling(es: seq<Entry>, t: int, width: int): int {
    Since(es, t - width) - Since(es, t)
  }

  /** A history: positive amounts in order of time, none after `t`. */
  predicate Chronicle(h: seq<Entry>, t: int) {
    && Positive(h)
    && NotAfter(h, t)
    && forall i, j :: 0 <= i < j < |h| ==> h[i].ts <= h[j].ts
  }

  /** `es` stands for `h` at every cutoff from `lo` on: it never has less. */
  ghost predicate Dominates(h: seq<Entry>, es: seq<Entry>, lo: int) {
    forall c :: c >= lo ==> Since(h, c) <= Since(es, c)
  }

  /** It has exactly as much. */
  ghost predicate Agrees(h: seq<Entry>, es: seq<Entry>, lo: int) {
    forall c :: c >= lo ==> Since(h, c) == Since(es, c)
  }

  /** Nothing in `es` is newer than all of `h`. */
  ghost predicate NoneNewer(h: seq<Entry>, es: seq<Entry>) {
    forall c: int :: NotAfter(h, c) ==> NotAfter(es, c)
  }

  /** No span of `width` seconds holds more than `cap`. */
  ghost predicate Ceiling(h: seq<Entry>, width: int, cap: int) {
    forall t :: Rolling(h, t, width) <= cap
  }

  // ---- Sums after a cutoff ----

  lemma {:induction false} SinceConcat(a: seq<Entry>, b: seq<Entry>, c: int)
    ensures Since(a + b, c) == Since(a, c) + Since(b, c)
  {
    if a == [] {
      assert a + b == b;
    } else {
      assert (a + b)[1..] == a[1..] + b;
      SinceConcat(a[1..], b, c);
    }
  }

  lemma {:induction false} SinceAll(es: seq<Entry>, c: int)
    requires forall i :: 0 <= i < |es| ==> es[i].ts > c
    ensures Since(es, c) == Sum(es)
  {
    if es != [] {
      SinceAll(es[1..], c);
    }
  }

  lemma {:induction false} SinceNone(es: seq<Entry>, c: int)
    requires NotAfter(es, c)
    ensures Since(es, c) == 0
  {
    if es != [] {
      SinceNone(es[1..], c);
    }
  }

  lemma {:induction false} SinceMonotone(es: seq<Entry>, c: int, d: int)
    requires Positive(es) && c <= d
    ensures 0 <= Since(es, d) <= Since(es, c)
  {
    if es != [] {
      SinceMonotone(es[1..], c, d);
    }
  }

  /** Anything recorded after the cutoff shows. */
  lemma {:induction false} SinceShows(es: seq<Entry>, k: nat, c: int)
    requires Positive(es) && k < |es| && es[k].ts > c
    ensures Since(es, c) > 0
  {
    SinceMonotone(es[1..], c, c);
    if k > 0 {
      SinceShows(es[1..], k - 1, c);
    }
  }

  /** Below the saturation point of the clock, the live part of any list is
      exactly its entries with `ts + width > now`. */
  lemma {:induction false} LiveExactly(es: seq<Entry>, now: u64, width: u64)
    requires now < U64_MAX
    ensures forall e :: e in Live(es, now, width) <==> e in es && e.ts + width > now
  {
    if es != [] {
      LiveExactly(es[1..], now, width);
      assert es == [es[0]] + es[1..];
    }
  }

  /** At the clock's last second the saturating sum never exceeds it, so
      everything counts as expired, whatever was recorded when. */
  lemma {:induction false} NothingLiveAtTheEnd(es: seq<Entry>, width: u64)
    ensures Live(es, U64_MAX, width) == []
  {
    if es != [] {
      NothingLiveAtTheEnd(es[1..], width);
    }
  }

  // ---- Pruning ----

  /** A prune drops an entry that a span of `span` seconds still sees. */
  predicate Forgets(es: seq<Entry>, now: u64, width: u64, span: int) {
    width > 0 && exists i :: 0 <= i < |es| && now - span < es[i].ts <= now - width
  }

  lemma PruneSince(w: Window, now: u64, width: u64, span: int, c: int)
    requires Shaped(w.entries) && now < U64_MAX && c >= now - span && !Forgets(w.entries, now, width, span)
    ensures Since(Prune(w, now, width).entries, c) == Since(w.entries, c)
  {
    if width > 0 {
      var k := ExpirySplit(w.entries, now, width);
      assert w.entries == w.entries[..k] + w.entries[k..];
      SinceConcat(w.entries[..k], w.entries[k..], c);
      SinceNone(w.entries[..k], c);
    }
  }

  lemma {:induction false} LiveNotAfter(es: seq<Entry>, now: u64, width: u64, c: int)
    requires NotAfter(es, c)
    ensures NotAfter(Live(es, now, width), c)
  {
    if es != [] {
      LiveNotAfter(es[1..], now, width, c);
    }
  }

  lemma PruneNoneNewer(h: seq<Entry>, w: Window, now: u64, width: u64)
    requires NoneNewer(h, w.entries)
    ensures NoneNewer(h, Prune(w, now, width).entries)
  {
    forall c: int | NotAfter(h, c) ensures NotAfter(Prune(w, now, width).entries, c) {
      LiveNotAfter(w.entries, now, width, c);
    }
  }

  /** Once everything is at least the width old, nothing is live. */
  lemma {:induction false} NothingLive(es: seq<Entry>, now: u64, width: u64)
    requires NotAfter(es, now - width)
    ensures Live(es, now, width) == []
  {
    if es != [] {
      NothingLive(es[1..], now, width);
    }
  }

  /** A prune that drops nothing the span sees keeps the window standing for the
      history. One at least `span` wide never drops such an entry. */
  lemma PruneRefines(h: seq<Entry>, w: Window, now: u64, width: u64, span: int)
    requires Shaped(w.entries) && now < U64_MAX && !Forgets(w.entries, now, width, span)
    requires Dominates(h, w.entries, now - span)
    ensures Dominates(h, Prune(w, now, width).entries, now - span)
    ensures Agrees(h, w.entries, now - span) ==> Agrees(h, Prune(w, now, width).entries, now - span)
  {
    forall c | c >= now - span
      ensures Since(Prune(w, now, width).entries, c) == Since(w.entries, c)
    {
      PruneSince(w, now, width, span, c);
    }
  }

  /** Exactly when pruning loses part of what a span could see, for every width
      and span: when an entry lies between the two cutoffs. This is what a policy
      edit that widens the window after a prune runs into. */
  lemma PruneForgets(w: Window, now: u64, width: u64, span: int)
    requires Shaped(w.entries) && now < U64_MAX
    ensures Since(Prune(w, now, width).entries, now - span) <= Since(w.entries, now - span)
    ensures Since(Prune(w, now, width).entries, now - span) < Since(w.entries, now - span) <==>
      Forgets(w.entries, now, width, span)
  {
    if Forgets(w.entries, now, width, span) {
      var k := ExpirySplit(w.entries, now, width);
      assert Prune(w, now, width).entries == w.entries[k..];
      hide Prune, Live, Sum, Since;
      LosesPrefix(w.entries, k, now - width, now - span);
    } else {
      PruneSince(w, now, width, span, now - span);
      hide *;
    }
  }

  /** Cutting off entries up to `hi` loses any that a cutoff below `hi` can see. */
  lemma LosesPrefix(es: seq<Entry>, k: nat, hi: int, cutoff: int)
    requires k <= |es| && Positive(es) && (forall i :: k <= i < |es| ==> es[i].ts > hi)
    requires exists i :: 0 <= i < |es| && cutoff < es[i].ts <= hi
    ensures Since(es[k..], cutoff) < Since(es, cutoff)
  {
    hide Since;
    var i :| 0 <= i < |es| && cutoff < es[i].ts <= hi;
    assert es == es[..k] + es[k..];
    SinceConcat(es[..k], es[k..], cutoff);
    SinceShows(es[..k], i, cutoff);
  }

  // ---- Admission ----

  /** At every cutoff an admission adds its amount; merging can only add more. */
  lemma AdmitSince(w: Window, now: u64, amount: int, ceiling: int, c: int)
    requires WellFormed(w, ceiling) && NotAfter(w.entries, now)
    requires amount > 0 && w.total + amount <= ceiling
    ensures Since(Admit(w, now, amount, ceiling).entries, c) >= Since(w.entries, c) + (if now > c then amount else 0)
    ensures !Merges(w.entries, now) ==>
      Since(Admit(w, now, amount, ceiling).entries, c) == Since(w.entries, c) + (if now > c then amount else 0)
  {
    var es := w.entries;
    var n := |es|;
    SumNonNegative(es);
    if n > 0 && es[n - 1].ts == now {
      var e := Entry(now, es[n - 1].amount + amount);
      SumSnoc(es);
      SumNonNegative(es[..n - 1]);
      assert es == es[..n - 1] + [es[n - 1]];
      assert es[n - 1 := e] == es[..n - 1] + [e];
      SinceConcat(es[..n - 1], [es[n - 1]], c);
      SinceConcat(es[..n - 1], [e], c);
    } else {
      var pushed := es + [Entry(now, amount)];
      SinceConcat(es, [Entry(now, amount)], c);
      if Merges(es, now) {
        SumSnoc(pushed);
        assert pushed[..n] == es;
        MergeSince(pushed, ceiling, c);
      }
    }
  }

  lemma MergeSince(es: seq<Entry>, ceiling: int, c: int)
    requires |es| >= 2 && Ordered(es) && Positive(es) && Sum(es) <= ceiling
    ensures Since(MergeOldest(es, ceiling), c) >= Since(es, c)
  {
    MergeSum(es, ceiling);
    assert es[1..][1..] == es[2..];
    assert MergeOldest(es, ceiling)[1..] == es[2..];
    assert es[0].ts < es[1].ts;
  }

  /** Admitting in one step what the history records as `xs`, all at `now`. */
  lemma AdmitRefines(h: seq<Entry>, xs: seq<Entry>, w: Window, now: u64, ceiling: int, lo: int)
    requires WellFormed(w, ceiling) && NotAfter(w.entries, now)
    requires Positive(xs) && xs != [] && (forall i :: 0 <= i < |xs| ==> xs[i].ts == now)
    requires w.total + Sum(xs) <= ceiling
    requires Dominates(h, w.entries, lo)
    ensures Dominates(h + xs, Admit(w, now, Sum(xs), ceiling).entries, lo)
    ensures Agrees(h, w.entries, lo) && !Merges(w.entries, now) ==>
      Agrees(h + xs, Admit(w, now, Sum(xs), ceiling).entries, lo)
  {
    SumNonNegative(xs);
    AdmitWellFormed(w, now, Sum(xs), ceiling);
    forall c | c >= lo
      ensures Since(h + xs, c) == Since(h, c) + (if now > c then Sum(xs) else 0)
      ensures Since(Admit(w, now, Sum(xs), ceiling).entries, c) >= Since(w.entries, c) + (if now > c then Sum(xs) else 0)
      ensures !Merges(w.entries, now) ==>
        Since(Admit(w, now, Sum(xs), ceiling).entries, c) == Since(w.entries, c) + (if now > c then Sum(xs) else 0)
    {
      SinceConcat(h, xs, c);
      if now > c { SinceAll(xs, c); } else { SinceNone(xs, c); }
      AdmitSince(w, now, Sum(xs), ceiling, c);
    }
  }

  lemma AdmitNotAfter(w: Window, now: u64, amount: int, ceiling: int, c: int)
    requires NotAfter(w.entries, c) && now <= c
    ensures NotAfter(Admit(w, now, amount, ceiling).entries, c)
  {
  }

  lemma {:induction false} AdmitCallsNotAfter(w: Window, now: u64, n: nat, c: int)
    requires NotAfter(w.entries, c) && (n > 0 ==> now <= c)
    ensures NotAfter(LedgerSpec.AdmitCalls(w, now, n).entries, c)
  {
    if n > 0 {
      AdmitCallsNotAfter(w, now, n - 1, c);
      AdmitNotAfter(LedgerSpec.AdmitCalls(w, now, n - 1), now, 1, U32_MAX, c);
    }
  }

  lemma ChronicleAppend(h: seq<Entry>, xs: seq<Entry>, now: u64)
    requires Chronicle(h, now)
    requires Positive(xs) && forall i :: 0 <= i < |xs| ==> xs[i].ts == now
    ensures Chronicle(h + xs, now)
  {
  }

  // ---- What the total says about the history ----

  /** The conservative-refinement law of one window: once pruned, the total is
      at least the true rolling sum, equals it while the entries agree with the
      history, and, with no entry newer than the history, is zero exactly when
      the rolling sum is. */
  lemma TotalBoundsRolling(h: seq<Entry>, w: Window, now: u64, width: u64, ceiling: int)
    requires WellFormed(w, ceiling) && NotAfter(w.entries, now) && AllLive(w.entries, now, width)
    requires Chronicle(h, now) && now < U64_MAX && width > 0
    requires Dominates(h, w.entries, now - width)
    ensures 0 <= Rolling(h, now, width) <= w.total
    ensures NoneNewer(h, w.entries) ==> (w.total == 0 <==> Rolling(h, now, width) == 0)
    ensures Agrees(h, w.entries, now - width) ==> w.total == Rolling(h, now, width)
  {
    SinceNone(h, now);
    SinceMonotone(h, now - width, now);
    SinceAll(w.entries, now - width);
    assert Since(h, now - width) <= Since(w.entries, now - width);
    SumNonNegative(w.entries);
    if Rolling(h, now, width) == 0 && NoneNewer(h, w.entries) {
      forall i | 0 <= i < |h| ensures h[i].ts <= now - width {
        if h[i].ts > now - width { SinceShows(h, i, now - width); }
      }
      assert NotAfter(h, now - width);
      assert w.entries == [];
    }
  }

  // ---- Ceilings ----

  /** Appending at `now` an amount that keeps the span ending at `now` within
      the cap keeps every span within it. */
  lemma CeilingStep(h: seq<Entry>, xs: seq<Entry>, now: u64, width: int, cap: int)
    requires Chronicle(h, now) && width > 0
    requires Positive(xs) && forall i :: 0 <= i < |xs| ==> xs[i].ts == now
    requires Ceiling(h, width, cap)
    requires Since(h + xs, now - width) <= cap
    ensures Ceiling(h + xs, width, cap)
  {
    hide Since;
    ChronicleAppend(h, xs, now);
    forall t: int ensures Rolling(h + xs, t, width) <= cap {
      if t >= now {
        SinceNone(h + xs, t);
        SinceMonotone(h + xs, now - width, t - width);
      } else {
        assert Rolling(h, t, width) <= cap;
        RollingBefore(h, xs, now, t, width);
      }
    }
  }

  /** Spans that end before `now` do not see what is appended at `now`. */
  lemma RollingBefore(h: seq<Entry>, xs: seq<Entry>, now: u64, t: int, width: int)
    requires t < now && width > 0 && forall i :: 0 <= i < |xs| ==> xs[i].ts == now
    ensures Rolling(h + xs, t, width) == Rolling(h, t, width)
  {
    hide Since;
    SinceConcat(h, xs, t);
    SinceConcat(h, xs, t - width);
    SinceAll(xs, t);
    SinceAll(xs, t - width);
  }
}
