/**
 * How far the sliding window can be passed (src/di/rate_limiter.py:75-80): the bound of
 * SlidingWindow is attained, and these are the limits for which more than `times` requests are
 * never admitted within one window's length.
 */
module SlidingExcess {
  import opened SlidingWindow

  /** The same admission `n` times. */
  function Repeat(a: Admission, n: nat): (h: History)
    ensures |h| == n && forall i :: 0 <= i < n ==> h[i] == a
  {
    if n == 0 then [] else Repeat(a, n - 1) + [a]
  }

  /** `p` admissions in the last second of window 0, then `c` of them `e` seconds into window 1. */
  function Burst(base: string, window: nat, p: nat, c: nat, e: nat): History
    requires window >= 1
  {
    Repeat(Admission(base, window - 1), p) + Repeat(Admission(base, window + e), c)
  }

  /** While there is room, the same request is admitted again and again. */
  lemma {:induction false} RepeatIsLegal(limit: Limit, h: History, a: Admission, n: nat)
    requires limit.window >= 1 && Legal(limit, h) && Before(h, a.at)
    requires n >= 1 ==> Weighted(limit.window, h, a.base, a.at) + (n - 1) * limit.window < limit.times * limit.window
    ensures Legal(limit, h + Repeat(a, n)) && Before(h + Repeat(a, n), a.at)
    ensures Weighted(limit.window, h + Repeat(a, n), a.base, a.at)
         == Weighted(limit.window, h, a.base, a.at) + n * limit.window
    ensures forall k :: Count(limit.window, h + Repeat(a, n), a.base, k)
                     == Count(limit.window, h, a.base, k) + if a.at / limit.window == k then n else 0
  {
    hide Legal, Count, Weighted;
    if n == 0 {
      assert h + Repeat(a, 0) == h;
    } else {
      MulNext(n - 1, limit.window);
      MulMonotone(n - 2, n - 1, limit.window);
      RepeatIsLegal(limit, h, a, n - 1);
      var h' := h + Repeat(a, n - 1);
      LegalAppend(limit, h', a);
      assert h + Repeat(a, n) == h' + [a];
      RepeatOnce(limit.window, h', a);
    }
  }

  lemma {:induction false} RepeatOnce(window: nat, h: History, a: Admission)
    requires window >= 1
    ensures forall k :: Count(window, h + [a], a.base, k)
                     == Count(window, h, a.base, k) + if a.at / window == k then 1 else 0
    ensures Weighted(window, h + [a], a.base, a.at) == Weighted(window, h, a.base, a.at) + window
  {
    forall k {
      CountAppend(window, h, a, a.base, k);
    }
    MulNext(Count(window, h, a.base, a.at / window), window);
  }

  lemma {:induction false} BurstTimes(window: nat, e: nat)
    requires window >= 1 && e < window
    ensures (window - 1) / window == 0 && (window - 1) % window == window - 1
    ensures (window + e) / window == 1 && (window + e) % window == e
  {
    assert window + e == (window + e) / window * window + (window + e) % window;
    ResetWindow(window, 0, window);
    WindowOrder(window, window, window + e);
    if (window + e) / window >= 2 {
      MulMonotone(2, (window + e) / window, window);
    }
  }

  lemma {:induction false} NothingYet(limit: Limit, base: string, now: nat)
    requires limit.window >= 1
    ensures Legal(limit, []) && Weighted(limit.window, [], base, now) == 0
    ensures forall k :: Count(limit.window, [], base, k) == 0
  {
  }

  lemma {:induction false} FirstBurst(limit: Limit, base: string, p: nat)
    requires limit.window >= 1 && p <= limit.times
    ensures var h := Repeat(Admission(base, limit.window - 1), p);
            && Legal(limit, h)
            && Count(limit.window, h, base, 0) == p && Count(limit.window, h, base, 1) == 0
  {
    hide Legal, Count;
    var W, last := limit.window, Admission(base, limit.window - 1);
    BurstTimes(W, 0);
    NothingYet(limit, base, W - 1);
    if p >= 1 {
      MulMonotone(p, limit.times, W);
      MulNext(p - 1, W);
    }
    RepeatIsLegal(limit, [], last, p);
    assert [] + Repeat(last, p) == Repeat(last, p);
  }

  lemma {:induction false} WeightedNext(window: nat, h: History, base: string, e: nat)
    requires window >= 1 && e < window
    ensures Weighted(window, h, base, window + e)
         == Count(window, h, base, 0) * (window - e) + Count(window, h, base, 1) * window
  {
    BurstTimes(window, e);
  }

  /** The bound is attained: window 1 admits as many, at that second, as the bound leaves room for. */
  lemma {:induction false} BurstIsLegal(limit: Limit, base: string, p: nat, c: nat, e: nat)
    requires limit.window >= 1 && p <= limit.times && e < limit.window
    requires c >= 1 ==> limit.window * (p + c) < limit.window * (limit.times + 1) + p * e
    ensures var h := Burst(base, limit.window, p, c, e);
            && Legal(limit, h)
            && Count(limit.window, h, base, 0) == p && Count(limit.window, h, base, 1) == c
  {
    hide Legal, Count, Weighted;
    var W, first, next := limit.window, Repeat(Admission(base, limit.window - 1), p), Admission(base, limit.window + e);
    FirstBurst(limit, base, p);
    BurstTimes(W, e);
    WeightedNext(W, first, base, e);
    if c >= 1 {
      BurstRoom(W, limit.times, p, c, e);
    }
    RepeatIsLegal(limit, first, next, c);
  }

  lemma {:induction false} BurstRoom(W: nat, L: nat, p: nat, c: nat, e: nat)
    requires c >= 1 && e < W && W * (p + c) < W * (L + 1) + p * e
    ensures p * (W - e) + 0 * W + (c - 1) * W < L * W
  {
    assert W * (p + c) == p * W + (c - 1) * W + W;
    assert p * (W - e) == p * W - p * e;
    assert W * (L + 1) == L * W + W;
  }

  lemma {:induction false} TotalOfAll(h: History, base: string)
    requires forall i :: 0 <= i < |h| ==> h[i].base == base
    ensures Total(h, base) == |h|
  {
    if h != [] {
      TotalOfAll(h[..|h| - 1], base);
    }
  }

  // ---------- The exact reach of the bound ----------

  /**
   * In a legal history, admissions i to j: `n` of them are of `base`, the last one comes `e`
   * seconds into its window, and the first one no earlier than the window before, which admitted
   * `p` of `base`.
   */
  ghost predicate IsStretch(limit: Limit, base: string, p: nat, e: nat, n: nat, h: History, i: nat, j: nat)
    requires limit.window >= 1
  {
    && Legal(limit, h) && i <= j < |h| && h[j].base == base
    && h[j].at / limit.window - 1 <= h[i].at / limit.window && h[j].at % limit.window == e
    && Count(limit.window, h, base, h[j].at / limit.window - 1) == p
    && Total(h[i..j + 1], base) == n
  }

  ghost predicate Reaches(limit: Limit, base: string, p: nat, e: nat, n: nat)
    requires limit.window >= 1
  {
    exists h: History, i: nat, j: nat :: IsStretch(limit, base, p, e, n, h, i, j)
  }

  function Max(a: nat, b: nat): nat {
    if a < b then b else a
  }

  /**
   * SlidingBound is tight: its inequality, with room for the last admission itself, says exactly
   * which stretches there are.
   */
  lemma {:induction false} SlidingBoundIsTight(limit: Limit, base: string, p: nat, e: nat, n: nat)
    requires limit.window >= 1
    ensures Reaches(limit, base, p, e, n)
       <==> && n >= 1 && p <= limit.times && e < limit.window
            && limit.window * Max(n, p + 1) < limit.window * (limit.times + 1) + p * e
  {
    hide IsStretch, Max;
    if Reaches(limit, base, p, e, n) {
      var h: History, i: nat, j: nat :| IsStretch(limit, base, p, e, n, h, i, j);
      ReachIsBounded(limit, base, p, e, n, h, i, j);
    }
    if n >= 1 && p <= limit.times && e < limit.window
      && limit.window * Max(n, p + 1) < limit.window * (limit.times + 1) + p * e
    {
      BurstReaches(limit, base, p, e, n);
    }
  }

  lemma {:induction false} ReachIsBounded(limit: Limit, base: string, p: nat, e: nat, n: nat,
                                          h: History, i: nat, j: nat)
    requires limit.window >= 1 && IsStretch(limit, base, p, e, n, h, i, j)
    ensures n >= 1 && p <= limit.times && e < limit.window
    ensures limit.window * Max(n, p + 1) < limit.window * (limit.times + 1) + p * e
  {
    hide Legal, Count;
    assert h[i..j + 1] == h[i..j] + [h[j]];
    TotalAppend(h[i..j], h[j], base);
    WindowBound(limit, h, base, h[j].at / limit.window - 1);
    var current := StretchFitsTheTest(limit, h, i, j);
    SlidingArithmetic(limit.window, limit.times, p, current, Max(n, p + 1), e);
  }

  lemma {:induction false} BurstReaches(limit: Limit, base: string, p: nat, e: nat, n: nat)
    requires limit.window >= 1 && n >= 1 && p <= limit.times && e < limit.window
    requires limit.window * Max(n, p + 1) < limit.window * (limit.times + 1) + p * e
    ensures Reaches(limit, base, p, e, n)
  {
    hide Legal, Count, Total;
    var c := Max(n, p + 1) - p;
    var h := Burst(base, limit.window, p, c, e);
    var i, j := |h| - n, |h| - 1;
    BurstIsLegal(limit, base, p, c, e);
    BurstTimes(limit.window, e);
    TotalOfAll(h[i..j + 1], base);
    assert IsStretch(limit, base, p, e, n, h, i, j);
  }

  /** More than `times` is possible exactly when something carries over: P * e > 0. */
  lemma {:induction false} ExcessNeedsCarry(limit: Limit, base: string, p: nat, e: nat)
    requires limit.window >= 1
    ensures (exists n :: n > limit.times && Reaches(limit, base, p, e, n))
       <==> 1 <= p <= limit.times && 1 <= e < limit.window
  {
    hide Reaches;
    var W, L := limit.window, limit.times;
    forall n | n > L && Reaches(limit, base, p, e, n)
      ensures 1 <= p <= L && 1 <= e < W
    {
      SlidingBoundIsTight(limit, base, p, e, n);
      MulMonotone(L + 1, Max(n, p + 1), W);
    }
    if 1 <= p <= L && 1 <= e < W {
      MulMonotone(1, p, e);
      SlidingBoundIsTight(limit, base, p, e, L + 1);
    }
  }

  // ---------- Within one window's length ----------

  /** Some legal history has a stretch shorter than the window with `n` admissions of one client and route. */
  ghost predicate ReachesWithinWindow(limit: Limit, n: nat)
    requires limit.window >= 1
  {
    exists h: History, i: nat, j: nat ::
      && Legal(limit, h) && i <= j < |h| && h[j].at - h[i].at < limit.window
      && Total(h[i..j + 1], h[j].base) == n
  }

  /** The worst case within one window's length, for all limits. */
  lemma {:induction false} WorstCaseExactly(limit: Limit, n: nat)
    requires limit.window >= 1 && n > limit.times
    ensures ReachesWithinWindow(limit, n)
       <==> limit.window * n < limit.window * (limit.times + 1) + limit.times * (limit.window - 2)
  {
    var W, L := limit.window, limit.times;
    if ReachesWithinWindow(limit, n) {
      var h: History, i: nat, j: nat :|
        Legal(limit, h) && i <= j < |h| && h[j].at - h[i].at < W && Total(h[i..j + 1], h[j].base) == n;
      ShortStretch(limit, h, i, j);
    }
    if W * n < W * (L + 1) + L * (W - 2) {
      WorstBurst(limit, n);
    }
  }

  lemma {:induction false} PositiveFactors(a: nat, b: int)
    requires a * b > 0
    ensures a > 0 && b > 0
  {
    if b <= 0 {
      MulMonotone(b, 0, a);
    }
  }

  lemma {:induction false} WorstBurst(limit: Limit, n: nat)
    requires limit.window >= 1 && n > limit.times
    requires limit.window * n < limit.window * (limit.times + 1) + limit.times * (limit.window - 2)
    ensures ReachesWithinWindow(limit, n)
  {
    var W, L := limit.window, limit.times;
    MulMonotone(L + 1, n, W);
    PositiveFactors(L, W - 2);
    var h := Burst("", W, L, n - L, W - 2);
    BurstIsLegal(limit, "", L, n - L, W - 2);
    TotalOfAll(h, "");
    assert h[0..|h| - 1 + 1] == h;
    assert h[|h| - 1].at - h[0].at == W - 1;
  }

  lemma {:induction false} ShortStretch(limit: Limit, h: History, i: nat, j: nat)
    requires limit.window >= 1 && Legal(limit, h) && i <= j < |h| && h[j].at - h[i].at < limit.window
    requires Total(h[i..j + 1], h[j].base) > limit.times
    ensures limit.window * Total(h[i..j + 1], h[j].base)
          < limit.window * (limit.times + 1) + limit.times * (limit.window - 2)
  {
    var W, base, k, e := limit.window, h[j].base, h[j].at / limit.window, h[j].at % limit.window;
    LegalAt(limit, h, i);
    ShorterThanWindow(W, h[i].at, h[j].at);
    if h[i].at / W == k {
      WithinOneWindow(limit, h, i, j);
      assert false;
    }
    SlidingBound(limit, h, i, j);
    WindowBound(limit, h, base, k - 1);
    MulMonotone(Count(W, h, base, k - 1), limit.times, e);
    MulMonotone(e, W - 2, limit.times);
  }

  /** A stretch shorter than the window either stays in one window or ends two seconds before the end of the next. */
  lemma {:induction false} ShorterThanWindow(W: nat, first: nat, last: nat)
    requires W >= 1 && first <= last < first + W
    ensures last / W == first / W || (last / W - 1 == first / W && last % W <= W - 2)
  {
    WindowOrder(W, first, last);
    var k := last / W;
    assert last == k * W + last % W;
    assert first == first / W * W + first % W;
    if first / W < k {
      MulMonotone(first / W + 1, k, W);
      MulNext(first / W, W);
      if first / W + 1 < k {
        MulMonotone(first / W + 2, k, W);
        MulNext(first / W + 1, W);
      }
    }
  }

  lemma {:induction false} StretchWithin(limit: Limit, h: History, i: nat, j: nat, base: string, k: int)
    requires limit.window >= 1 && Legal(limit, h) && i <= j < |h|
    ensures Count(limit.window, h[i..j + 1], base, k) <= limit.times
  {
    hide Legal, Count;
    var stretch := h[i..j + 1];
    assert h == h[..i] + stretch + h[j + 1..];
    CountConcat(limit.window, h[..i] + stretch, h[j + 1..], base, k);
    CountConcat(limit.window, h[..i], stretch, base, k);
    WindowBound(limit, h, base, k);
  }

  lemma {:induction false} WithinOneWindow(limit: Limit, h: History, i: nat, j: nat)
    requires limit.window >= 1 && Legal(limit, h) && i <= j < |h|
    requires h[i].at / limit.window == h[j].at / limit.window
    ensures Total(h[i..j + 1], h[j].base) <= limit.times
  {
    hide Legal, Count, Total;
    StretchIsTwoWindows(limit, h, i, j);
    TotalOfTwoWindows(limit.window, h[i..j + 1], h[j].base, h[j].at / limit.window);
    LegalAt(limit, h, i);
    NoneBefore(limit.window, h[i..j + 1], h[i].at, h[j].base);
    StretchWithin(limit, h, i, j, h[j].base, h[j].at / limit.window);
  }

  /** At most `times` in every stretch shorter than the window, whatever is asked. */
  ghost predicate NeverMoreThanTheLimit(limit: Limit)
    requires limit.window >= 1
  {
    forall h: History, i: nat, j: nat :: Legal(limit, h) && i <= j < |h| && h[j].at - h[i].at < limit.window ==>
      Total(h[i..j + 1], h[j].base) <= limit.times
  }

  lemma {:induction false} KeptForShortWindows(limit: Limit, h: History, i: nat, j: nat)
    requires limit.window >= 1 && (limit.window <= 2 || limit.times == 0)
    requires Legal(limit, h) && i <= j < |h| && h[j].at - h[i].at < limit.window
    ensures Total(h[i..j + 1], h[j].base) <= limit.times
  {
    if Total(h[i..j + 1], h[j].base) > limit.times {
      ShortStretch(limit, h, i, j);
      NoExcess(limit.window, limit.times, Total(h[i..j + 1], h[j].base));
    }
  }

  /** The limiter keeps its limit within every window's length for windows of one or two seconds only. */
  lemma {:induction false} KeptExactlyForShortWindows(limit: Limit)
    requires limit.window >= 1
    ensures NeverMoreThanTheLimit(limit) <==> limit.window <= 2 || limit.times == 0
  {
    hide Legal, Total;
    if limit.window <= 2 || limit.times == 0 {
      forall h: History, i: nat, j: nat | Legal(limit, h) && i <= j < |h| && h[j].at - h[i].at < limit.window
        ensures Total(h[i..j + 1], h[j].base) <= limit.times
      {
        KeptForShortWindows(limit, h, i, j);
      }
    } else {
      MulMonotone(1, limit.times, limit.window - 2);
      WorstCaseExactly(limit, limit.times + 1);
    }
  }

  lemma {:induction false} NoExcess(W: nat, L: nat, n: nat)
    requires W >= 1 && (W <= 2 || L == 0) && n > L
    ensures W * n >= W * (L + 1) + L * (W - 2)
  {
    MulMonotone(L + 1, n, W);
    if L > 0 {
      MulMonotone(W - 2, 0, L);
    }
  }

  /** An instance: three admissions in four seconds, at two for each four. */
  lemma {:induction false} MoreThanTheLimitLater()
    ensures var limit, h := Limit(2, 4), [Admission("a", 3), Admission("a", 3), Admission("a", 6)];
            Legal(limit, h) && Total(h, "a") > limit.times && h[2].at - h[0].at < limit.window
  {
    var h := Burst("a", 4, 2, 1, 2);
    BurstIsLegal(Limit(2, 4), "a", 2, 1, 2);
    assert h == [Admission("a", 3), Admission("a", 3), Admission("a", 6)];
    TotalOfAll(h, "a");
  }
}
