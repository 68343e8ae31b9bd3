/**
 * The sliding-window limit as a rule over the full history of admissions: what the limiter of
 * src/di/rate_limiter.py promises, without its counters and their expiry. Times are in seconds,
 * and the estimate is compared after multiplying through by the window, so it is exact.
 */
module SlidingWindow {

  /** At most `times` requests for each `window` seconds. */
  datatype Limit = Limit(times: nat, window: nat)

  /** An admitted request; `base` names the client and route that are counted together. */
  datatype Admission = Admission(base: string, at: nat)

  type History = seq<Admission>

  /** Admissions of `base` in the fixed window number `k`. */
  function Count(window: nat, h: History, base: string, k: int): nat
    requires window >= 1
  {
    if h == [] then 0
    else
      var last := h[|h| - 1];
      Count(window, h[..|h| - 1], base, k) + if last.base == base && last.at / window == k then 1 else 0
  }

  /** The estimate times the window: the previous window weighs what is left of it. */
  function Weighted(window: nat, h: History, base: string, now: nat): int
    requires window >= 1
  {
    Count(window, h, base, now / window - 1) * (window - now % window) + Count(window, h, base, now / window) * window
  }

  predicate Admits(limit: Limit, h: History, base: string, now: nat)
    requires limit.window >= 1
  {
    Weighted(limit.window, h, base, now) < limit.times * limit.window
  }

  /** The remaining header of an admitted request: the estimate that counts it, taken from the limit. */
  function Remaining(limit: Limit, h: History, base: string, now: nat): nat
    requires limit.window >= 1
  {
    var left := (limit.times * limit.window - (Weighted(limit.window, h, base, now) + limit.window)) / limit.window;
    if left > 0 then left else 0
  }

  function ResetAt(limit: Limit, now: nat): nat
    requires limit.window >= 1
  {
    (now / limit.window + 1) * limit.window
  }

  datatype Request = Request(base: string, at: nat)

  datatype Verdict = Allowed(remaining: nat, resetAt: nat) | Rejected(retryAfter: int, resetAt: nat)

  function Decide(limit: Limit, h: History, r: Request): Verdict
    requires limit.window >= 1
  {
    if Admits(limit, h, r.base, r.at) then Allowed(Remaining(limit, h, r.base, r.at), ResetAt(limit, r.at))
    else Rejected(ResetAt(limit, r.at) - r.at, ResetAt(limit, r.at))
  }

  function Record(limit: Limit, h: History, r: Request): History
    requires limit.window >= 1
  {
    if Admits(limit, h, r.base, r.at) then h + [Admission(r.base, r.at)] else h
  }

  function Serve(limit: Limit, h: History, requests: seq<Request>): History
    requires limit.window >= 1
    decreases |requests|
  {
    if requests == [] then h else Serve(limit, Record(limit, h, requests[0]), requests[1..])
  }

  function Verdicts(limit: Limit, h: History, requests: seq<Request>): (vs: seq<Verdict>)
    requires limit.window >= 1
    ensures |vs| == |requests|
    decreases |requests|
  {
    if requests == [] then []
    else [Decide(limit, h, requests[0])] + Verdicts(limit, Record(limit, h, requests[0]), requests[1..])
  }

  /** The requests come at times that do not decrease, from `start` on. */
  predicate Ordered(start: nat, requests: seq<Request>) {
    && (forall i :: 0 <= i < |requests| ==> start <= requests[i].at)
    && (forall i, j :: 0 <= i < j < |requests| ==> requests[i].at <= requests[j].at)
  }

  /** No admission is later than `now`. */
  predicate Before(h: History, now: nat) {
    forall i :: 0 <= i < |h| ==> h[i].at <= now
  }

  /** A history the limiter can have produced: each admission, in time order, passed the test. */
  ghost predicate Legal(limit: Limit, h: History)
    requires limit.window >= 1
  {
    h == [] ||
    (var earlier, last := h[..|h| - 1], h[|h| - 1];
     Legal(limit, earlier) && Before(earlier, last.at) && Admits(limit, earlier, last.base, last.at))
  }

  lemma {:induction false} LegalAppend(limit: Limit, h: History, a: Admission)
    requires limit.window >= 1 && Legal(limit, h) && Before(h, a.at) && Admits(limit, h, a.base, a.at)
    ensures Legal(limit, h + [a]) && Before(h + [a], a.at)
  {
    assert (h + [a])[..|h|] == h;
  }

  /** Any sequence of requests over an empty store leaves a legal history. */
  lemma {:induction false} ServeIsLegal(limit: Limit, h: History, start: nat, requests: seq<Request>)
    requires limit.window >= 1 && Legal(limit, h) && Before(h, start) && Ordered(start, requests)
    ensures Legal(limit, Serve(limit, h, requests))
    decreases |requests|
  {
    if requests != [] {
      var r := requests[0];
      var h' := Record(limit, h, r);
      assert h' != h ==> h'[..|h'| - 1] == h;
      ServeIsLegal(limit, h', r.at, requests[1..]);
    }
  }

  lemma {:induction false} ServeAppend(limit: Limit, h: History, requests: seq<Request>, r: Request)
    requires limit.window >= 1
    ensures Serve(limit, h, requests + [r]) == Record(limit, Serve(limit, h, requests), r)
    ensures Verdicts(limit, h, requests + [r])
         == Verdicts(limit, h, requests) + [Decide(limit, Serve(limit, h, requests), r)]
    decreases |requests|
  {
    if requests == [] {
      assert Serve(limit, Record(limit, h, r), ([r])[1..]) == Record(limit, h, r);
    } else {
      assert (requests + [r])[1..] == requests[1..] + [r];
      ServeAppend(limit, Record(limit, h, requests[0]), requests[1..], r);
    }
  }

  // ---------- Counting ----------

  lemma {:induction false} CountConcat(window: nat, a: History, b: History, base: string, k: int)
    requires window >= 1
    ensures Count(window, a + b, base, k) == Count(window, a, base, k) + Count(window, b, base, k)
  {
    if b == [] {
      assert a + b == a;
    } else {
      assert (a + b)[..|a + b| - 1] == a + b[..|b| - 1];
      CountConcat(window, a, b[..|b| - 1], base, k);
    }
  }

  lemma {:induction false} CountAppend(window: nat, h: History, a: Admission, base: string, k: int)
    requires window >= 1
    ensures Count(window, h + [a], base, k)
         == Count(window, h, base, k) + if a.base == base && a.at / window == k then 1 else 0
  {
    assert (h + [a])[..|h|] == h;
  }

  lemma {:induction false} CountNone(window: nat, h: History, base: string, k: int)
    requires window >= 1
    requires forall i :: 0 <= i < |h| ==> h[i].base != base || h[i].at / window != k
    ensures Count(window, h, base, k) == 0
  {
    if h != [] {
      CountNone(window, h[..|h| - 1], base, k);
    }
  }

  lemma {:induction false} MulMonotone(a: int, b: int, c: int)
    requires a <= b && 0 <= c
    ensures a * c <= b * c && c * a <= c * b
  {
  }

  lemma {:induction false} MulCancel(a: int, b: int, c: int)
    requires a * c < b * c && 0 <= c
    ensures a < b
  {
    if b <= a {
      MulMonotone(b, a, c);
    }
  }

  lemma {:induction false} WindowOrder(window: nat, a: nat, b: nat)
    requires window >= 1 && a <= b
    ensures a / window <= b / window
  {
    assert a == a / window * window + a % window;
    assert b == b / window * window + b % window;
    assert (b / window + 1) * window == b / window * window + window;
    MulCancel(a / window, b / window + 1, window);
  }

  lemma {:induction false} CountLater(window: nat, h: History, base: string, now: nat, k: int)
    requires window >= 1 && Before(h, now) && k > now / window
    ensures Count(window, h, base, k) == 0
  {
    forall i | 0 <= i < |h|
      ensures h[i].at / window != k
    {
      WindowOrder(window, h[i].at, now);
    }
    CountNone(window, h, base, k);
  }

  /** Admissions of `base`, in whatever window. */
  function Total(h: History, base: string): nat {
    if h == [] then 0 else Total(h[..|h| - 1], base) + if h[|h| - 1].base == base then 1 else 0
  }

  lemma {:induction false} TotalAppend(h: History, a: Admission, base: string)
    ensures Total(h + [a], base) == Total(h, base) + if a.base == base then 1 else 0
  {
    assert (h + [a])[..|h|] == h;
  }

  /** All admissions are in window `k` or the one before it. */
  predicate InTwoWindows(window: nat, h: History, k: int)
    requires window >= 1
  {
    forall i :: 0 <= i < |h| ==> h[i].at / window == k - 1 || h[i].at / window == k
  }

  lemma {:induction false} TotalOfTwoWindows(window: nat, h: History, base: string, k: int)
    requires window >= 1 && InTwoWindows(window, h, k)
    ensures Total(h, base) == Count(window, h, base, k - 1) + Count(window, h, base, k)
  {
    if h != [] {
      TotalOfTwoWindows(window, h[..|h| - 1], base, k);
    }
  }

  lemma {:induction false} LegalAt(limit: Limit, h: History, j: nat)
    requires limit.window >= 1 && Legal(limit, h) && j < |h|
    ensures Legal(limit, h[..j]) && Before(h[..j], h[j].at) && Admits(limit, h[..j], h[j].base, h[j].at)
    ensures forall i :: j <= i < |h| ==> h[j].at <= h[i].at
  {
    if j < |h| - 1 {
      var earlier := h[..|h| - 1];
      LegalAt(limit, earlier, j);
      assert earlier[..j] == h[..j];
      assert earlier[j] == h[j];
      forall i | j <= i < |h|
        ensures h[j].at <= h[i].at
      {
        if i < |h| - 1 {
          assert earlier[i] == h[i];
        }
      }
    }
  }

  // ---------- The bound ----------

  /** Each fixed window admits at most `times` requests of a client and route. */
  lemma {:induction false} WindowBound(limit: Limit, h: History, base: string, k: int)
    requires limit.window >= 1 && Legal(limit, h)
    ensures Count(limit.window, h, base, k) <= limit.times
  {
    if h != [] {
      var earlier, last := h[..|h| - 1], h[|h| - 1];
      WindowBound(limit, earlier, base, k);
      if last.base == base && last.at / limit.window == k {
        var previous := Count(limit.window, earlier, base, k - 1);
        MulMonotone(0, limit.window - last.at % limit.window, previous);
        MulCancel(Count(limit.window, earlier, base, k), limit.times, limit.window);
      }
    }
  }

  /** What the test that admitted the last of a stretch says about the whole stretch. */
  lemma {:induction false} StretchFitsTheTest(limit: Limit, h: History, i: nat, j: nat) returns (current: nat)
    requires limit.window >= 1 && Legal(limit, h) && i <= j < |h|
    requires h[j].at / limit.window - 1 <= h[i].at / limit.window
    ensures var W, k, e := limit.window, h[j].at / limit.window, h[j].at % limit.window;
            var previous := Count(W, h, h[j].base, k - 1);
            && previous * (W - e) + current * W < limit.times * W
            && Total(h[i..j + 1], h[j].base) <= previous + current + 1
  {
    hide Count;
    var W, base, k := limit.window, h[j].base, h[j].at / limit.window;
    StretchIsTwoWindows(limit, h, i, j);
    TotalOfTwoWindows(W, h[i..j + 1], base, k);
    StretchCounts(W, h, i, j, base, k - 1);
    StretchCounts(W, h, i, j, base, k);
    LegalAt(limit, h, j);
    PastWindowIsFinal(limit, h, j, base);
    current := Count(W, h[..j], base, k);
  }

  /**
   * The sliding bound. Take any stretch of admissions that starts in window k - 1 or later and
   * ends with one of `base`, e seconds into window k. If window k - 1 admitted P requests of
   * `base`, the stretch holds N of them with W * N < W * (L + 1) + P * e.
   */
  lemma {:induction false} SlidingBound(limit: Limit, h: History, i: nat, j: nat)
    requires limit.window >= 1 && Legal(limit, h) && i <= j < |h|
    requires h[j].at / limit.window - 1 <= h[i].at / limit.window
    ensures var k, e := h[j].at / limit.window, h[j].at % limit.window;
            limit.window * Total(h[i..j + 1], h[j].base)
              < limit.window * (limit.times + 1) + Count(limit.window, h, h[j].base, k - 1) * e
  {
    var W, base, k := limit.window, h[j].base, h[j].at / limit.window;
    var current := StretchFitsTheTest(limit, h, i, j);
    SlidingArithmetic(W, limit.times, Count(W, h, base, k - 1), current, Total(h[i..j + 1], base), h[j].at % W);
  }

  lemma {:induction false} StretchIsTwoWindows(limit: Limit, h: History, i: nat, j: nat)
    requires limit.window >= 1 && Legal(limit, h) && i <= j < |h|
    requires h[j].at / limit.window - 1 <= h[i].at / limit.window
    ensures InTwoWindows(limit.window, h[i..j + 1], h[j].at / limit.window)
  {
    LegalAt(limit, h, i);
    var stretch, k := h[i..j + 1], h[j].at / limit.window;
    forall m | 0 <= m < |stretch|
      ensures stretch[m].at / limit.window == k - 1 || stretch[m].at / limit.window == k
    {
      LegalAt(limit, h, i + m);
      WindowOrder(limit.window, h[i].at, h[i + m].at);
      WindowOrder(limit.window, h[i + m].at, h[j].at);
    }
  }

  lemma {:induction false} SlidingArithmetic(W: nat, L: nat, P: nat, C: nat, N: nat, e: nat)
    requires P * (W - e) + C * W < L * W && N <= P + C + 1
    ensures W * N < W * (L + 1) + P * e
  {
    MulMonotone(N, P + C + 1, W);
    assert P * (W - e) == P * W - P * e;
    assert W * (P + C + 1) == W * P + W * C + W;
  }

  lemma {:induction false} StretchCounts(window: nat, h: History, i: nat, j: nat, base: string, k: int)
    requires window >= 1 && i <= j < |h|
    ensures Count(window, h[i..j + 1], base, k)
         <= Count(window, h[..j], base, k) + if h[j].base == base && h[j].at / window == k then 1 else 0
  {
    assert h[..i] + h[i..j] == h[..j];
    CountConcat(window, h[..i], h[i..j], base, k);
    assert h[i..j + 1] == h[i..j] + [h[j]];
    CountAppend(window, h[i..j], h[j], base, k);
  }

  lemma {:induction false} NoneBefore(window: nat, h: History, now: nat, base: string)
    requires window >= 1 && forall m :: 0 <= m < |h| ==> now <= h[m].at
    ensures Count(window, h, base, now / window - 1) == 0
  {
    forall m | 0 <= m < |h|
      ensures h[m].at / window != now / window - 1
    {
      WindowOrder(window, now, h[m].at);
    }
    CountNone(window, h, base, now / window - 1);
  }

  /** Once a window is past, nothing more is admitted in it. */
  lemma {:induction false} PastWindowIsFinal(limit: Limit, h: History, j: nat, base: string)
    requires limit.window >= 1 && Legal(limit, h) && j < |h|
    ensures Count(limit.window, h[..j], base, h[j].at / limit.window - 1)
         == Count(limit.window, h, base, h[j].at / limit.window - 1)
  {
    hide Count, Legal;
    LegalAt(limit, h, j);
    assert h == h[..j] + h[j..];
    CountConcat(limit.window, h[..j], h[j..], base, h[j].at / limit.window - 1);
    NoneBefore(limit.window, h[j..], h[j].at, base);
  }

  /** No doubling at the boundary: up to the first second of a window, at most `times`. */
  lemma {:induction false} NoDoublingAtTheBoundary(limit: Limit, h: History, i: nat, j: nat)
    requires limit.window >= 1 && Legal(limit, h) && i <= j < |h|
    requires h[j].at / limit.window - 1 <= h[i].at / limit.window
    requires h[j].at % limit.window == 0
    ensures Total(h[i..j + 1], h[j].base) <= limit.times
  {
    SlidingBound(limit, h, i, j);
    NothingCarriedOver(limit.window, limit.times, Total(h[i..j + 1], h[j].base),
                       Count(limit.window, h, h[j].base, h[j].at / limit.window - 1), h[j].at % limit.window);
  }

  lemma {:induction false} NothingCarriedOver(W: nat, L: nat, N: nat, P: nat, e: nat)
    requires W * N < W * (L + 1) + P * e && e == 0
    ensures N <= L
  {
    MulCancel(N, L + 1, W);
  }

  // ---------- After a rejection ----------

  /** What the weighted count is once the window of the rejection is past. */
  lemma {:induction false} WeightedLater(window: nat, h: History, others: History, base: string, now: nat, later: nat)
    requires window >= 1 && Before(h, now)
    requires forall i :: 0 <= i < |others| ==> others[i].base != base
    requires later >= (now / window + 1) * window
    ensures Weighted(window, h + others, base, later)
         == if later / window == now / window + 1
            then Count(window, h, base, now / window) * (window - later % window)
            else 0
  {
    var k := now / window;
    ResetWindow(window, k, (k + 1) * window);
    WindowOrder(window, (k + 1) * window, later);
    CountsUnchanged(window, h, others, base, later / window);
    CountsUnchanged(window, h, others, base, later / window - 1);
    CountLater(window, h, base, now, later / window);
    if later / window > k + 1 {
      CountLater(window, h, base, now, later / window - 1);
    }
  }

  /**
   * A rejected client is told to wait between one second and a window; if it is admitted nowhere
   * in between (others may be), it is admitted at every second after the reset, and at the reset
   * itself exactly when the rejected window was not full.
   */
  lemma {:induction false} RecoveryAfterRejection(limit: Limit, h: History, base: string, now: nat,
                                                  others: History, later: nat)
    requires limit.window >= 1 && limit.times >= 1 && Legal(limit, h) && Before(h, now)
    requires Decide(limit, h, Request(base, now)).Rejected?
    requires forall i :: 0 <= i < |others| ==> others[i].base != base
    ensures Record(limit, h, Request(base, now)) == h
    ensures var verdict := Decide(limit, h, Request(base, now));
            && 1 <= verdict.retryAfter <= limit.window
            && verdict.resetAt == now + verdict.retryAfter
            && (later > verdict.resetAt ==> Admits(limit, h + others, base, later))
            && (Admits(limit, h + others, base, verdict.resetAt)
                <==> Count(limit.window, h, base, now / limit.window) < limit.times)
  {
    ResetIsNext(limit, now);
    RecoveryAtReset(limit, h, base, now, others);
    if later > ResetAt(limit, now) {
      RecoveryAfterReset(limit, h, base, now, others, later);
    }
  }

  lemma {:induction false} RecoveryAtReset(limit: Limit, h: History, base: string, now: nat, others: History)
    requires limit.window >= 1 && Before(h, now)
    requires forall i :: 0 <= i < |others| ==> others[i].base != base
    ensures Admits(limit, h + others, base, ResetAt(limit, now))
       <==> Count(limit.window, h, base, now / limit.window) < limit.times
  {
    var reset := ResetAt(limit, now);
    ResetWindow(limit.window, now / limit.window, reset);
    WeightedLater(limit.window, h, others, base, now, reset);
    FullAtReset(limit.window, limit.times, Count(limit.window, h, base, now / limit.window));
  }

  lemma {:induction false} RecoveryAfterReset(limit: Limit, h: History, base: string, now: nat,
                                              others: History, later: nat)
    requires limit.window >= 1 && limit.times >= 1 && Legal(limit, h) && Before(h, now)
    requires forall i :: 0 <= i < |others| ==> others[i].base != base
    requires later > ResetAt(limit, now)
    ensures Admits(limit, h + others, base, later)
  {
    WindowBound(limit, h, base, now / limit.window);
    WeightedLater(limit.window, h, others, base, now, later);
    LaterInWindow(limit.window, now / limit.window, ResetAt(limit, now), later);
    RoomLater(limit.window, limit.times, Count(limit.window, h, base, now / limit.window), later % limit.window);
  }

  lemma {:induction false} ResetIsNext(limit: Limit, now: nat)
    requires limit.window >= 1
    ensures 1 <= ResetAt(limit, now) - now <= limit.window
  {
    assert now == now / limit.window * limit.window + now % limit.window;
    assert ResetAt(limit, now) == now / limit.window * limit.window + limit.window;
  }

  lemma {:induction false} LaterInWindow(W: nat, k: nat, reset: nat, later: nat)
    requires W >= 1 && reset == (k + 1) * W && later > reset
    ensures later / W == k + 1 ==> later % W >= 1
  {
    assert later == later / W * W + later % W;
  }

  lemma {:induction false} FullAtReset(W: nat, L: nat, full: nat)
    requires W >= 1
    ensures full * (W - 0) < L * W <==> full < L
  {
    if full < L {
      MulMonotone(full + 1, L, W);
    } else {
      MulMonotone(L, full, W);
    }
  }

  lemma {:induction false} RoomLater(W: nat, L: nat, full: nat, e: nat)
    requires full <= L && L >= 1 && W >= 1 && e < W
    ensures 0 < L * W
    ensures e >= 1 ==> full * (W - e) < L * W
  {
    MulMonotone(1, L, W);
    MulMonotone(full, L, W - e);
    assert L * (W - e) == L * W - L * e;
    if e >= 1 {
      MulMonotone(1, L, e);
    }
  }

  lemma {:induction false} ResetWindow(window: nat, k: nat, reset: nat)
    requires window >= 1 && reset == k * window + window
    ensures reset / window == k + 1 && reset % window == 0
  {
    assert reset == (k + 1) * window;
    assert reset == reset / window * window + reset % window;
    if reset / window > k + 1 {
      MulMonotone(k + 2, reset / window, window);
    } else if reset / window < k + 1 {
      MulMonotone(reset / window, k, window);
    }
  }

  lemma {:induction false} CountsUnchanged(window: nat, h: History, others: History, base: string, k: int)
    requires window >= 1
    requires forall i :: 0 <= i < |others| ==> others[i].base != base
    ensures Count(window, h + others, base, k) == Count(window, h, base, k)
  {
    CountConcat(window, h, others, base, k);
    CountNone(window, others, base, k);
  }

  // ---------- The reset header ----------

  /** The reset time is the next multiple of the window, and a retry is asked for exactly then. */
  predicate NamesNextWindow(window: nat, at: nat, v: Verdict)
    requires window >= 1
  {
    && v.resetAt % window == 0 && at < v.resetAt <= at + window
    && (v.Rejected? ==> at + v.retryAfter == v.resetAt)
  }

  lemma {:induction false} DecisionNamesNextWindow(limit: Limit, h: History, r: Request)
    requires limit.window >= 1
    ensures NamesNextWindow(limit.window, r.at, Decide(limit, h, r))
  {
    hide Admits, Remaining, ResetAt;
    ResetIsNext(limit, r.at);
    ResetIsMultiple(limit, r.at);
  }

  lemma {:induction false} ResetIsMultiple(limit: Limit, now: nat)
    requires limit.window >= 1
    ensures ResetAt(limit, now) % limit.window == 0
  {
    MulNext(now / limit.window, limit.window);
    ResetWindow(limit.window, now / limit.window, ResetAt(limit, now));
  }

  /** Every reply, allowed or rejected, names the start of the window after its request. */
  lemma {:induction false} VerdictsNameNextWindow(limit: Limit, h: History, requests: seq<Request>, i: nat)
    requires limit.window >= 1 && i < |requests|
    ensures NamesNextWindow(limit.window, requests[i].at, Verdicts(limit, h, requests)[i])
    decreases |requests|
  {
    hide NamesNextWindow, Decide, Record;
    if i == 0 {
      DecisionNamesNextWindow(limit, h, requests[0]);
    } else {
      VerdictsNameNextWindow(limit, Record(limit, h, requests[0]), requests[1..], i - 1);
    }
  }

  // ---------- The remaining header ----------

  /** How many of the requests are for `base`. */
  function Asked(requests: seq<Request>, base: string): nat
    decreases |requests|
  {
    if requests == [] then 0 else (if requests[0].base == base then 1 else 0) + Asked(requests[1..], base)
  }

  /** The requests for `base` come in window `k`, no earlier than `e` seconds into it. */
  predicate InWindow(window: nat, requests: seq<Request>, base: string, k: int, e: nat)
    requires window >= 1
  {
    forall i :: 0 <= i < |requests| && requests[i].base == base ==>
      requests[i].at / window == k && requests[i].at % window >= e
  }

  lemma {:induction false} RecordCounts(limit: Limit, h: History, r: Request, base: string, k: int)
    requires limit.window >= 1
    ensures var one := if r.base == base && Admits(limit, h, r.base, r.at) then 1 else 0;
            && Total(Record(limit, h, r), base) == Total(h, base) + one
            && Count(limit.window, Record(limit, h, r), base, k)
               == Count(limit.window, h, base, k) + if r.at / limit.window == k then one else 0
  {
    CountAppend(limit.window, h, Admission(r.base, r.at), base, k);
    TotalAppend(h, Admission(r.base, r.at), base);
  }

  /** With room for all the requests for `base`, all of them are admitted. */
  lemma {:induction false} RoomForAll(limit: Limit, h: History, base: string, k: int, e: nat, requests: seq<Request>)
    requires limit.window >= 1 && e < limit.window && InWindow(limit.window, requests, base, k, e)
    requires Asked(requests, base) == 0 ||
      Count(limit.window, h, base, k - 1) * (limit.window - e)
        + (Count(limit.window, h, base, k) + Asked(requests, base)) * limit.window <= limit.times * limit.window
    ensures Total(Serve(limit, h, requests), base) == Total(h, base) + Asked(requests, base)
    decreases |requests|
  {
    if requests != [] {
      var r := requests[0];
      RecordCounts(limit, h, r, base, k);
      RecordCounts(limit, h, r, base, k - 1);
      if r.base == base {
        RoomForOne(limit.window, limit.times, Count(limit.window, h, base, k - 1), Count(limit.window, h, base, k),
                   e, r.at % limit.window, Asked(requests, base));
      }
      RoomForAll(limit, Record(limit, h, r), base, k, e, requests[1..]);
    }
  }

  lemma {:induction false} RoomForOne(W: nat, L: nat, P: nat, C: nat, e: nat, e': nat, n: nat)
    requires P * (W - e) + (C + n) * W <= L * W && n >= 1 && e <= e' < W
    ensures P * (W - e') + C * W < L * W
    ensures (C + 1) + (n - 1) == C + n
  {
    MulMonotone(W - e', W - e, P);
    MulMonotone(C + 1, C + n, W);
    assert (C + 1) * W == C * W + W;
  }

  /** With room for fewer than `spare` more at one second, fewer than that are admitted then. */
  lemma {:induction false} RoomForSome(limit: Limit, h: History, base: string, now: nat,
                                       requests: seq<Request>, spare: nat)
    requires limit.window >= 1
    requires forall i :: 0 <= i < |requests| && requests[i].base == base ==> requests[i].at == now
    requires Weighted(limit.window, h, base, now) + spare * limit.window >= limit.times * limit.window
    ensures Total(Serve(limit, h, requests), base) <= Total(h, base) + spare
    decreases |requests|
  {
    if requests != [] {
      var r, h' := requests[0], Record(limit, h, requests[0]);
      WeightAfter(limit, h, r, base, now);
      TotalAfter(limit, h, r, base);
      if r.base == base && Admits(limit, h, base, now) {
        SpareIsPositive(Weighted(limit.window, h, base, now), spare, limit.times, limit.window);
        RoomForSome(limit, h', base, now, requests[1..], spare - 1);
      } else {
        RoomForSome(limit, h', base, now, requests[1..], spare);
      }
    }
  }

  lemma {:induction false} SpareIsPositive(weighted: int, spare: nat, times: nat, window: nat)
    requires weighted + spare * window >= times * window > weighted
    ensures spare > 0 && (spare - 1) * window == spare * window - window
  {
  }

  lemma {:induction false} TotalAfter(limit: Limit, h: History, r: Request, base: string)
    requires limit.window >= 1
    ensures Total(Record(limit, h, r), base)
         == Total(h, base) + if r.base == base && Admits(limit, h, r.base, r.at) then 1 else 0
  {
    TotalAppend(h, Admission(r.base, r.at), base);
  }

  /** A request for `base` at the same second adds a whole admission to the weighted count. */
  lemma {:induction false} WeightAfter(limit: Limit, h: History, r: Request, base: string, now: nat)
    requires limit.window >= 1 && (r.base == base ==> r.at == now)
    ensures Weighted(limit.window, Record(limit, h, r), base, now)
         == Weighted(limit.window, h, base, now)
            + if r.base == base && Admits(limit, h, r.base, r.at) then limit.window else 0
  {
    hide Count, Total;
    RecordCounts(limit, h, r, base, now / limit.window);
    RecordCounts(limit, h, r, base, now / limit.window - 1);
    MulNext(Count(limit.window, h, base, now / limit.window), limit.window);
  }

  lemma {:induction false} RemainingBounds(limit: Limit, h: History, base: string, now: nat)
    requires limit.window >= 1
    ensures var r, used := Remaining(limit, h, base, now), Weighted(limit.window, h, base, now) + limit.window;
            && (r > 0 ==> used + r * limit.window <= limit.times * limit.window)
            && used + (r + 1) * limit.window > limit.times * limit.window
  {
    var W := limit.window;
    var free := limit.times * W - (Weighted(W, h, base, now) + W);
    assert free == free / W * W + free % W;
    var r := Remaining(limit, h, base, now);
    assert (r + 1) * W == r * W + W;
    if free / W < 0 {
      MulMonotone(free / W, -1, W);
    } else if free / W == 0 {
      assert free / W * W == 0;
    }
  }

  /**
   * The remaining header is sound. After an allowed reply with r remaining, let any requests
   * follow, those for the same client and route in the same window. If at most r of these are
   * made, all are admitted, whenever they arrive; and if they all come at the same second, at most
   * r + 1 are admitted.
   */
  lemma {:induction false} RemainingIsSound(limit: Limit, h: History, base: string, now: nat, requests: seq<Request>)
    requires limit.window >= 1 && Decide(limit, h, Request(base, now)).Allowed?
    requires Ordered(now, requests)
    ensures var r := Decide(limit, h, Request(base, now)).remaining;
            var h' := Record(limit, h, Request(base, now));
            && (InWindow(limit.window, requests, base, now / limit.window, 0) && Asked(requests, base) <= r ==>
                 Total(Serve(limit, h', requests), base) == Total(h', base) + Asked(requests, base))
            && ((forall i :: 0 <= i < |requests| && requests[i].base == base ==> requests[i].at == now) ==>
                 Total(Serve(limit, h', requests), base) <= Total(h', base) + r + 1)
  {
    var h' := Record(limit, h, Request(base, now));
    if InWindow(limit.window, requests, base, now / limit.window, 0)
      && Asked(requests, base) <= Remaining(limit, h, base, now)
    {
      RemainingRoom(limit, h, base, now, requests);
    }
    if forall i :: 0 <= i < |requests| && requests[i].base == base ==> requests[i].at == now {
      RemainingCeiling(limit, h, base, now, requests);
    }
  }

  lemma {:induction false} RemainingRoom(limit: Limit, h: History, base: string, now: nat, requests: seq<Request>)
    requires limit.window >= 1 && Admits(limit, h, base, now)
    requires Ordered(now, requests) && InWindow(limit.window, requests, base, now / limit.window, 0)
    requires Asked(requests, base) <= Remaining(limit, h, base, now)
    ensures var h' := Record(limit, h, Request(base, now));
            Total(Serve(limit, h', requests), base) == Total(h', base) + Asked(requests, base)
  {
    var W, k, e := limit.window, now / limit.window, now % limit.window;
    var h' := Record(limit, h, Request(base, now));
    RecordCounts(limit, h, Request(base, now), base, k);
    RecordCounts(limit, h, Request(base, now), base, k - 1);
    RemainingBounds(limit, h, base, now);
    SameWindowLater(W, now, requests, base);
    RemainingArithmetic(W, limit.times, Count(W, h, base, k - 1), Count(W, h, base, k), e,
                        Remaining(limit, h, base, now), Asked(requests, base));
    RoomForAll(limit, h', base, k, e, requests);
  }

  lemma {:induction false} RemainingCeiling(limit: Limit, h: History, base: string, now: nat, requests: seq<Request>)
    requires limit.window >= 1 && Admits(limit, h, base, now)
    requires forall i :: 0 <= i < |requests| && requests[i].base == base ==> requests[i].at == now
    ensures var h' := Record(limit, h, Request(base, now));
            Total(Serve(limit, h', requests), base) <= Total(h', base) + Remaining(limit, h, base, now) + 1
  {
    var W, k := limit.window, now / limit.window;
    var h' := Record(limit, h, Request(base, now));
    RecordCounts(limit, h, Request(base, now), base, k);
    RecordCounts(limit, h, Request(base, now), base, k - 1);
    RemainingBounds(limit, h, base, now);
    MulNext(Count(W, h, base, k), W);
    RoomForSome(limit, h', base, now, requests, Remaining(limit, h, base, now) + 1);
  }

  lemma {:induction false} MulNext(c: int, w: int)
    ensures (c + 1) * w == c * w + w
  {
  }

  lemma {:induction false} RemainingArithmetic(W: nat, L: nat, P: nat, C: nat, e: nat, r: nat, n: nat)
    requires e <= W && n <= r && (r > 0 ==> P * (W - e) + C * W + W + r * W <= L * W)
    ensures n == 0 || P * (W - e) + ((C + 1) + n) * W <= L * W
  {
    MulMonotone(n, r, W);
    assert ((C + 1) + n) * W == C * W + W + n * W;
  }

  lemma {:induction false} SameWindowLater(window: nat, now: nat, requests: seq<Request>, base: string)
    requires window >= 1 && Ordered(now, requests) && InWindow(window, requests, base, now / window, 0)
    ensures InWindow(window, requests, base, now / window, now % window)
  {
    forall i | 0 <= i < |requests| && requests[i].base == base
      ensures requests[i].at % window >= now % window
    {
      var t := requests[i].at;
      assert t == t / window * window + t % window;
      assert now == now / window * window + now % window;
    }
  }
}
