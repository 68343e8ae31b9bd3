/**
 * The limiter as it runs (src/di/rate_limiter.py): counters in a store whose keys expire. Its
 * verdicts are proved to be those of the full-history limiter of SlidingWindow. The store's clock
 * is in milliseconds; the limiter reads it in whole seconds.
 */
module RateLimiter {
  import opened Wrappers
  import opened SlidingWindow
  import opened CounterKeys

  const MS: nat := 1000

  /** A counter, and when the store drops it. */
  datatype Entry = Entry(count: nat, expiresAt: Option<nat>)

  type Entries = map<string, Entry>

  predicate Expired(e: Entry, ms: nat) {
    e.expiresAt.Some? && e.expiresAt.value <= ms
  }

  /** The commands of the key store that the script uses. */
  class Redis {
    var entries: Entries

    constructor ()
      ensures entries == map[]
    {
      entries := map[];
    }

    /** An expired key reads as absent, and is dropped when it is read. */
    method Get(key: string, ms: nat) returns (count: nat)
      modifies this
      ensures count == if key in old(entries) && !Expired(old(entries)[key], ms) then old(entries)[key].count else 0
      ensures entries == if key in old(entries) && Expired(old(entries)[key], ms) then old(entries) - {key}
                         else old(entries)
    {
      if key !in entries {
        return 0;
      }
      if Expired(entries[key], ms) {
        entries := entries - {key};
        return 0;
      }
      return entries[key].count;
    }

    /** Adds one, keeping the expiry; an absent or expired key starts from zero, without one. */
    method Incr(key: string, ms: nat) returns (value: nat)
      modifies this
      ensures key in entries && value == entries[key].count
      ensures entries == old(entries)[key := if key in old(entries) && !Expired(old(entries)[key], ms)
                                             then Entry(old(entries)[key].count + 1, old(entries)[key].expiresAt)
                                             else Entry(1, None)]
    {
      var e := if key in entries && !Expired(entries[key], ms) then entries[key] else Entry(0, None);
      entries := entries[key := e.(count := e.count + 1)];
      value := e.count + 1;
    }

    method Expire(key: string, seconds: nat, ms: nat)
      requires key in entries
      modifies this
      ensures entries == old(entries)[key := old(entries)[key].(expiresAt := Some(ms + seconds * MS))]
    {
      entries := entries[key := entries[key].(expiresAt := Some(ms + seconds * MS))];
    }

    /** The store may drop expired keys at any time. */
    method Sweep(ms: nat)
      modifies this
      ensures entries == map key | key in old(entries) && !Expired(old(entries)[key], ms) :: old(entries)[key]
    {
      entries := map key | key in entries && !Expired(entries[key], ms) :: entries[key];
    }
  }

  // ---------- The counters against the history ----------

  ghost function KeyOf(prefix: string, window: nat, base: string, k: int): string {
    CounterKey(prefix, base, k * window)
  }

  lemma {:induction false} KeyOfInjective(prefix: string, window: nat, base: string, k: int, base': string, k': int)
    requires window >= 1 && KeyOf(prefix, window, base, k) == KeyOf(prefix, window, base', k')
    ensures base == base' && k == k'
  {
    CounterKeyInjective(prefix, base, k * window, base', k' * window);
    MulEqual(k, k', window);
  }

  lemma {:induction false} MulEqual(k: int, k': int, w: nat)
    requires w >= 1 && k * w == k' * w
    ensures k == k'
  {
    if k < k' {
      MulMonotone(k + 1, k', w);
      MulNext(k, w);
    } else if k' < k {
      MulMonotone(k' + 1, k, w);
      MulNext(k', w);
    }
  }

  /** When the counter of window `k` may be dropped, in milliseconds, and when it is gone at the latest. */
  ghost function KeptUntil(window: nat, k: int): int {
    (k + 2) * window * MS
  }

  /** A counter counts the admissions of its window, and expires between two and three windows after its start. */
  ghost predicate EntryAgrees(window: nat, h: History, e: Entry, base: string, k: int)
    requires window >= 1
  {
    && e.count == Count(window, h, base, k) && e.count > 0
    && e.expiresAt.Some?
    && KeptUntil(window, k) <= e.expiresAt.value < KeptUntil(window, k + 1)
  }

  /** Every counter that can still be read is in the store. */
  ghost predicate Agrees(entries: Entries, prefix: string, window: nat, h: History, ms: nat)
    requires window >= 1
  {
    && (forall base, k: int :: KeyOf(prefix, window, base, k) in entries ==>
         EntryAgrees(window, h, entries[KeyOf(prefix, window, base, k)], base, k))
    && (forall base, k: int :: Count(window, h, base, k) > 0 && ms < KeptUntil(window, k) ==>
         KeyOf(prefix, window, base, k) in entries)
  }

  /** What a read of the key gives. */
  ghost function Reading(entries: Entries, key: string, ms: nat): nat {
    if key in entries && !Expired(entries[key], ms) then entries[key].count else 0
  }

  /** While it is kept, a counter reads as the admissions of its window. */
  lemma {:induction false} ReadsHistory(entries: Entries, prefix: string, window: nat, h: History, ms: nat,
                                        base: string, k: int)
    requires window >= 1 && Agrees(entries, prefix, window, h, ms) && ms < KeptUntil(window, k)
    ensures Reading(entries, KeyOf(prefix, window, base, k), ms) == Count(window, h, base, k)
  {
    var key := KeyOf(prefix, window, base, k);
    if key in entries {
      assert EntryAgrees(window, h, entries[key], base, k);
    }
  }

  /** The counter of the current window, if there is one, is live and counts from one. */
  lemma {:induction false} CurrentEntry(entries: Entries, prefix: string, window: nat, h: History, ms: nat,
                                        base: string)
    requires window >= 1 && Agrees(entries, prefix, window, h, ms)
    ensures var k := ms / MS / window;
            var key := KeyOf(prefix, window, base, k);
            && (key in entries ==>
                 && !Expired(entries[key], ms)
                 && entries[key].count == Count(window, h, base, k) > 0
                 && entries[key].expiresAt.Some?
                 && KeptUntil(window, k) <= entries[key].expiresAt.value < KeptUntil(window, k + 1))
            && (key !in entries ==> Count(window, h, base, k) == 0)
  {
    var k := ms / MS / window;
    ReadInTime(window, ms);
    var key := KeyOf(prefix, window, base, k);
    assert key in entries ==> EntryAgrees(window, h, entries[key], base, k);
  }

  lemma {:induction false} DropKeepsAgreement(entries: Entries, entries': Entries, prefix: string, window: nat,
                                              h: History, ms: nat)
    requires window >= 1 && Agrees(entries, prefix, window, h, ms)
    requires forall key :: key in entries' ==> key in entries && entries'[key] == entries[key]
    requires forall key :: key in entries && !Expired(entries[key], ms) ==> key in entries'
    ensures Agrees(entries', prefix, window, h, ms)
  {
    forall base, k: int | Count(window, h, base, k) > 0 && ms < KeptUntil(window, k)
      ensures KeyOf(prefix, window, base, k) in entries'
    {
      var key := KeyOf(prefix, window, base, k);
      assert key in entries && EntryAgrees(window, h, entries[key], base, k);
    }
  }

  lemma {:induction false} LaterAgreement(entries: Entries, prefix: string, window: nat, h: History, ms: nat, ms': nat)
    requires window >= 1 && ms <= ms' && Agrees(entries, prefix, window, h, ms)
    ensures Agrees(entries, prefix, window, h, ms')
  {
    assert forall base, k: int :: Count(window, h, base, k) > 0 && ms' < KeptUntil(window, k) ==>
      ms < KeptUntil(window, k);
  }

  /** The current and the previous window are read before their counters can be dropped. */
  lemma {:induction false} ReadInTime(window: nat, ms: nat)
    requires window >= 1
    ensures var k := ms / MS / window;
            && k * window * MS <= ms < (k + 1) * window * MS
            && ms < KeptUntil(window, k - 1) && ms < KeptUntil(window, k)
  {
    var now := ms / MS;
    var k := now / window;
    assert now == k * window + now % window;
    assert (k + 1) * window == k * window + window;
    MulMonotone(k * window, now, MS);
    MulMonotone(now + 1, (k + 1) * window, MS);
    assert (k + 2) * window == (k + 1) * window + window;
  }

  /** The expiry that the first increment sets. */
  lemma {:induction false} FirstExpiry(window: nat, ms: nat)
    requires window >= 1
    ensures var k := ms / MS / window;
            KeptUntil(window, k) <= ms + window * 2 * MS < KeptUntil(window, k + 1)
  {
    ReadInTime(window, ms);
    var k := ms / MS / window;
    assert (k + 2) * window == k * window + window * 2;
    assert (k + 1 + 2) * window == (k + 1) * window + window * 2;
  }

  lemma {:induction false} IncrementKeepsAgreement(entries: Entries, prefix: string, window: nat, h: History, ms: nat,
                                                   base: string, e: Entry)
    requires window >= 1 && Agrees(entries, prefix, window, h, ms)
    requires var k := ms / MS / window;
             && e.count == Count(window, h, base, k) + 1
             && e.expiresAt.Some? && KeptUntil(window, k) <= e.expiresAt.value < KeptUntil(window, k + 1)
    ensures Agrees(entries[KeyOf(prefix, window, base, ms / MS / window) := e], prefix, window,
                   h + [Admission(base, ms / MS)], ms)
  {
    var k, a := ms / MS / window, Admission(base, ms / MS);
    var key := KeyOf(prefix, window, base, k);
    var entries' := entries[key := e];
    forall base', k': int
      ensures KeyOf(prefix, window, base', k') in entries' ==>
        EntryAgrees(window, h + [a], entries'[KeyOf(prefix, window, base', k')], base', k')
      ensures Count(window, h + [a], base', k') > 0 && ms < KeptUntil(window, k') ==>
        KeyOf(prefix, window, base', k') in entries'
    {
      CountAppend(window, h, a, base', k');
      if KeyOf(prefix, window, base', k') == key {
        KeyOfInjective(prefix, window, base, k, base', k');
      } else if KeyOf(prefix, window, base', k') in entries {
        assert EntryAgrees(window, h, entries[KeyOf(prefix, window, base', k')], base', k');
      }
    }
  }

  /**
   * At any time the live counters of a client and route are those of the current window and of the
   * two before it, so at most three; and every counter has an expiry.
   */
  lemma {:induction false} LiveCounters(entries: Entries, prefix: string, window: nat, h: History, ms: nat,
                                        base: string, k: int)
    requires window >= 1 && Agrees(entries, prefix, window, h, ms) && Before(h, ms / MS)
    requires KeyOf(prefix, window, base, k) in entries
    ensures entries[KeyOf(prefix, window, base, k)].expiresAt.Some?
    ensures !Expired(entries[KeyOf(prefix, window, base, k)], ms) ==> ms / MS / window - 2 <= k <= ms / MS / window
  {
    var key, now := KeyOf(prefix, window, base, k), ms / MS / window;
    assert EntryAgrees(window, h, entries[key], base, k);
    if k > now {
      CountLater(window, h, base, ms / MS, k);
    }
    if k < now - 2 {
      ReadInTime(window, ms);
      MulMonotone((k + 1) + 2, now, window);
      MulMonotone(((k + 1) + 2) * window, now * window, MS);
    }
  }

  /** The windows of the live counters of a client and route: there are at most three. */
  lemma {:induction false} AtMostThreeLive(entries: Entries, prefix: string, window: nat, h: History, ms: nat,
                                           base: string, ks: set<int>)
    requires window >= 1 && Agrees(entries, prefix, window, h, ms) && Before(h, ms / MS)
    requires forall k :: k in ks ==>
      KeyOf(prefix, window, base, k) in entries && !Expired(entries[KeyOf(prefix, window, base, k)], ms)
    ensures |ks| <= 3
  {
    var last := LastThree(ms / MS / window);
    forall k | k in ks
      ensures k in last
    {
      LiveCounters(entries, prefix, window, h, ms, base, k);
    }
    assert last == ks + (last - ks);
  }

  ghost function LastThree(k: int): (ks: set<int>)
    ensures forall i :: k - 2 <= i <= k <==> i in ks
    ensures |ks| == 3
  {
    {k - 2, k - 1, k}
  }

  // ---------- The limiter ----------

  lemma {:induction false} WindowStart(window: nat, now: nat)
    requires window >= 1
    ensures now - now % window == now / window * window
    ensures now - now % window - window == (now / window - 1) * window
    ensures now - now % window + window == (now / window + 1) * window
    ensures now - (now - now % window) == now % window
  {
    MulNext(now / window, window);
    MulNext(now / window - 1, window);
  }

  datatype Reply = Reply(allowed: bool, remaining: nat, resetAt: nat)

  class RateLimiter {
    const limit: Limit
    const prefix: string
    const redis: Redis
    ghost var history: History
    ghost var clock: nat

    /** The counters agree with the admissions so far. */
    ghost predicate Valid()
      reads this, redis
    {
      && limit.window >= 1
      && Agrees(redis.entries, prefix, limit.window, history, clock)
      && Legal(limit, history) && Before(history, clock / MS)
    }

    constructor (limit: Limit, prefix: string, redis: Redis)
      requires limit.window >= 1 && redis.entries == map[]
      ensures Valid() && history == [] && clock == 0
      ensures this.limit == limit && this.prefix == prefix && this.redis == redis
    {
      this.limit, this.prefix, this.redis := limit, prefix, redis;
      history, clock := [], 0;
    }

    /** The script's two reads: the counters still hold what the history says. */
    method ReadCounters(currentKey: string, previousKey: string, ms: nat, ghost base: string)
      returns (previous: nat, current: nat)
      requires Valid() && clock <= ms
      requires currentKey == KeyOf(prefix, limit.window, base, ms / MS / limit.window)
      requires previousKey == KeyOf(prefix, limit.window, base, ms / MS / limit.window - 1)
      modifies redis, `clock
      ensures Valid() && clock == ms
      ensures previous == Count(limit.window, history, base, ms / MS / limit.window - 1)
      ensures current == Count(limit.window, history, base, ms / MS / limit.window)
    {
      ghost var k := ms / MS / limit.window;
      LaterAgreement(redis.entries, prefix, limit.window, history, clock, ms);
      WindowOrder(MS, clock, ms);
      clock := ms;
      ReadInTime(limit.window, ms);
      ReadsHistory(redis.entries, prefix, limit.window, history, ms, base, k - 1);
      ghost var before := redis.entries;
      previous := redis.Get(previousKey, ms);
      DropKeepsAgreement(before, redis.entries, prefix, limit.window, history, ms);
      ReadsHistory(redis.entries, prefix, limit.window, history, ms, base, k);
      before := redis.entries;
      current := redis.Get(currentKey, ms);
      DropKeepsAgreement(before, redis.entries, prefix, limit.window, history, ms);
    }

    /** The script's increment: the first one of a counter sets its expiry. */
    method Admit(currentKey: string, ms: nat, ghost base: string)
      requires Valid() && clock == ms
      requires currentKey == KeyOf(prefix, limit.window, base, ms / MS / limit.window)
      requires Admits(limit, history, base, ms / MS)
      modifies redis, `history
      ensures Valid()
      ensures history == old(history) + [Admission(base, ms / MS)]
    {
      hide Agrees, Legal, Before, KeyOf, Admits, Count;
      ghost var before := redis.entries;
      CurrentEntry(before, prefix, limit.window, history, ms, base);
      FirstExpiry(limit.window, ms);
      var value := redis.Incr(currentKey, ms);
      if value == 1 {
        redis.Expire(currentKey, limit.window * 2, ms);
      }
      assert redis.entries == before[currentKey := redis.entries[currentKey]];
      IncrementKeepsAgreement(before, prefix, limit.window, history, ms, base, redis.entries[currentKey]);
      LegalAppend(limit, history, Admission(base, ms / MS));
      history := history + [Admission(base, ms / MS)];
    }

    /** The script that the store evaluates in one step. */
    method Script(currentKey: string, previousKey: string, now: nat, ms: nat, ghost base: string) returns (reply: Reply)
      requires Valid() && clock <= ms && now == ms / MS
      requires currentKey == KeyOf(prefix, limit.window, base, now / limit.window)
      requires previousKey == KeyOf(prefix, limit.window, base, now / limit.window - 1)
      modifies this, redis
      ensures Valid() && clock == ms && history == Record(limit, old(history), Request(base, now))
      ensures reply.allowed == Admits(limit, old(history), base, now)
      ensures reply.resetAt == ResetAt(limit, now)
      ensures reply.remaining == if reply.allowed then Remaining(limit, old(history), base, now) else 0
    {
      hide Agrees, Legal, Before, Count, KeyOf;
      var window := limit.window;
      var windowStart := now - now % window;
      var elapsed := now - windowStart;
      WindowStart(window, now);
      var previous, current := ReadCounters(currentKey, previousKey, ms, base);
      var weighted := previous * (window - elapsed) + current * window;
      if weighted >= limit.times * window {
        return Reply(false, 0, windowStart + window);
      }
      Admit(currentKey, ms, base);
      var left := (limit.times * window - (weighted + window)) / window;
      reply := Reply(true, if left > 0 then left else 0, windowStart + window);
    }

    /** Between two calls the store may drop its expired keys: no count that matters is lost. */
    method StoreSweeps(ms: nat)
      requires Valid() && clock <= ms
      modifies redis, `clock
      ensures Valid() && clock == ms
      ensures redis.entries == map key | key in old(redis.entries) && !Expired(old(redis.entries)[key], ms)
                                 :: old(redis.entries)[key]
    {
      LaterAgreement(redis.entries, prefix, limit.window, history, clock, ms);
      WindowOrder(MS, clock, ms);
      clock := ms;
      ghost var before := redis.entries;
      redis.Sweep(ms);
      DropKeepsAgreement(before, redis.entries, prefix, limit.window, history, ms);
    }

    /**
     * The dependency of a rate-limited route. It replies as a limiter with the whole history
     * would, and a rejected call changes no count.
     */
    method Call(client: string, route: string, ms: nat) returns (verdict: Verdict)
      requires Valid() && clock <= ms
      modifies this, redis
      ensures Valid() && clock == ms
      ensures verdict == Decide(limit, old(history), Request(Base(client, route), ms / MS))
      ensures history == Record(limit, old(history), Request(Base(client, route), ms / MS))
      ensures verdict.Rejected? ==> 1 <= verdict.retryAfter <= limit.window && history == old(history)
      ensures verdict.Allowed? ==> history == old(history) + [Admission(Base(client, route), ms / MS)]
      ensures verdict.resetAt % limit.window == 0 && ms / MS < verdict.resetAt <= ms / MS + limit.window
      ensures verdict.Rejected? ==> ms / MS + verdict.retryAfter == verdict.resetAt
    {
      hide Agrees, Legal, Before, Count;
      var now := ms / MS;
      var windowStart := now - now % limit.window;
      WindowStart(limit.window, now);
      var base := Base(client, route);
      var currentKey := CounterKey(prefix, base, windowStart);
      var previousKey := CounterKey(prefix, base, windowStart - limit.window);
      var reply := Script(currentKey, previousKey, now, ms, base);
      ResetIsNext(limit, now);
      DecisionNamesNextWindow(limit, history, Request(base, now));
      if reply.allowed {
        verdict := Allowed(reply.remaining, reply.resetAt);
      } else {
        var retryAfter := if reply.resetAt - now > 1 then reply.resetAt - now else 1;
        verdict := Rejected(retryAfter, reply.resetAt);
      }
    }
  }

  /** A call, and whether the store drops its expired keys just before. */
  datatype Arrival = Arrival(client: string, route: string, ms: nat, sweep: bool)

  function AsRequest(a: Arrival): Request {
    Request(Base(a.client, a.route), a.ms / MS)
  }

  function AsRequests(arrivals: seq<Arrival>): (rs: seq<Request>)
    ensures |rs| == |arrivals|
    ensures forall i :: 0 <= i < |rs| ==> rs[i] == AsRequest(arrivals[i])
  {
    seq(|arrivals|, i requires 0 <= i < |arrivals| => AsRequest(arrivals[i]))
  }

  /**
   * Expiry refinement: over any sequence of calls, at times that do not decrease and with any
   * pattern of dropped keys, the verdicts are those of the limiter that keeps every admission.
   */
  method ServeAll(limit: Limit, prefix: string, arrivals: seq<Arrival>) returns (verdicts: seq<Verdict>)
    requires limit.window >= 1
    requires forall i, j :: 0 <= i < j < |arrivals| ==> arrivals[i].ms <= arrivals[j].ms
    ensures verdicts == Verdicts(limit, [], AsRequests(arrivals))
    ensures |verdicts| == |arrivals|
    ensures forall i :: 0 <= i < |arrivals| ==>
              NamesNextWindow(limit.window, arrivals[i].ms / MS, verdicts[i])
  {
    hide Agrees, Legal, Before, Admits, Count, Remaining, Decide, NamesNextWindow;
    var redis := new Redis();
    var limiter := new RateLimiter(limit, prefix, redis);
    verdicts := [];
    ghost var requests := AsRequests(arrivals);
    for i := 0 to |arrivals|
      invariant limiter.Valid() && limiter.limit == limit && limiter.redis == redis
      invariant fresh(limiter) && fresh(redis)
      invariant i < |arrivals| ==> limiter.clock <= arrivals[i].ms
      invariant limiter.history == Serve(limit, [], requests[..i])
      invariant verdicts == Verdicts(limit, [], requests[..i])
    {
      var a := arrivals[i];
      if a.sweep {
        limiter.StoreSweeps(a.ms);
      }
      var verdict := limiter.Call(a.client, a.route, a.ms);
      verdicts := verdicts + [verdict];
      ServeAppend(limit, [], requests[..i], requests[i]);
      assert requests[..i + 1] == requests[..i] + [requests[i]];
    }
    assert requests[..|arrivals|] == requests;
    forall i | 0 <= i < |arrivals|
      ensures NamesNextWindow(limit.window, arrivals[i].ms / MS, verdicts[i])
    {
      VerdictsNameNextWindow(limit, [], requests, i);
    }
  }
}
