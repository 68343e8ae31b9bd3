/**
 * The redirect and the url handlers over the cache (src/api/redirect.py,
 * src/api/v0/shortener/url/endpoints.py, src/repositories/url.py), one request at a time. The
 * reference is a service without a cache, which looks up the row by its code, whatever its
 * deleted_at.
 */
module Api {
  import opened Wrappers
  import opened Urls
  import opened UrlService

  /** Six hours, in seconds. */
  const TTL: nat := 60 * 60 * 6

  /** A cached row, and the time from which it is gone. */
  datatype CacheEntry = CacheEntry(url: Url, expiresAt: int)

  type Entries = map<string, CacheEntry>

  class UrlCacheRepository {
    var entries: Entries

    constructor ()
      ensures entries == map[]
    {
      entries := map[];
    }

    /** A hit does not renew the entry. */
    method GetByShortCode(code: string, now: int) returns (r: Option<Url>)
      ensures r == if code in entries && now < entries[code].expiresAt then Some(entries[code].url) else None
    {
      if code in entries && now < entries[code].expiresAt {
        return Some(entries[code].url);
      }
      return None;
    }

    method SetShortCode(code: string, url: Url, now: int)
      modifies this
      ensures entries == old(entries)[code := CacheEntry(url, now + TTL)]
    {
      entries := entries[code := CacheEntry(url, now + TTL)];
    }

    /** Also what the store does to a key that it evicts. */
    method DeleteShortCode(code: string)
      modifies this
      ensures entries == old(entries) - {code}
    {
      entries := entries - {code};
    }
  }

  // ---------- The service without a cache ----------

  datatype ApiRequest =
    | Redirect(code: string)
    | Create(target: string, draws: seq<string>)
    | Activate(code: string)
    | Deactivate(code: string, at: int)
    | Delete(code: string)

  datatype Reply =
    | RedirectTo(target: string, clicked: nat) // and a click for this url id
    | Created(code: string)
    | Changed
    | NotFoundReply
    | UnavailableReply

  predicate WellFormed(r: ApiRequest) {
    r.Create? ==> |r.draws| == MAX_CREATE_ATTEMPTS
  }

  function Status(url: Option<Url>): Reply {
    if url.Some? then Changed else NotFoundReply
  }

  /** What a request does to the database and replies, when every read goes to the database. */
  ghost function Direct(s: Store, r: ApiRequest): (Store, Reply) {
    match r
    case Redirect(code) =>
      (s, match Lookup(s.urls, code) case Some(url) => RedirectTo(url.target, url.id) case None => NotFoundReply)
    case Create(target, draws) =>
      var (s', url) := CreateOutcome(s, target, draws);
      (s', if url.Some? then Created(url.value.code) else UnavailableReply)
    case Activate(code) =>
      var (urls, url) := MarkedActive(s.urls, code);
      (s.(urls := urls), Status(url))
    case Deactivate(code, at) =>
      var (urls, url) := MarkedDeleted(s.urls, code, at);
      (s.(urls := urls), Status(url))
    case Delete(code) =>
      var (urls, url) := Removed(s.urls, code);
      (s.(urls := urls), Status(url))
  }

  ghost function DirectStore(s: Store, requests: seq<ApiRequest>): Store
    decreases |requests|
  {
    if requests == [] then s else DirectStore(Direct(s, requests[0]).0, requests[1..])
  }

  ghost function DirectReplies(s: Store, requests: seq<ApiRequest>): (replies: seq<Reply>)
    ensures |replies| == |requests|
    decreases |requests|
  {
    if requests == [] then [] else [Direct(s, requests[0]).1] + DirectReplies(Direct(s, requests[0]).0, requests[1..])
  }

  lemma {:induction false} DirectAppend(s: Store, requests: seq<ApiRequest>, r: ApiRequest)
    ensures var mid := DirectStore(s, requests);
            && DirectStore(s, requests + [r]) == Direct(mid, r).0
            && DirectReplies(s, requests + [r]) == DirectReplies(s, requests) + [Direct(mid, r).1]
    decreases |requests|
  {
    if requests == [] {
      assert DirectStore(Direct(s, r).0, [r][1..]) == Direct(s, r).0;
    } else {
      assert (requests + [r])[1..] == requests[1..] + [r];
      DirectAppend(Direct(s, requests[0]).0, requests[1..], r);
    }
  }

  /** No id is used twice: a new row has a new id, and an id keeps its code and target while it is there. */
  ghost predicate IdsNeverRepeat(s: Store, s': Store) {
    && s.nextId <= s'.nextId
    && (forall id :: id in s'.urls && id !in s.urls ==> s.nextId <= id)
    && (forall id :: id in s'.urls && id in s.urls ==>
         s'.urls[id].code == s.urls[id].code && s'.urls[id].target == s.urls[id].target)
  }

  /**
   * No sequence of requests makes two rows share a code, or gives an id of the table to another
   * row, not even after a delete.
   */
  lemma {:induction false} DirectKeepsCodesUnique(s: Store, requests: seq<ApiRequest>)
    requires Coherent(s)
    ensures Coherent(DirectStore(s, requests)) && IdsNeverRepeat(s, DirectStore(s, requests))
    decreases |requests|
  {
    if requests != [] {
      var mid := Direct(s, requests[0]).0;
      DirectStepCoherent(s, requests[0]);
      DirectKeepsCodesUnique(mid, requests[1..]);
      IdsStayRetired(s, mid, DirectStore(s, requests));
    }
  }

  /** An id that is gone in between does not come back. */
  lemma {:induction false} IdsStayRetired(s: Store, mid: Store, final: Store)
    requires Coherent(s) && IdsNeverRepeat(s, mid) && IdsNeverRepeat(mid, final)
    ensures IdsNeverRepeat(s, final)
    ensures forall id :: id in s.urls && id !in mid.urls ==> id !in final.urls
  {
  }

  lemma {:induction false} DirectStepCoherent(s: Store, r: ApiRequest)
    requires Coherent(s)
    ensures Coherent(Direct(s, r).0) && IdsNeverRepeat(s, Direct(s, r).0)
  {
    match r
    case Redirect(_) =>
    case Create(target, draws) =>
      CreateIsAtomic(s, target, draws);
      CreatedIdIsNew(s, target, draws);
    case Activate(code) =>
      if Lookup(s.urls, code).Some? {
        LookupAfterChange(s, Lookup(s.urls, code).value, None, code);
      }
    case Deactivate(code, at) =>
      if Lookup(s.urls, code).Some? {
        LookupAfterChange(s, Lookup(s.urls, code).value, Some(at), code);
      }
    case Delete(code) =>
      if Lookup(s.urls, code).Some? {
        LookupAfterRemove(s, Lookup(s.urls, code).value, code);
      }
  }

  lemma {:induction false} CreatedIdIsNew(s: Store, target: string, draws: seq<string>)
    requires Coherent(s)
    ensures IdsNeverRepeat(s, CreateOutcome(s, target, draws).0)
    ensures CreateOutcome(s, target, draws).0.nextId <= s.nextId + |draws|
    decreases |draws|
  {
    if draws != [] && HasCode(s.urls, draws[0]) {
      CreatedIdIsNew(s.(nextId := s.nextId + 1), target, draws[1..]);
    }
  }

  /**
   * Deactivating or activating a code never changes where any code redirects, nor the id that is
   * clicked: the lookup behind a redirect does not ask whether the row is deactivated.
   */
  lemma {:induction false} DeactivationKeepsRedirects(s: Store, code: string, at: int, followed: string)
    requires Coherent(s)
    ensures Direct(Direct(s, Deactivate(code, at)).0, Redirect(followed)).1 == Direct(s, Redirect(followed)).1
    ensures Direct(Direct(s, Activate(code)).0, Redirect(followed)).1 == Direct(s, Redirect(followed)).1
  {
    if Lookup(s.urls, code).Some? {
      LookupAfterChange(s, Lookup(s.urls, code).value, Some(at), followed);
      LookupAfterChange(s, Lookup(s.urls, code).value, None, followed);
    }
  }

  /** Only a delete ends the redirects of a code, and a delete ends those of that code alone. */
  lemma {:induction false} DeleteEndsRedirects(s: Store, code: string, followed: string)
    requires Coherent(s)
    ensures Direct(Direct(s, Delete(code)).0, Redirect(followed)).1
         == if followed == code then NotFoundReply else Direct(s, Redirect(followed)).1
  {
    if Lookup(s.urls, code).Some? {
      LookupAfterRemove(s, Lookup(s.urls, code).value, followed);
    }
  }

  // ---------- Where redirects go, in terms of requests and replies ----------

  /** A lookup of the code finds a row with the target. */
  ghost predicate LeadsTo(s: Store, code: string, target: string) {
    exists id :: id in s.urls && s.urls[id].code == code && s.urls[id].target == target
  }

  /** Only a creation makes a code lead somewhere, and only its delete ends that. */
  lemma {:induction false} LeadsToStep(s: Store, r: ApiRequest, code: string, target: string)
    requires Coherent(s)
    ensures var (s', reply) := Direct(s, r);
            LeadsTo(s', code, target) <==>
              || (r.Create? && r.target == target && reply == Created(code))
              || (LeadsTo(s, code, target) && r != Delete(code))
  {
    hide CreateOutcome, MarkedActive, MarkedDeleted, Removed;
    match r
    case Redirect(_) =>
    case Create(_, draws) => CreationLeadsTo(s, r.target, draws, code, target);
    case Activate(c) =>
      ActivationRows(s, c);
      RestampsKeepTargets(s, Direct(s, r).0, c, false, None, code, target);
    case Deactivate(c, at) =>
      DeactivationRows(s, c, at);
      RestampsKeepTargets(s, Direct(s, r).0, c, true, Some(at), code, target);
    case Delete(c) =>
      RemovalRows(s, c);
      RemovalLeadsTo(s, c, code, target);
  }

  lemma {:induction false} RestampsKeepTargets(s: Store, s': Store, c: string, wasLive: bool, deletedAt: Option<int>,
                                               code: string, target: string)
    requires Restamps(s.urls, s'.urls, c, wasLive, deletedAt)
    ensures LeadsTo(s', code, target) <==> LeadsTo(s, code, target)
  {
    forall id | id in s.urls
      ensures s'.urls[id].code == s.urls[id].code && s'.urls[id].target == s.urls[id].target
    {
    }
  }

  lemma {:induction false} RemovalLeadsTo(s: Store, c: string, code: string, target: string)
    requires Coherent(s)
    ensures LeadsTo(s.(urls := Removed(s.urls, c).0), code, target) <==> LeadsTo(s, code, target) && code != c
  {
    hide Removed;
    RemovalRows(s, c);
  }

  lemma {:induction false} CreationLeadsTo(s: Store, created: string, draws: seq<string>, code: string, target: string)
    requires Coherent(s)
    ensures var (s', url) := CreateOutcome(s, created, draws);
            LeadsTo(s', code, target) <==>
              || (url.Some? && url.value.code == code && created == target)
              || LeadsTo(s, code, target)
  {
    hide CreateOutcome;
    CreateIsAtomic(s, created, draws);
    var (s', url) := CreateOutcome(s, created, draws);
    if url.Some? {
      assert s'.urls[url.value.id] == url.value;
      assert forall id :: id in s.urls ==> id in s'.urls && s'.urls[id] == s.urls[id];
    }
  }

  /** Before request `n`, a Create with the target was answered with the code, which was not deleted since. */
  ghost predicate CreatedAs(requests: seq<ApiRequest>, replies: seq<Reply>, n: nat, code: string, target: string)
    requires |replies| == |requests| && n <= |requests|
  {
    exists i :: 0 <= i < n && requests[i].Create? && requests[i].target == target && replies[i] == Created(code)
                && forall k :: i < k < n ==> requests[k] != Delete(code)
  }

  lemma {:induction false} CreatedAsStep(requests: seq<ApiRequest>, replies: seq<Reply>, n: nat,
                                         code: string, target: string)
    requires |replies| == |requests| && n < |requests|
    ensures CreatedAs(requests, replies, n + 1, code, target) <==>
              || (requests[n].Create? && requests[n].target == target && replies[n] == Created(code))
              || (CreatedAs(requests, replies, n, code, target) && requests[n] != Delete(code))
  {
    if CreatedAs(requests, replies, n + 1, code, target) {
      var i :| 0 <= i < n + 1 && requests[i].Create? && requests[i].target == target && replies[i] == Created(code)
               && forall k :: i < k < n + 1 ==> requests[k] != Delete(code);
      assert i < n ==> CreatedAs(requests, replies, n, code, target) && requests[n] != Delete(code);
    }
    if CreatedAs(requests, replies, n, code, target) && requests[n] != Delete(code) {
      var i :| 0 <= i < n && requests[i].Create? && requests[i].target == target && replies[i] == Created(code)
               && forall k :: i < k < n ==> requests[k] != Delete(code);
      assert forall k :: i < k < n + 1 ==> requests[k] != Delete(code);
    }
  }

  lemma {:induction false} ReplyAt(s: Store, requests: seq<ApiRequest>, n: nat)
    requires n < |requests|
    ensures var mid := DirectStore(s, requests[..n]);
            && DirectReplies(s, requests)[n] == Direct(mid, requests[n]).1
            && DirectStore(s, requests[..n + 1]) == Direct(mid, requests[n]).0
    decreases |requests|
  {
    hide Direct;
    if n == 0 {
      assert requests[..1][1..] == [];
    } else {
      assert requests[..n][1..] == requests[1..][..n - 1] && requests[..n + 1][1..] == requests[1..][..n];
      ReplyAt(Direct(s, requests[0]).0, requests[1..], n - 1);
    }
  }

  lemma {:induction false} LeadsToTrace(requests: seq<ApiRequest>, n: nat, code: string, target: string)
    requires n <= |requests|
    ensures var s := DirectStore(Store(map[], 0), requests[..n]);
            && Coherent(s)
            && (LeadsTo(s, code, target) <==>
                 CreatedAs(requests, DirectReplies(Store(map[], 0), requests), n, code, target))
  {
    hide Direct, CreatedAs;
    var replies := DirectReplies(Store(map[], 0), requests);
    if n == 0 {
      NothingCreated(requests, replies, code, target);
    } else {
      var s := DirectStore(Store(map[], 0), requests[..n - 1]);
      LeadsToTrace(requests, n - 1, code, target);
      ReplyAt(Store(map[], 0), requests, n - 1);
      DirectStepCoherent(s, requests[n - 1]);
      LeadsToStep(s, requests[n - 1], code, target);
      CreatedAsStep(requests, replies, n - 1, code, target);
    }
  }

  lemma {:induction false} NothingCreated(requests: seq<ApiRequest>, replies: seq<Reply>, code: string, target: string)
    requires |replies| == |requests|
    ensures !CreatedAs(requests, replies, 0, code, target)
  {
  }

  /**
   * A redirect goes to a target exactly if that target was given when the code was created, and the
   * code was not deleted since; otherwise it is answered with not found.
   */
  ghost predicate FollowsCreation(requests: seq<ApiRequest>, replies: seq<Reply>, n: nat, target: string)
    requires |replies| == |requests| && n < |requests|
  {
    requests[n].Redirect? ==>
      && (replies[n].RedirectTo? || replies[n] == NotFoundReply)
      && (replies[n].RedirectTo? && replies[n].target == target <==>
           CreatedAs(requests, replies, n, requests[n].code, target))
  }

  lemma {:induction false} RedirectLeads(s: Store, code: string, target: string)
    requires Coherent(s)
    ensures var reply := Direct(s, Redirect(code)).1;
            && (reply.RedirectTo? || reply == NotFoundReply)
            && (reply.RedirectTo? && reply.target == target <==> LeadsTo(s, code, target))
  {
    if HasCode(s.urls, code) {
      var id :| id in s.urls && s.urls[id].code == code;
      LookupFinds(s, id);
      assert forall other :: other in s.urls && s.urls[other].code == code ==> other == id;
    }
  }

  lemma {:induction false} DirectFollowsCreation(requests: seq<ApiRequest>, n: nat, target: string)
    requires n < |requests|
    ensures FollowsCreation(requests, DirectReplies(Store(map[], 0), requests), n, target)
  {
    hide CreatedAs;
    if requests[n].Redirect? {
      LeadsToTrace(requests, n, requests[n].code, target);
      ReplyAt(Store(map[], 0), requests, n);
      RedirectLeads(DirectStore(Store(map[], 0), requests[..n]), requests[n].code, target);
    }
  }

  // ---------- Agreement of cache and database ----------

  /** Every live entry is the row that a direct lookup of its code finds. */
  ghost predicate CacheAgrees(entries: Entries, urls: Table, now: int) {
    forall code :: code in entries && now < entries[code].expiresAt ==> Lookup(urls, code) == Some(entries[code].url)
  }

  lemma {:induction false} AgreesAfterRemove(entries: Entries, s: Store, url: Url, now: int)
    requires Coherent(s) && CacheAgrees(entries, s.urls, now) && url.id in s.urls && s.urls[url.id] == url
    ensures CacheAgrees(entries - {url.code}, s.urls - {url.id}, now)
  {
    forall code | code in entries && code != url.code {
      LookupAfterRemove(s, url, code);
    }
  }

  lemma {:induction false} AgreesAfterChange(entries: Entries, s: Store, url: Url, deletedAt: Option<int>, now: int)
    requires Coherent(s) && CacheAgrees(entries, s.urls, now) && url.id in s.urls && s.urls[url.id] == url
    ensures var changed := url.(deletedAt := deletedAt);
            && CacheAgrees(entries - {url.code}, s.urls[url.id := changed], now)
            && CacheAgrees(entries[url.code := CacheEntry(changed, now + TTL)], s.urls[url.id := changed], now)
  {
    forall code {
      LookupAfterChange(s, url, deletedAt, code);
    }
  }

  lemma {:induction false} AgreesAfterCreate(entries: Entries, s: Store, target: string, draws: seq<string>, now: int)
    requires Coherent(s) && CacheAgrees(entries, s.urls, now)
    ensures var (s', url) := CreateOutcome(s, target, draws);
            && (url.None? ==> CacheAgrees(entries, s'.urls, now))
            && (url.Some? ==> CacheAgrees(entries[url.value.code := CacheEntry(url.value, now + TTL)], s'.urls, now))
    decreases |draws|
  {
    if draws != [] {
      if HasCode(s.urls, draws[0]) {
        AgreesAfterCreate(entries, s.(nextId := s.nextId + 1), target, draws[1..], now);
      } else {
        forall code {
          LookupAfterInsert(s, Url(s.nextId, target, draws[0], None), code);
        }
      }
    }
  }

  // ---------- The handlers ----------

  /** What a redirect answers, row by row. */
  lemma {:induction false} RedirectRows(s: Store, code: string)
    requires Coherent(s)
    ensures var reply := Direct(s, Redirect(code)).1;
            && (forall id :: id in s.urls && s.urls[id].code == code ==> reply == RedirectTo(s.urls[id].target, id))
            && (reply == NotFoundReply <==> !HasCode(s.urls, code))
            && (reply.RedirectTo? ==>
                 reply.clicked in s.urls && Lookup(s.urls, code) == Some(s.urls[reply.clicked]))
  {
    forall id | id in s.urls && s.urls[id].code == code {
      LookupFinds(s, id);
    }
  }

  class Handlers {
    const service: UrlService
    const cache: UrlCacheRepository
    var clicks: seq<nat>      // the url ids sent to the click producer
    ghost var clock: int

    ghost predicate Valid()
      reads this, cache, service, service.uow, service.uow.db
    {
      service.Valid() && CacheAgrees(cache.entries, Database().urls, clock)
    }

    ghost function Database(): Store
      reads service.uow.db
    {
      service.uow.db.AsStore()
    }

    constructor (service: UrlService, cache: UrlCacheRepository)
      requires service.Valid() && cache.entries == map[]
      ensures Valid() && this.service == service && this.cache == cache && clock == 0 && clicks == []
    {
      this.service, this.cache := service, cache;
      clicks, clock := [], 0;
    }

    /** Follows a short code: cache first, then the database, filling the cache; then sends the click. */
    method RedirectToUrl(code: string, now: int) returns (reply: Reply)
      requires Valid() && clock <= now
      modifies this, cache, service.uow, service.uow.db
      ensures Valid() && clock == now
      ensures (Database(), reply) == Direct(old(Database()), Redirect(code))
      ensures forall id :: id in old(Database()).urls && old(Database()).urls[id].code == code ==>
                reply == RedirectTo(old(Database()).urls[id].target, id)
      ensures reply == NotFoundReply <==> !HasCode(old(Database()).urls, code)
      ensures reply.RedirectTo? ==>
                reply.clicked in Database().urls &&
                cache.entries == if code in old(cache.entries) && now < old(cache.entries)[code].expiresAt
                                 then old(cache.entries)
                                 else old(cache.entries)[code := CacheEntry(Database().urls[reply.clicked], now + TTL)]
      ensures reply == NotFoundReply ==> cache.entries == old(cache.entries)
      ensures clicks == if reply.RedirectTo? then old(clicks) + [reply.clicked] else old(clicks)
    {
      clock := now;
      RedirectRows(Database(), code);
      var response := cache.GetByShortCode(code, now);
      if response.None? {
        var found := service.GetOne(code);
        if found.Failure? {
          return NotFoundReply;
        }
        cache.SetShortCode(code, found.value, now);
        response := Some(found.value);
      }
      clicks := clicks + [response.value.id];
      return RedirectTo(response.value.target, response.value.id);
    }

    method CreateShortUrl(target: string, draws: seq<string>, now: int) returns (reply: Reply)
      requires Valid() && clock <= now && |draws| == MAX_CREATE_ATTEMPTS
      modifies this, cache, service.uow, service.uow.db
      ensures Valid() && clock == now && clicks == old(clicks)
      ensures (Database(), reply) == Direct(old(Database()), Create(target, draws))
      ensures reply.Created? || reply == UnavailableReply
      ensures reply.Created? ==>
        && FirstFree(old(Database()).urls, draws, reply.code)
        && exists id ::
             var url := Url(id, target, reply.code, None);
             && id !in old(Database()).urls && Database().urls == old(Database()).urls[id := url]
             && cache.entries == old(cache.entries)[reply.code := CacheEntry(url, now + TTL)]
      ensures reply == UnavailableReply ==>
        && (forall i :: 0 <= i < |draws| ==> HasCode(old(Database()).urls, draws[i]))
        && Database().urls == old(Database()).urls && cache.entries == old(cache.entries)
    {
      CreateIsAtomic(Database(), target, draws);
      clock := now;
      AgreesAfterCreate(cache.entries, Database(), target, draws, now);
      ghost var outcome := CreateOutcome(Database(), target, draws);
      var result := service.Create(target, draws);
      assert Database() == outcome.0 && (result.Failure? <==> outcome.1.None?);
      if result.Failure? {
        return UnavailableReply;
      }
      cache.SetShortCode(result.value.code, result.value, now);
      return Created(result.value.code);
    }

    method ActivateShortUrl(code: string, now: int) returns (reply: Reply)
      requires Valid() && clock <= now
      modifies this, cache, service.uow, service.uow.db
      ensures Valid() && clock == now && clicks == old(clicks)
      ensures (Database(), reply) == Direct(old(Database()), Activate(code))
      ensures reply == if HasRow(old(Database()).urls, code, false) then Changed else NotFoundReply
      ensures Restamps(old(Database()).urls, Database().urls, code, false, None)
      ensures reply == Changed ==>
        exists id :: id in Database().urls && Database().urls[id].code == code
          && cache.entries == old(cache.entries)[code := CacheEntry(Database().urls[id], now + TTL)]
      ensures reply == NotFoundReply ==> cache.entries == old(cache.entries)
    {
      ActivationRows(Database(), code);
      clock := now;
      var url := Lookup(Database().urls, code);
      if url.Some? {
        AgreesAfterChange(cache.entries, Database(), url.value, None, now);
      }
      var result := service.MarkAsActive(code);
      if result.Some? {
        cache.SetShortCode(code, result.value, now);
      }
      return Status(result);
    }

    method DeactivateShortUrl(code: string, at: int, now: int) returns (reply: Reply)
      requires Valid() && clock <= now
      modifies this, cache, service.uow, service.uow.db
      ensures Valid() && clock == now && clicks == old(clicks)
      ensures (Database(), reply) == Direct(old(Database()), Deactivate(code, at))
      ensures reply == if HasRow(old(Database()).urls, code, true) then Changed else NotFoundReply
      ensures Restamps(old(Database()).urls, Database().urls, code, true, Some(at))
      ensures cache.entries == if reply == Changed then old(cache.entries) - {code} else old(cache.entries)
    {
      DeactivationRows(Database(), code, at);
      clock := now;
      var url := Lookup(Database().urls, code);
      if url.Some? {
        AgreesAfterChange(cache.entries, Database(), url.value, Some(at), now);
      }
      var result := service.MarkAsDeleted(code, at);
      if result.Some? {
        cache.DeleteShortCode(code);
      }
      return Status(result);
    }

    method DeleteShortUrl(code: string, now: int) returns (reply: Reply)
      requires Valid() && clock <= now
      modifies this, cache, service.uow, service.uow.db
      ensures Valid() && clock == now && clicks == old(clicks)
      ensures (Database(), reply) == Direct(old(Database()), Delete(code))
      ensures reply == if HasCode(old(Database()).urls, code) then Changed else NotFoundReply
      ensures forall id :: id in Database().urls <==>
                id in old(Database()).urls && old(Database()).urls[id].code != code
      ensures forall id :: id in Database().urls ==> Database().urls[id] == old(Database()).urls[id]
      ensures cache.entries == if reply == Changed then old(cache.entries) - {code} else old(cache.entries)
    {
      RemovalRows(Database(), code);
      clock := now;
      var url := Lookup(Database().urls, code);
      if url.Some? {
        AgreesAfterRemove(cache.entries, Database(), url.value, now);
      }
      var result := service.Delete(code);
      if result.Failure? {
        return NotFoundReply;
      }
      cache.DeleteShortCode(code);
      return Changed;
    }

    /** The store drops keys on its own. */
    method Evict(codes: seq<string>)
      requires Valid()
      modifies cache
      ensures Valid()
      ensures cache.entries == map code | code in old(cache.entries) && code !in codes :: old(cache.entries)[code]
    {
      for i := 0 to |codes|
        invariant Valid()
        invariant cache.entries == map code | code in old(cache.entries) && code !in codes[..i]
                                          :: old(cache.entries)[code]
      {
        cache.DeleteShortCode(codes[i]);
        assert codes[..i + 1] == codes[..i] + [codes[i]];
      }
      assert codes[..|codes|] == codes;
    }

    method Handle(r: ApiRequest, now: int) returns (reply: Reply)
      requires Valid() && clock <= now && WellFormed(r)
      modifies this, cache, service.uow, service.uow.db
      ensures Valid() && clock == now
      ensures (Database(), reply) == Direct(old(Database()), r)
      ensures clicks == if reply.RedirectTo? then old(clicks) + [reply.clicked] else old(clicks)
    {
      match r
      case Redirect(code) => reply := RedirectToUrl(code, now);
      case Create(target, draws) => reply := CreateShortUrl(target, draws, now);
      case Activate(code) => reply := ActivateShortUrl(code, now);
      case Deactivate(code, at) => reply := DeactivateShortUrl(code, at, now);
      case Delete(code) => reply := DeleteShortUrl(code, now);
    }
  }

  /** A request, when it is made, and the keys that the store evicts just before. */
  datatype Call = Call(request: ApiRequest, now: int, evicted: seq<string>)

  function Requests(calls: seq<Call>): (rs: seq<ApiRequest>)
    ensures |rs| == |calls| && forall i :: 0 <= i < |rs| ==> rs[i] == calls[i].request
  {
    seq(|calls|, i requires 0 <= i < |calls| => calls[i].request)
  }

  function ClicksOf(replies: seq<Reply>): seq<nat> {
    if replies == [] then []
    else
      var last := replies[|replies| - 1];
      ClicksOf(replies[..|replies| - 1]) + if last.RedirectTo? then [last.clicked] else []
  }

  lemma {:induction false} EmptyStoreIsCoherent()
    ensures Coherent(Store(map[], 0))
  {
  }

  lemma {:induction false} ClicksAppend(replies: seq<Reply>, reply: Reply)
    ensures ClicksOf(replies + [reply]) == ClicksOf(replies) + if reply.RedirectTo? then [reply.clicked] else []
  {
    assert (replies + [reply])[..|replies|] == replies;
  }

  /** The handlers have served the requests so far as the service without a cache. */
  ghost predicate Served(store: Store, clicks: seq<nat>, requests: seq<ApiRequest>, replies: seq<Reply>) {
    && store == DirectStore(Store(map[], 0), requests)
    && replies == DirectReplies(Store(map[], 0), requests)
    && clicks == ClicksOf(replies)
  }

  lemma {:induction false} ServedOneMore(store: Store, clicks: seq<nat>, requests: seq<ApiRequest>, replies: seq<Reply>,
                                         r: ApiRequest)
    requires Served(store, clicks, requests, replies)
    ensures var (store', reply) := Direct(store, r);
            Served(store', clicks + if reply.RedirectTo? then [reply.clicked] else [],
                   requests + [r], replies + [reply])
  {
    hide Direct, ClicksOf;
    DirectAppend(Store(map[], 0), requests, r);
    ClicksAppend(replies, Direct(store, r).1);
  }

  lemma {:induction false} NoneServed()
    ensures Coherent(Store(map[], 0)) && Served(Store(map[], 0), [], [], [])
  {
  }

  lemma {:induction false} ServedAll(store: Store, clicks: seq<nat>, requests: seq<ApiRequest>, replies: seq<Reply>)
    requires Served(store, clicks, requests, replies)
    ensures replies == DirectReplies(Store(map[], 0), requests) && clicks == ClicksOf(replies)
    ensures forall n: nat, target :: n < |requests| ==> FollowsCreation(requests, replies, n, target)
  {
    forall n: nat, target | n < |requests|
      ensures FollowsCreation(requests, replies, n, target)
    {
      DirectFollowsCreation(requests, n, target);
    }
  }

  /**
   * Serial cache agreement: over any sequence of requests, at times that do not decrease, and any
   * pattern of expiries and evictions, the service with the cache replies, and sends clicks, as
   * the service without it; and each redirect goes where its code was created to go.
   */
  method ServeAll(calls: seq<Call>) returns (replies: seq<Reply>, clicks: seq<nat>)
    requires forall i :: 0 <= i < |calls| ==> 0 <= calls[i].now && WellFormed(calls[i].request)
    requires forall i, j :: 0 <= i < j < |calls| ==> calls[i].now <= calls[j].now
    ensures replies == DirectReplies(Store(map[], 0), Requests(calls))
    ensures clicks == ClicksOf(replies)
    ensures |replies| == |calls|
    ensures forall n: nat, target :: n < |calls| ==> FollowsCreation(Requests(calls), replies, n, target)
  {
    hide Direct, DirectStore, CacheAgrees, Coherent, Served, FollowsCreation;
    NoneServed();
    var db := new Database();
    var uow := new UnitOfWork(db);
    var service := new UrlService(uow);
    var cache := new UrlCacheRepository();
    var handlers := new Handlers(service, cache);
    replies := [];
    ghost var requests := Requests(calls);
    for i := 0 to |calls|
      invariant handlers.Valid() && fresh(handlers) && fresh(handlers.cache)
      invariant fresh(handlers.service.uow) && fresh(handlers.service.uow.db)
      invariant i < |calls| ==> handlers.clock <= calls[i].now
      invariant Served(handlers.Database(), handlers.clicks, requests[..i], replies)
    {
      handlers.Evict(calls[i].evicted);
      ServedOneMore(handlers.Database(), handlers.clicks, requests[..i], replies, requests[i]);
      assert requests[..i + 1] == requests[..i] + [requests[i]];
      assert handlers.clicks + [] == handlers.clicks;
      var reply := handlers.Handle(calls[i].request, calls[i].now);
      replies := replies + [reply];
    }
    clicks := handlers.clicks;
    assert requests[..|calls|] == requests;
    ServedAll(handlers.Database(), clicks, requests, replies);
  }
}
