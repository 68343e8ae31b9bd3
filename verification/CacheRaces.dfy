/**
 * The handlers of Api running at the same time, as a step machine: each request is a cache read,
 * a database transaction and a cache write, and holds the row it has read in between. Steps of
 * different requests interleave freely, requests may die between their steps, and the store may
 * evict any key.
 */
module CacheRaces {
  import opened Wrappers
  import opened Urls
  import Api

  /** What a request in flight still has to do. */
  datatype Task =
    | Missed(code: string)                              // a redirect that missed the cache
    | Filling(code: string, url: Url, redirecting: bool) // holds a row, and will cache it
    | Invalidating(code: string)                        // will delete the cache key

  /** A redirect that was answered, with the click it sent. */
  datatype Followed = Followed(code: string, target: string, urlId: nat, at: int)

  datatype World = World(
    store: Store,
    cache: Api.Entries,
    tasks: map<nat, Task>,
    nextTask: nat,
    now: int,
    followed: seq<Followed>,
    versions: set<Url>,     // every row the database ever held
    deleted: set<string>)   // every code ever deleted

  datatype Action =
    | Wait(seconds: nat)
    | Redirect(code: string)                     // reads the cache
    | ReadDatabase(task: nat)
    | Fill(task: nat)                            // writes the cache; a redirect is then answered
    | Create(target: string, draws: seq<string>) // these four are database transactions
    | Activate(code: string)
    | Deactivate(code: string, at: int)
    | Delete(code: string)
    | Invalidate(task: nat)                      // deletes the cache key
    | Evict(code: string)
    | Abort(task: nat)

  ghost function Init(): World {
    World(Store(map[], 0), map[], map[], 0, 0, [], {}, {})
  }

  ghost predicate Enabled(w: World, a: Action) {
    match a
    case ReadDatabase(t) => t in w.tasks && w.tasks[t].Missed?
    case Fill(t) => t in w.tasks && w.tasks[t].Filling?
    case Invalidate(t) => t in w.tasks && w.tasks[t].Invalidating?
    case Abort(t) => t in w.tasks
    case _ => true
  }

  ghost function Answer(w: World, code: string, url: Url): World {
    w.(followed := w.followed + [Followed(code, url.target, url.id, w.now)])
  }

  ghost function Start(w: World, task: Task): World {
    w.(tasks := w.tasks[w.nextTask := task], nextTask := w.nextTask + 1)
  }

  ghost function End(w: World, t: nat): World {
    w.(tasks := w.tasks - {t})
  }

  ghost predicate CacheHit(w: World, code: string) {
    code in w.cache && w.now < w.cache[code].expiresAt
  }

  /** A transaction's new table, and the row it wrote. */
  ghost function Commit(w: World, urls: Table, url: Option<Url>): World {
    w.(store := w.store.(urls := urls), versions := if url.Some? then w.versions + {url.value} else w.versions)
  }

  /** The transaction of a step: what it leaves, and the row that it wrote or removed. */
  ghost function Transaction(w: World, a: Action): (World, Option<Url>) {
    match a
    case Create(target, draws) =>
      var (store, url) := CreateOutcome(w.store, target, draws);
      (Commit(w.(store := store), store.urls, url), url)
    case Activate(code) =>
      var (urls, url) := MarkedActive(w.store.urls, code);
      (Commit(w, urls, url), url)
    case Deactivate(code, at) =>
      var (urls, url) := MarkedDeleted(w.store.urls, code, at);
      (Commit(w, urls, url), url)
    case Delete(code) =>
      var (urls, url) := Removed(w.store.urls, code);
      (w.(store := w.store.(urls := urls), deleted := if url.Some? then w.deleted + {code} else w.deleted), url)
    case _ => (w, None)
  }

  ghost function Apply(w: World, a: Action): World
    requires Enabled(w, a)
  {
    match a
    case Wait(seconds) => w.(now := w.now + seconds)
    case Redirect(code) => if CacheHit(w, code) then Answer(w, code, w.cache[code].url) else Start(w, Missed(code))
    case ReadDatabase(t) =>
      (match Lookup(w.store.urls, w.tasks[t].code)
       case Some(url) => w.(tasks := w.tasks[t := Filling(w.tasks[t].code, url, true)])
       case None => End(w, t))
    case Fill(t) =>
      var Filling(code, url, redirecting) := w.tasks[t];
      var filled := End(w.(cache := w.cache[code := Api.CacheEntry(url, w.now + Api.TTL)]), t);
      if redirecting then Answer(filled, code, url) else filled
    case Create(_, _) =>
      var (done, url) := Transaction(w, a);
      if url.Some? then Start(done, Filling(url.value.code, url.value, false)) else done
    case Activate(code) =>
      var (done, url) := Transaction(w, a);
      if url.Some? then Start(done, Filling(code, url.value, false)) else done
    case Deactivate(code, _) =>
      var (done, url) := Transaction(w, a);
      if url.Some? then Start(done, Invalidating(code)) else done
    case Delete(code) =>
      var (done, url) := Transaction(w, a);
      if url.Some? then Start(done, Invalidating(code)) else done
    case Invalidate(t) => End(w.(cache := w.cache - {w.tasks[t].code}), t)
    case Evict(code) => w.(cache := w.cache - {code})
    case Abort(t) => End(w, t)
  }

  ghost predicate Legal(w: World, run: seq<Action>)
    decreases |run|
  {
    run == [] || (Enabled(w, run[0]) && Legal(Apply(w, run[0]), run[1..]))
  }

  ghost function Exec(w: World, run: seq<Action>): World
    requires Legal(w, run)
    decreases |run|
  {
    if run == [] then w else Exec(Apply(w, run[0]), run[1..])
  }

  // ---------- What every step keeps ----------

  /** A row of `code` that the database once held. */
  ghost predicate IsVersion(w: World, code: string, url: Url) {
    url in w.versions && url.code == code
  }

  ghost predicate Followable(w: World, f: Followed) {
    exists url :: IsVersion(w, f.code, url) && url.target == f.target && url.id == f.urlId
  }

  /** The rows and versions of the database. */
  ghost predicate VersionsInv(w: World) {
    && Coherent(w.store)
    && (forall id :: id in w.store.urls ==> w.store.urls[id] in w.versions)
    && (forall v :: v in w.versions ==> v.id < w.store.nextId)
    && (forall u, v :: u in w.versions && v in w.versions && u.id == v.id ==> u.code == v.code && u.target == v.target)
    && (forall v :: v in w.versions && v.code !in w.deleted ==>
         Lookup(w.store.urls, v.code).Some? && Lookup(w.store.urls, v.code).value.id == v.id)
  }

  /** Everything cached, held or answered is a version; no entry outlives a full Api.TTL from now. */
  ghost predicate CacheInv(w: World) {
    && (forall code :: code in w.cache ==>
         IsVersion(w, code, w.cache[code].url) && w.cache[code].expiresAt <= w.now + Api.TTL)
    && (forall t :: t in w.tasks && w.tasks[t].Filling? ==> IsVersion(w, w.tasks[t].code, w.tasks[t].url))
    && (forall t :: t in w.tasks ==> t < w.nextTask)
    && (forall f :: f in w.followed ==> Followable(w, f))
  }

  ghost predicate Inv(w: World) {
    VersionsInv(w) && CacheInv(w)
  }

  lemma {:induction false} ChangeKeepsVersions(w: World, url: Url, deletedAt: Option<int>)
    requires VersionsInv(w) && url.id in w.store.urls && w.store.urls[url.id] == url
    ensures var changed := url.(deletedAt := deletedAt);
            VersionsInv(Commit(w, w.store.urls[url.id := changed], Some(changed)))
  {
    var changed := url.(deletedAt := deletedAt);
    var w' := Commit(w, w.store.urls[url.id := changed], Some(changed));
    LookupAfterChange(w.store, url, deletedAt, url.code);
    LookupFinds(w.store, url.id);
    forall v | v in w'.versions && v.code !in w'.deleted
      ensures Lookup(w'.store.urls, v.code).Some? && Lookup(w'.store.urls, v.code).value.id == v.id
    {
      LookupAfterChange(w.store, url, deletedAt, v.code);
    }
  }

  lemma {:induction false} InsertKeepsVersions(w: World, url: Url)
    requires VersionsInv(w) && url.id == w.store.nextId && !HasCode(w.store.urls, url.code)
    ensures var store := Store(w.store.urls[url.id := url], w.store.nextId + 1);
            VersionsInv(Commit(w.(store := store), store.urls, Some(url)))
  {
    var store := Store(w.store.urls[url.id := url], w.store.nextId + 1);
    var w' := Commit(w.(store := store), store.urls, Some(url));
    LookupAfterInsert(w.store, url, url.code);
    forall v | v in w'.versions && v.code !in w'.deleted
      ensures Lookup(w'.store.urls, v.code).Some? && Lookup(w'.store.urls, v.code).value.id == v.id
    {
      LookupAfterInsert(w.store, url, v.code);
    }
  }

  lemma {:induction false} SpentIdKeepsVersions(w: World)
    requires VersionsInv(w)
    ensures VersionsInv(w.(store := w.store.(nextId := w.store.nextId + 1)))
  {
  }

  lemma {:induction false} CreateKeepsVersions(w: World, target: string, draws: seq<string>)
    requires VersionsInv(w)
    ensures var (store, url) := CreateOutcome(w.store, target, draws);
            VersionsInv(Commit(w.(store := store), store.urls, url))
    decreases |draws|
  {
    hide VersionsInv, HasCode;
    if draws != [] {
      if HasCode(w.store.urls, draws[0]) {
        SpentIdKeepsVersions(w);
        CreateKeepsVersions(w.(store := w.store.(nextId := w.store.nextId + 1)), target, draws[1..]);
      } else {
        InsertKeepsVersions(w, Url(w.store.nextId, target, draws[0], None));
      }
    }
  }

  lemma {:induction false} RemoveKeepsVersions(w: World, url: Url)
    requires VersionsInv(w) && url.id in w.store.urls && w.store.urls[url.id] == url
    ensures VersionsInv(w.(store := w.store.(urls := w.store.urls - {url.id}), deleted := w.deleted + {url.code}))
  {
    var w' := w.(store := w.store.(urls := w.store.urls - {url.id}), deleted := w.deleted + {url.code});
    LookupAfterRemove(w.store, url, url.code);
    forall v | v in w'.versions && v.code !in w'.deleted
      ensures Lookup(w'.store.urls, v.code).Some? && Lookup(w'.store.urls, v.code).value.id == v.id
    {
      LookupAfterRemove(w.store, url, v.code);
    }
  }

  /** Tasks, cache and time do not matter to the versions. */
  lemma {:induction false} SameVersions(w: World, w': World)
    requires VersionsInv(w) && w'.store == w.store && w'.versions == w.versions && w'.deleted == w.deleted
    ensures VersionsInv(w')
  {
  }

  lemma {:induction false} TransactionKeepsVersions(w: World, a: Action)
    requires VersionsInv(w)
    ensures VersionsInv(Transaction(w, a).0) && w.versions <= Transaction(w, a).0.versions
  {
    hide VersionsInv, CreateOutcome;
    if a.Activate? || a.Deactivate? || a.Delete? {
      FoundIsARow(w, a.code);
      assert Transaction(w, a).1.None? ==> Transaction(w, a).0 == w;
    }
    match a
    case Create(target, draws) => CreateKeepsVersions(w, target, draws);
    case Activate(code) =>
      if Lookup(w.store.urls, code).Some? {
        ChangeKeepsVersions(w, Lookup(w.store.urls, code).value, None);
      }
    case Deactivate(code, at) =>
      if Lookup(w.store.urls, code).Some? {
        ChangeKeepsVersions(w, Lookup(w.store.urls, code).value, Some(at));
      }
    case Delete(code) =>
      if Lookup(w.store.urls, code).Some? {
        RemoveKeepsVersions(w, Lookup(w.store.urls, code).value);
      }
    case _ =>
  }

  lemma {:induction false} FoundIsARow(w: World, code: string)
    requires VersionsInv(w)
    ensures var found := Lookup(w.store.urls, code);
            found.Some? ==> found.value.code == code && found.value.id in w.store.urls
                            && w.store.urls[found.value.id] == found.value
  {
  }

  lemma {:induction false} ApplyTransacts(w: World, a: Action)
    requires Enabled(w, a)
    ensures var w', done := Apply(w, a), Transaction(w, a).0;
            w'.store == done.store && w'.versions == done.versions && w'.deleted == done.deleted
  {
    hide CreateOutcome, MarkedActive, MarkedDeleted, Removed, Lookup;
  }

  lemma {:induction false} VersionsStep(w: World, a: Action)
    requires VersionsInv(w) && Enabled(w, a)
    ensures VersionsInv(Apply(w, a)) && w.versions <= Apply(w, a).versions
  {
    hide VersionsInv, Apply, Transaction;
    TransactionKeepsVersions(w, a);
    ApplyTransacts(w, a);
    SameVersions(Transaction(w, a).0, Apply(w, a));
  }

  lemma {:induction false} AnswersStep(w: World, a: Action)
    requires Inv(w) && Enabled(w, a) && w.versions <= Apply(w, a).versions
    ensures forall f :: f in Apply(w, a).followed ==> Followable(Apply(w, a), f)
  {
  }

  lemma {:induction false} EntriesStep(w: World, a: Action)
    requires CacheInv(w) && Enabled(w, a) && w.versions <= Apply(w, a).versions
    ensures var w' := Apply(w, a);
            forall code :: code in w'.cache ==>
              IsVersion(w', code, w'.cache[code].url) && w'.cache[code].expiresAt <= w'.now + Api.TTL
  {
  }

  /** The task a step starts holds a row that its transaction wrote. */
  lemma {:induction false} NewTaskHoldsVersion(w: World, a: Action)
    requires VersionsInv(w) && Enabled(w, a) && !a.ReadDatabase?
    ensures var w' := Apply(w, a);
            && w.nextTask <= w'.nextTask
            && (forall t :: t in w'.tasks ==>
                 (t in w.tasks && w'.tasks[t] == w.tasks[t]) || w.nextTask == t < w'.nextTask)
            && (w.nextTask < w'.nextTask && w'.tasks[w.nextTask].Filling? ==>
                 IsVersion(w', w'.tasks[w.nextTask].code, w'.tasks[w.nextTask].url))
  {
    match a
    case Activate(code) =>
      if Lookup(w.store.urls, code).Some? {
        assert Lookup(w.store.urls, code).value.code == code;
      }
    case _ =>
  }

  lemma {:induction false} TasksStep(w: World, a: Action)
    requires Inv(w) && Enabled(w, a) && w.versions <= Apply(w, a).versions
    ensures var w' := Apply(w, a);
            && (forall t :: t in w'.tasks && w'.tasks[t].Filling? ==> IsVersion(w', w'.tasks[t].code, w'.tasks[t].url))
            && (forall t :: t in w'.tasks ==> t < w'.nextTask)
  {
    if a.ReadDatabase? {
      var found := Lookup(w.store.urls, w.tasks[a.task].code);
      assert found.Some? ==> IsVersion(w, w.tasks[a.task].code, found.value);
    } else {
      NewTaskHoldsVersion(w, a);
      var w' := Apply(w, a);
      forall t | t in w'.tasks && w'.tasks[t].Filling?
        ensures IsVersion(w', w'.tasks[t].code, w'.tasks[t].url)
      {
        if t in w.tasks && w'.tasks[t] == w.tasks[t] {
          assert IsVersion(w, w.tasks[t].code, w.tasks[t].url);
        }
      }
    }
  }

  lemma {:induction false} InvStep(w: World, a: Action)
    requires Inv(w) && Enabled(w, a)
    ensures Inv(Apply(w, a))
  {
    VersionsStep(w, a);
    AnswersStep(w, a);
    EntriesStep(w, a);
    TasksStep(w, a);
  }

  lemma {:induction false} InvRun(w: World, run: seq<Action>)
    requires Inv(w) && Legal(w, run)
    ensures Inv(Exec(w, run))
    decreases |run|
  {
    if run != [] {
      InvStep(w, run[0]);
      InvRun(Apply(w, run[0]), run[1..]);
    }
  }

  // ---------- Theorems about every interleaving ----------

  /**
   * Whatever is cached, or held by a request in flight, is a row that the database once held for
   * that code, and every redirect sends its visitor to a target, and its click to an id, that the
   * code really had together.
   */
  lemma {:induction false} InterleavedCacheSafety(run: seq<Action>)
    requires Legal(Init(), run)
    ensures var w := Exec(Init(), run);
            && (forall code :: code in w.cache ==> IsVersion(w, code, w.cache[code].url))
            && (forall t :: t in w.tasks && w.tasks[t].Filling? ==> IsVersion(w, w.tasks[t].code, w.tasks[t].url))
            && (forall f :: f in w.followed ==> Followable(w, f))
  {
    InvRun(Init(), run);
  }

  /** For a code that was never deleted, every redirect goes where the code was created to go. */
  lemma {:induction false} NeverDeletedNeverMoves(run: seq<Action>, f: Followed, created: Url)
    requires Legal(Init(), run)
    requires var w := Exec(Init(), run);
             f in w.followed && f.code !in w.deleted && IsVersion(w, f.code, created)
    ensures f.target == created.target && f.urlId == created.id
  {
    InvRun(Init(), run);
    var w := Exec(Init(), run);
    assert Followable(w, f);
    var url :| IsVersion(w, f.code, url) && url.target == f.target && url.id == f.urlId;
  }

  // ---------- A request that nothing interrupts ----------

  lemma {:induction false} Unfold(w: World, a: Action, run: seq<Action>)
    requires Enabled(w, a) && Legal(Apply(w, a), run)
    ensures Legal(w, [a] + run) && Exec(w, [a] + run) == Exec(Apply(w, a), run)
  {
  }

  /** The steps of a request from its start to its reply, when no other step comes in between. */
  ghost function Uninterrupted(w: World, r: Api.ApiRequest): seq<Action> {
    var t := w.nextTask;
    match r
    case Redirect(code) =>
      if CacheHit(w, code) then [Redirect(code)]
      else if Lookup(w.store.urls, code).None? then [Redirect(code), ReadDatabase(t)]
      else [Redirect(code), ReadDatabase(t), Fill(t)]
    case Create(target, draws) =>
      var a := Create(target, draws);
      if Transaction(w, a).1.Some? then [a, Fill(t)] else [a]
    case Activate(code) =>
      if Transaction(w, Activate(code)).1.Some? then [Activate(code), Fill(t)] else [Activate(code)]
    case Deactivate(code, at) =>
      var a := Deactivate(code, at);
      if Transaction(w, a).1.Some? then [a, Invalidate(t)] else [a]
    case Delete(code) =>
      if Transaction(w, Delete(code)).1.Some? then [Delete(code), Invalidate(t)] else [Delete(code)]
  }

  /** Database, answers, tasks and agreement after the request are those of the service without a cache. */
  ghost predicate IsDirect(w: World, r: Api.ApiRequest, w': World) {
    var (store, reply) := Api.Direct(w.store, r);
    && w'.store == store && w'.tasks == w.tasks && w'.now == w.now
    && Api.CacheAgrees(w'.cache, store.urls, w.now)
    && w'.followed == w.followed + if r.Redirect? && reply.RedirectTo?
                                   then [Followed(r.code, reply.target, reply.clicked, w.now)] else []
  }

  lemma {:induction false} RunOne(w: World, a: Action)
    requires Enabled(w, a)
    ensures Legal(w, [a]) && Exec(w, [a]) == Apply(w, a)
  {
    Unfold(w, a, []);
    assert [a] + [] == [a];
  }

  lemma {:induction false} RunTwo(w: World, a: Action, b: Action)
    requires Enabled(w, a) && Enabled(Apply(w, a), b)
    ensures Legal(w, [a, b]) && Exec(w, [a, b]) == Apply(Apply(w, a), b)
  {
    RunOne(Apply(w, a), b);
    Unfold(w, a, [b]);
    assert [a] + [b] == [a, b];
  }

  lemma {:induction false} RedirectAlone(w: World, code: string)
    requires Coherent(w.store) && Api.CacheAgrees(w.cache, w.store.urls, w.now) && w.nextTask !in w.tasks
    ensures var run := Uninterrupted(w, Api.Redirect(code));
            Legal(w, run) && IsDirect(w, Api.Redirect(code), Exec(w, run))
  {
    var w1, t := Apply(w, Redirect(code)), w.nextTask;
    if CacheHit(w, code) {
      RunOne(w, Redirect(code));
    } else {
      var w2 := Apply(w1, ReadDatabase(t));
      RunTwo(w, Redirect(code), ReadDatabase(t));
      if Lookup(w.store.urls, code).Some? {
        var w3 := Apply(w2, Fill(t));
        RunTwo(w1, ReadDatabase(t), Fill(t));
        Unfold(w, Redirect(code), [ReadDatabase(t), Fill(t)]);
        assert [Redirect(code)] + [ReadDatabase(t), Fill(t)] == [Redirect(code), ReadDatabase(t), Fill(t)];
        assert w3.tasks == w.tasks;
      } else {
        assert w2.tasks == w.tasks;
        assert w.followed + [] == w.followed;
      }
    }
  }

  /** The second step of a request that changed a row: it writes the cache, or deletes the key. */
  ghost function CacheStep(w: World, a: Action): Action {
    if a.Create? || a.Activate? then Fill(w.nextTask) else Invalidate(w.nextTask)
  }

  lemma {:induction false} ChangeAlone(w: World, a: Action)
    requires a.Create? || a.Activate? || a.Deactivate? || a.Delete?
    requires w.nextTask !in w.tasks
    ensures var (done, url) := Transaction(w, a);
            var run := if url.Some? then [a, CacheStep(w, a)] else [a];
            && Legal(w, run)
            && var w' := Exec(w, run);
               && w'.store == done.store && w'.tasks == w.tasks && w'.now == w.now && w'.followed == w.followed
               && w'.cache == if url.None? then w.cache
                              else if a.Create? || a.Activate? then
                                w.cache[if a.Create? then url.value.code else a.code
                                        := Api.CacheEntry(url.value, w.now + Api.TTL)]
                              else w.cache - {a.code}
  {
    hide CreateOutcome, MarkedActive, MarkedDeleted, Removed, Lookup;
    if Transaction(w, a).1.Some? {
      RunTwo(w, a, CacheStep(w, a));
      assert Apply(Apply(w, a), CacheStep(w, a)).tasks == w.tasks;
    } else {
      RunOne(w, a);
    }
  }

  /**
   * A request that runs without interruption from agreement of cache and database answers, changes
   * the database and keeps the agreement as the service without a cache does.
   */
  lemma {:induction false} UninterruptedIsDirect(w: World, r: Api.ApiRequest)
    requires Coherent(w.store) && Api.CacheAgrees(w.cache, w.store.urls, w.now) && w.nextTask !in w.tasks
    ensures Legal(w, Uninterrupted(w, r)) && IsDirect(w, r, Exec(w, Uninterrupted(w, r)))
  {
    hide Legal, Exec, CreateOutcome;
    assert w.followed + [] == w.followed;
    match r
    case Redirect(code) => RedirectAlone(w, code);
    case Create(target, draws) =>
      ChangeAlone(w, Create(target, draws));
      Api.AgreesAfterCreate(w.cache, w.store, target, draws, w.now);
    case Activate(code) =>
      ChangeAlone(w, Activate(code));
      if Lookup(w.store.urls, code).Some? {
        Api.AgreesAfterChange(w.cache, w.store, Lookup(w.store.urls, code).value, None, w.now);
      }
    case Deactivate(code, at) =>
      ChangeAlone(w, Deactivate(code, at));
      if Lookup(w.store.urls, code).Some? {
        Api.AgreesAfterChange(w.cache, w.store, Lookup(w.store.urls, code).value, Some(at), w.now);
      }
    case Delete(code) =>
      ChangeAlone(w, Delete(code));
      if Lookup(w.store.urls, code).Some? {
        Api.AgreesAfterRemove(w.cache, w.store, Lookup(w.store.urls, code).value, w.now);
      }
  }
}
