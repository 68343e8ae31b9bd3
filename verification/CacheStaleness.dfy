/**
 * How long a deleted code can still be followed, with the handlers of CacheRaces interleaving: the
 * bound on stale entries, and exactly when there is none left.
 */
module CacheStaleness {
  import opened Wrappers
  import opened Urls
  import opened CacheRaces
  import Api

  // ---------- Steps while a code is absent ----------

  /** Task `t` holds a row of the code, and will cache it. */
  ghost predicate Holds(w: World, t: nat, code: string) {
    t in w.tasks && w.tasks[t].Filling? && w.tasks[t].code == code
  }

  lemma {:induction false} CreatedIsFound(store: Store, target: string, draws: seq<string>)
    requires Coherent(store)
    ensures var (store', url) := CreateOutcome(store, target, draws);
            url.Some? ==> Lookup(store'.urls, url.value.code) == url
  {
    CreateIsAtomic(store, target, draws);
    var (store', url) := CreateOutcome(store, target, draws);
    if url.Some? {
      LookupFinds(store', url.value.id);
    }
  }

  /** A step starts at most one task; it holds a row only after a creation or an activation. */
  lemma {:induction false} HoldersAfter(w: World, a: Action, code: string, t: nat)
    requires Enabled(w, a) && Holds(Apply(w, a), t, code) && !Holds(w, t, code)
    ensures || (a.ReadDatabase? && w.tasks[a.task].code == code && Lookup(w.store.urls, code).Some?)
            || (a.Create? && Transaction(w, a).1.Some? && Transaction(w, a).1.value.code == code)
            || (a == Activate(code) && Transaction(w, a).1.Some?)
  {
    hide CreateOutcome, MarkedActive, MarkedDeleted, Removed, Lookup;
  }

  /** No request comes to hold a row of a code that is absent before and after the step. */
  lemma {:induction false} NoNewHolder(w: World, a: Action, code: string, t: nat)
    requires Inv(w) && Enabled(w, a) && Holds(Apply(w, a), t, code)
    requires Lookup(w.store.urls, code).None? && Lookup(Apply(w, a).store.urls, code).None?
    ensures Holds(w, t, code)
  {
    hide Apply, Holds, CreateOutcome, Lookup, CacheInv;
    if !Holds(w, t, code) {
      HoldersAfter(w, a, code, t);
      ApplyTransacts(w, a);
      if a.Create? {
        CreatedIsFound(w.store, a.target, a.draws);
      }
      assert false;
    }
  }

  /** The only new entry of the code is one that a holder of its row writes. */
  lemma {:induction false} EntryStep(w: World, a: Action, code: string)
    requires Enabled(w, a)
    ensures var w' := Apply(w, a);
            && w.now <= w'.now && w.nextTask <= w'.nextTask
            && (code in w'.cache ==>
                 || (code in w.cache && w'.cache[code] == w.cache[code])
                 || (a.Fill? && Holds(w, a.task, code) && w'.cache[code].expiresAt == w.now + Api.TTL))
  {
  }

  /** A redirect of the code is answered from a live entry, or by a request that holds a row. */
  lemma {:induction false} AnswerStep(w: World, a: Action, code: string)
    requires Enabled(w, a)
    ensures var w' := Apply(w, a);
            || w'.followed == w.followed
            || (exists f :: w'.followed == w.followed + [f] && f.at == w.now &&
                 (f.code == code ==> CacheHit(w, code) || (a.Fill? && Holds(w, a.task, code))))
  {
    hide CreateOutcome, MarkedActive, MarkedDeleted, Removed, Lookup;
    match a
    case Redirect(c) =>
      if CacheHit(w, c) {
        assert Apply(w, a).followed == w.followed + [Followed(c, w.cache[c].url.target, w.cache[c].url.id, w.now)];
      }
    case Fill(t) =>
      var url := w.tasks[t].url;
      if w.tasks[t].redirecting {
        assert Apply(w, a).followed == w.followed + [Followed(w.tasks[t].code, url.target, url.id, w.now)];
      }
    case _ =>
  }

  /** The code is absent in every state of the run. */
  ghost predicate StaysGone(w: World, run: seq<Action>, code: string)
    requires Legal(w, run)
    decreases |run|
  {
    Lookup(w.store.urls, code).None? && (run == [] || StaysGone(Apply(w, run[0]), run[1..], code))
  }

  // ---------- Bounded staleness ----------

  /** The task a step belongs to, if it continues one. */
  function TaskOf(a: Action): Option<nat> {
    if a.ReadDatabase? || a.Fill? || a.Invalidate? || a.Abort? then Some(a.task) else None
  }

  /** Tasks below `inFlight` take no step after time `d`. */
  ghost predicate Settled(w: World, run: seq<Action>, inFlight: nat, d: int)
    requires Legal(w, run)
    decreases |run|
  {
    run == [] ||
    (&& (TaskOf(run[0]).Some? && TaskOf(run[0]).value < inFlight ==> w.now <= d)
     && Settled(Apply(w, run[0]), run[1..], inFlight, d))
  }

  /** No entry of the code lives past d + Api.TTL, and only old tasks hold a row of it. */
  ghost predicate Fading(w: World, code: string, inFlight: nat, d: int) {
    && inFlight <= w.nextTask
    && (code in w.cache ==> w.cache[code].expiresAt <= d + Api.TTL)
    && (forall t: nat :: Holds(w, t, code) ==> t < inFlight)
  }

  lemma {:induction false} FadingStep(w: World, a: Action, code: string, inFlight: nat, d: int)
    requires Inv(w) && Fading(w, code, inFlight, d) && Enabled(w, a)
    requires Lookup(w.store.urls, code).None? && Lookup(Apply(w, a).store.urls, code).None?
    requires TaskOf(a).Some? && TaskOf(a).value < inFlight ==> w.now <= d
    ensures Fading(Apply(w, a), code, inFlight, d)
  {
    hide Apply, Inv, Lookup;
    EntryStep(w, a, code);
    forall t: nat | Holds(Apply(w, a), t, code)
      ensures t < inFlight
    {
      NoNewHolder(w, a, code, t);
    }
  }

  /**
   * Bounded staleness. From a state in which the code is not in the database, along any run that
   * does not reissue it and in which the requests then in flight take no step after time d: at
   * d + 21600 seconds the cache holds no live entry of the code, and every redirect of it that is
   * answered after that state is answered before then.
   */
  lemma {:induction false} BoundedStaleness(w: World, run: seq<Action>, code: string, inFlight: nat, d: int)
    requires Inv(w) && Legal(w, run) && Fading(w, code, inFlight, d)
    requires StaysGone(w, run, code) && Settled(w, run, inFlight, d)
    ensures var w' := Exec(w, run);
            && (w'.now >= d + 21600 ==> !CacheHit(w', code))
            && w.followed <= w'.followed
            && (forall i :: |w.followed| <= i < |w'.followed| && w'.followed[i].code == code ==>
                 w'.followed[i].at < d + 21600)
    decreases |run|
  {
    hide Apply, Inv, Lookup;
    if run != [] {
      FadingStep(w, run[0], code, inFlight, d);
      InvStep(w, run[0]);
      BoundedStaleness(Apply(w, run[0]), run[1..], code, inFlight, d);
      AnswerStep(w, run[0], code);
    }
  }

  /** The state right after a delete is such a state, with every request of that moment in flight. */
  lemma {:induction false} StaleAfterDelete(before: seq<Action>, code: string, after: seq<Action>, d: int)
    requires Legal(Init(), before)
    requires var w := Apply(Exec(Init(), before), Delete(code));
             Legal(w, after) && w.now <= d && StaysGone(w, after, code) && Settled(w, after, w.nextTask, d)
    ensures var w := Apply(Exec(Init(), before), Delete(code));
            var w' := Exec(w, after);
            && (w'.now >= d + 21600 ==> !CacheHit(w', code))
            && w.followed <= w'.followed
            && (forall i :: |w.followed| <= i < |w'.followed| && w'.followed[i].code == code ==>
                 w'.followed[i].at < d + 21600)
  {
    hide Apply, Lookup;
    var w := Apply(Exec(Init(), before), Delete(code));
    InvRun(Init(), before);
    InvStep(Exec(Init(), before), Delete(code));
    assert Fading(w, code, w.nextTask, d);
    BoundedStaleness(w, after, code, w.nextTask, d);
  }

  // ---------- Exactly when a code is never followed again ----------

  /** How many redirects of the code were answered. */
  ghost function Answers(followed: seq<Followed>, code: string): nat {
    if followed == [] then 0
    else
      Answers(followed[..|followed| - 1], code) + if followed[|followed| - 1].code == code then 1 else 0
  }

  lemma {:induction false} OneMoreAnswer(followed: seq<Followed>, f: Followed, code: string)
    ensures Answers(followed + [f], code) == Answers(followed, code) + if f.code == code then 1 else 0
  {
    assert (followed + [f])[..|followed|] == followed;
  }

  /** No live entry of the code, and no request that holds a row of it. */
  ghost predicate Quiet(w: World, code: string) {
    !CacheHit(w, code) && forall t: nat :: !Holds(w, t, code)
  }

  lemma {:induction false} QuietStep(w: World, a: Action, code: string)
    requires Inv(w) && Quiet(w, code) && Enabled(w, a)
    requires Lookup(w.store.urls, code).None? && Lookup(Apply(w, a).store.urls, code).None?
    ensures Quiet(Apply(w, a), code)
    ensures Answers(Apply(w, a).followed, code) == Answers(w.followed, code)
  {
    hide Apply, Inv, Lookup, Answers;
    EntryStep(w, a, code);
    AnswerStep(w, a, code);
    forall t: nat
      ensures !Holds(Apply(w, a), t, code)
    {
      if Holds(Apply(w, a), t, code) {
        NoNewHolder(w, a, code, t);
      }
    }
    if Apply(w, a).followed != w.followed {
      var f :| Apply(w, a).followed == w.followed + [f] && f.code != code;
      OneMoreAnswer(w.followed, f, code);
    }
  }

  lemma {:induction false} QuietRun(w: World, run: seq<Action>, code: string)
    requires Inv(w) && Legal(w, run) && Quiet(w, code) && StaysGone(w, run, code)
    ensures Answers(Exec(w, run).followed, code) == Answers(w.followed, code)
    decreases |run|
  {
    hide Apply, Inv, Lookup, Quiet, Answers;
    if run != [] {
      QuietStep(w, run[0], code);
      InvStep(w, run[0]);
      QuietRun(Apply(w, run[0]), run[1..], code);
    }
  }

  /** Along every run that keeps the code absent, no redirect of it is answered any more. */
  ghost predicate NeverFollowedAgain(w: World, code: string) {
    forall run :: Legal(w, run) && StaysGone(w, run, code) ==>
      Answers(Exec(w, run).followed, code) == Answers(w.followed, code)
  }

  /** A live entry is followed. */
  lemma {:induction false} HitIsFollowed(w: World, code: string)
    requires Lookup(w.store.urls, code).None? && CacheHit(w, code)
    ensures var run := [Redirect(code)];
            && Legal(w, run) && StaysGone(w, run, code)
            && Answers(Exec(w, run).followed, code) == Answers(w.followed, code) + 1
  {
    var w' := Apply(w, Redirect(code));
    OneMoreAnswer(w.followed, Followed(code, w.cache[code].url.target, w.cache[code].url.id, w.now), code);
    Unfold(w, Redirect(code), []);
    assert [Redirect(code)] + [] == [Redirect(code)];
    assert StaysGone(w', [], code);
  }

  /** A row that is held is cached and then followed. */
  lemma {:induction false} HolderIsFollowed(w: World, t: nat, code: string)
    requires Lookup(w.store.urls, code).None? && Holds(w, t, code)
    ensures var run := [Fill(t), Redirect(code)];
            && Legal(w, run) && StaysGone(w, run, code)
            && Answers(Exec(w, run).followed, code) > Answers(w.followed, code)
  {
    hide Answers;
    var w' := Apply(w, Fill(t));
    var url := w.tasks[t].url;
    HitIsFollowed(w', code);
    OneMoreAnswer(w.followed, Followed(code, url.target, url.id, w.now), code);
    Unfold(w, Fill(t), [Redirect(code)]);
    assert [Fill(t)] + [Redirect(code)] == [Fill(t), Redirect(code)];
    assert [Fill(t), Redirect(code)][1..] == [Redirect(code)];
  }

  /**
   * In any state without the code in the database: it is never followed again, unless it is
   * reissued, if and only if no live entry of it is cached and no request in flight holds its row.
   */
  lemma {:induction false} NeverFollowedAgainExactly(w: World, code: string)
    requires Inv(w) && Lookup(w.store.urls, code).None?
    ensures NeverFollowedAgain(w, code) <==> Quiet(w, code)
  {
    hide Apply, Inv, Lookup, Answers, CacheHit, Holds;
    if Quiet(w, code) {
      forall run | Legal(w, run) && StaysGone(w, run, code)
        ensures Answers(Exec(w, run).followed, code) == Answers(w.followed, code)
      {
        QuietRun(w, run, code);
      }
    } else if CacheHit(w, code) {
      HitIsFollowed(w, code);
    } else {
      var t: nat :| Holds(w, t, code);
      HolderIsFollowed(w, t, code);
    }
  }

  /**
   * What an invalidation is for: right after a delete and its invalidation the code is never
   * followed again, exactly when no request in flight at the delete held its row.
   */
  lemma {:induction false} InvalidationEndsRedirects(before: seq<Action>, code: string)
    requires Legal(Init(), before) && Lookup(Exec(Init(), before).store.urls, code).Some?
    ensures var w := Exec(Init(), before);
            var w' := Apply(w, Delete(code));
            && Enabled(w', Invalidate(w.nextTask))
            && (NeverFollowedAgain(Apply(w', Invalidate(w.nextTask)), code) <==> forall t: nat :: !Holds(w, t, code))
  {
    hide Legal, Exec, NeverFollowedAgain, CacheInv;
    InvRun(Init(), before);
    var w := Exec(Init(), before);
    var w' := Apply(w, Delete(code));
    InvStep(w, Delete(code));
    LookupAfterRemove(w.store, Lookup(w.store.urls, code).value, code);
    InvStep(w', Invalidate(w.nextTask));
    NeverFollowedAgainExactly(Apply(w', Invalidate(w.nextTask)), code);
    DeleteAndInvalidate(w, code);
  }

  lemma {:induction false} DeleteAndInvalidate(w: World, code: string)
    requires Inv(w) && Lookup(w.store.urls, code).Some?
    ensures var w' := Apply(w, Delete(code));
            && Enabled(w', Invalidate(w.nextTask))
            && (Quiet(Apply(w', Invalidate(w.nextTask)), code) <==> forall t: nat :: !Holds(w, t, code))
  {
    hide Lookup;
    var w2 := Apply(Apply(w, Delete(code)), Invalidate(w.nextTask));
    forall t: nat
      ensures Holds(w2, t, code) <==> Holds(w, t, code)
    {
    }
  }

  // ---------- A run that reaches the bound ----------

  const LINK := Url(0, "t", "c", None)

  /** A redirect holds the row of a code that was just created. */
  ghost function RedirectHoldsRow(): World {
    World(Store(map[0 := LINK], 1), map[], map[0 := Filling("c", LINK, false), 1 := Filling("c", LINK, true)], 2, 0, [],
          {LINK}, {})
  }

  /** The row is deleted and its key invalidated, while the redirect still holds it. */
  ghost function DeletedMeanwhile(): World {
    World(Store(map[], 1), map[], map[0 := Filling("c", LINK, false), 1 := Filling("c", LINK, true)], 3, 0, [],
          {LINK}, {"c"})
  }

  lemma {:induction false} ReachRedirectHoldsRow()
    ensures var w1 := Apply(Init(), Create("t", ["c"]));
            var w2 := Apply(w1, Redirect("c"));
            && Enabled(w2, ReadDatabase(1))
            && Apply(w2, ReadDatabase(1)) == RedirectHoldsRow()
  {
    var w1 := Apply(Init(), Create("t", ["c"]));
    assert !HasCode(Init().store.urls, ["c"][0]);
    assert w1.store == Store(map[0 := LINK], 1) && w1.tasks == map[0 := Filling("c", LINK, false)];
    LookupFinds(w1.store, 0);
    var w2 := Apply(w1, Redirect("c"));
    var w3 := Apply(w2, ReadDatabase(1));
    assert w3.tasks == RedirectHoldsRow().tasks;
  }

  lemma {:induction false} ReachDeletedMeanwhile()
    ensures var w := Apply(RedirectHoldsRow(), Delete("c"));
            && Enabled(w, Invalidate(2))
            && Apply(w, Invalidate(2)) == DeletedMeanwhile()
  {
    LookupFinds(RedirectHoldsRow().store, 0);
    var w := Apply(RedirectHoldsRow(), Delete("c"));
    assert w.store.urls == map[] && w.deleted == {"c"};
    var w' := Apply(w, Invalidate(2));
    assert w'.tasks == DeletedMeanwhile().tasks && w'.cache == map[];
  }

  lemma {:induction false} FollowDeleted()
    ensures var w1 := Apply(DeletedMeanwhile(), Fill(1));
            var w2 := Apply(Apply(w1, Wait(21599)), Redirect("c"));
            Lookup(w2.store.urls, "c").None? && Followed("c", "t", 0, 21599) in w2.followed
  {
  }

  /**
   * The bound is reached: a redirect that read the row before a delete caches it after the delete
   * has invalidated the key, and the code is followed for another 21599 seconds.
   */
  lemma {:induction false} StaleFillOutlivesDelete()
    ensures var run := [Create("t", ["c"])] + ([Redirect("c")] + ([ReadDatabase(1)] + ([Delete("c")] +
                       ([Invalidate(2)] + ([Fill(1)] + ([Wait(21599)] + ([Redirect("c")] + [])))))));
            && Legal(Init(), run)
            && var w := Exec(Init(), run);
               Lookup(w.store.urls, "c").None? && Followed("c", "t", 0, 21599) in w.followed
  {
    ReachRedirectHoldsRow();
    ReachDeletedMeanwhile();
    FollowDeleted();
    var w1 := Apply(Init(), Create("t", ["c"]));
    var w2 := Apply(w1, Redirect("c"));
    var w3 := RedirectHoldsRow();
    var w4 := Apply(w3, Delete("c"));
    var w5 := DeletedMeanwhile();
    var w6 := Apply(w5, Fill(1));
    var w7 := Apply(w6, Wait(21599));
    var r7: seq<Action> := [Redirect("c")] + [];
    var r6 := [Wait(21599)] + r7;
    var r5 := [Fill(1)] + r6;
    var r4 := [Invalidate(2)] + r5;
    var r3 := [Delete("c")] + r4;
    var r2 := [ReadDatabase(1)] + r3;
    Unfold(w7, Redirect("c"), []);
    Unfold(w6, Wait(21599), r7);
    Unfold(w5, Fill(1), r6);
    Unfold(w4, Invalidate(2), r5);
    Unfold(w3, Delete("c"), r4);
    Unfold(w2, ReadDatabase(1), r3);
    Unfold(w1, Redirect("c"), r2);
    Unfold(Init(), Create("t", ["c"]), [Redirect("c")] + r2);
  }
}
