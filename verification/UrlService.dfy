/**
 * The url service over a unit of work (src/services/database/url.py, src/repositories/uow.py):
 * statements run on the session's view of the table, a collision aborts the transaction until the
 * savepoint is restored, and only a commit changes the database.
 */
module UrlService {
  import opened Wrappers
  import opened Urls

  const MAX_CREATE_ATTEMPTS: nat := 5
  const MAX_CREATE_MANY_ATTEMPTS: nat := 3

  datatype ServiceError = NotFound | ServiceUnavailable

  /** The committed rows, and the id sequence, which lives outside transactions. */
  class Database {
    var urls: Table
    var nextId: nat

    ghost function AsStore(): Store
      reads this
    {
      Store(urls, nextId)
    }

    constructor ()
      ensures AsStore() == Store(map[], 0)
    {
      urls, nextId := map[], 0;
    }
  }

  /** A transaction scope: what the session sees, if it is open, and whether a statement has failed in it. */
  class UnitOfWork {
    const db: Database
    var session: Option<Table>
    var aborted: bool

    ghost predicate Closed()
      reads this, db
    {
      session.None? && Coherent(db.AsStore())
    }

    ghost predicate Open()
      reads this, db
    {
      session.Some? && !aborted && Coherent(View())
    }

    /** What the open session sees. */
    ghost function View(): Store
      requires session.Some?
      reads this, db
    {
      Store(session.value, db.nextId)
    }

    constructor (db: Database)
      requires Coherent(db.AsStore())
      ensures Closed() && this.db == db
    {
      this.db := db;
      session, aborted := None, false;
    }

    method Enter()
      requires Closed()
      modifies this
      ensures Open() && session == Some(db.urls)
    {
      session, aborted := Some(db.urls), false;
    }

    /** Leaves the scope: commits, unless an exception is passing through or the transaction is aborted. */
    method Exit(raised: bool)
      requires session.Some?
      modifies this, db`urls
      ensures session.None?
      ensures db.urls == if raised || old(aborted) then old(db.urls) else old(session).value
    {
      if !raised && !aborted {
        db.urls := session.value;
      }
      session, aborted := None, false;
    }

    /** Goes back to what the session saw at the savepoint. */
    method RollbackTo(savepoint: Table)
      requires session.Some?
      modifies this
      ensures session == Some(savepoint) && !aborted
    {
      session, aborted := Some(savepoint), false;
    }

    /** Inserts a row; a taken code violates the unique index and aborts the transaction. */
    method Insert(target: string, code: string) returns (r: Option<Url>)
      requires Open()
      modifies this, db`nextId
      ensures session.Some? && db.nextId == old(db.nextId) + 1
      ensures r.None? <==> HasCode(old(session).value, code)
      ensures r.None? ==> aborted && session == old(session)
      ensures r.Some? ==> Open() && r.value == Url(old(db.nextId), target, code, None)
      ensures r.Some? ==> r.value.id !in old(session).value
      ensures r.Some? ==> session.value == old(session).value[old(db.nextId) := r.value]
    {
      var id := db.nextId;
      db.nextId := id + 1;
      if HasCode(session.value, code) {
        aborted := true;
        return None;
      }
      var url := Url(id, target, code, None);
      LookupAfterInsert(old(View()), url, code);
      session := Some(session.value[id := url]);
      r := Some(url);
    }

    /** Inserts rows one after the other; the first taken code ends the statement. */
    method InsertMany(targets: seq<string>, codes: seq<string>) returns (inserted: bool)
      requires Open() && |codes| == |targets| && Distinct(codes)
      modifies this, db`nextId
      ensures session.Some? && db.nextId >= old(db.nextId)
      ensures inserted <==> forall i :: 0 <= i < |codes| ==> !HasCode(old(session).value, codes[i])
      ensures inserted ==> Open() && exists ids :: AddsRows(old(session).value, session.value, targets, ids, codes)
    {
      hide HasCode, Coherent, AddsRows;
      ghost var before := session.value;
      ghost var ids: seq<nat> := [];
      AddsNoRows(before);
      for i := 0 to |targets|
        invariant Open() && db.nextId >= old(db.nextId)
        invariant AddsRows(before, session.value, targets[..i], ids, codes[..i])
      {
        ghost var mid := session.value;
        if HasCode(mid, codes[i]) {
          OnlyOldRowsCollide(before, mid, targets[..i], ids, codes, i);
        }
        var id := db.nextId;
        var url := Insert(targets[i], codes[i]);
        if url.None? {
          return false;
        }
        AddsOneMore(before, mid, targets[..i], ids, codes[..i], id, targets[i], codes[i]);
        ids := ids + [id];
        assert targets[..i + 1] == targets[..i] + [targets[i]];
        assert codes[..i + 1] == codes[..i] + [codes[i]];
      }
      assert targets[..|targets|] == targets && codes[..|targets|] == codes;
      AddedCodesWereFree(before, session.value, targets, ids, codes);
      return true;
    }

    method SelectByCode(code: string) returns (r: Option<Url>)
      requires Open()
      ensures r == Lookup(session.value, code)
    {
      if id :| id in session.value && session.value[id].code == code {
        LookupFinds(View(), id);
        return Some(session.value[id]);
      }
      return None;
    }

    method Update(url: Url)
      requires session.Some?
      modifies this
      ensures session == Some(old(session).value[url.id := url]) && aborted == old(aborted)
    {
      session := Some(session.value[url.id := url]);
    }

    method Delete(id: nat)
      requires session.Some?
      modifies this
      ensures session == Some(old(session).value - {id}) && aborted == old(aborted)
    {
      session := Some(session.value - {id});
    }
  }

  lemma {:induction false} AddsNoRows(before: Table)
    ensures AddsRows(before, before, [], [], [])
  {
  }

  lemma {:induction false} AddedCodesWereFree(before: Table, after: Table, targets: seq<string>,
                                              ids: seq<nat>, codes: seq<string>)
    requires AddsRows(before, after, targets, ids, codes)
    ensures forall i :: 0 <= i < |codes| ==> !HasCode(before, codes[i])
  {
  }

  /** A code of the batch can only be taken by a row that was there before the batch. */
  lemma {:induction false} OnlyOldRowsCollide(before: Table, mid: Table, targets: seq<string>,
                                              ids: seq<nat>, codes: seq<string>, i: nat)
    requires i < |codes| && Distinct(codes) && AddsRows(before, mid, targets, ids, codes[..i])
    requires HasCode(mid, codes[i])
    ensures HasCode(before, codes[i])
  {
    var id :| id in mid && mid[id].code == codes[i];
    assert forall k :: 0 <= k < i ==> mid[ids[k]].code == codes[k] != codes[i];
  }

  lemma {:induction false} SpentIdsStayCoherent(s: Store, nextId: nat)
    requires Coherent(s) && s.nextId <= nextId
    ensures Coherent(Store(s.urls, nextId))
  {
  }

  /** The codes of a batch come from the draws: they are those of the shortest prefix that has enough. */
  lemma {:induction false} BatchIsDrawn(before: Table, after: Table, targets: seq<string>, draws: seq<string>)
    requires AddsBatch(before, after, targets, Drawn({}, draws, |targets|))
    ensures exists k: nat :: JustEnough(draws, |targets|, k) && AddsBatch(before, after, targets, SetOf(draws[..k]))
    ensures forall id :: id in after && id !in before ==> after[id].code in draws
  {
    DrawnExactly(draws, |targets|, Drawn({}, draws, |targets|));
    var k: nat :| JustEnough(draws, |targets|, k) && Drawn({}, draws, |targets|) == SetOf(draws[..k]);
    var ids, codes :| AddsRows(before, after, targets, ids, codes)
      && forall code :: code in codes <==> code in Drawn({}, draws, |targets|);
    forall id | id in after && id !in before
      ensures after[id].code in draws
    {
      var i :| 0 <= i < |ids| && ids[i] == id;
      assert codes[i] in codes && codes[i] in draws[..k];
    }
  }

  class UrlService {
    const uow: UnitOfWork

    ghost predicate Valid()
      reads this, uow, uow.db
    {
      uow.Closed()
    }

    constructor (uow: UnitOfWork)
      requires uow.Closed()
      ensures Valid() && this.uow == uow
    {
      this.uow := uow;
    }

    method GetOne(code: string) returns (r: Result<Url, ServiceError>)
      requires Valid()
      modifies uow, uow.db
      ensures Valid() && uow.db.AsStore() == old(uow.db.AsStore())
      ensures r == match Lookup(uow.db.urls, code) case Some(url) => Success(url) case None => Failure(NotFound)
    {
      uow.Enter();
      var url := uow.SelectByCode(code);
      if url.None? {
        uow.Exit(true);
        return Failure(NotFound);
      }
      uow.Exit(false);
      return Success(url.value);
    }

    /** Tries up to five codes, each under its own savepoint. */
    method Create(target: string, draws: seq<string>) returns (r: Result<Url, ServiceError>)
      requires Valid() && |draws| == MAX_CREATE_ATTEMPTS
      modifies uow, uow.db
      ensures Valid()
      ensures var (s, url) := CreateOutcome(old(uow.db.AsStore()), target, draws);
              uow.db.AsStore() == s && r == if url.Some? then Success(url.value) else Failure(ServiceUnavailable)
    {
      hide Coherent, HasCode;
      ghost var start := uow.db.AsStore();
      CreateIsAtomic(start, target, draws);
      uow.Enter();
      for attempt := 0 to MAX_CREATE_ATTEMPTS
        invariant uow.Open() && uow.db.urls == start.urls && uow.session == Some(start.urls)
        invariant start.nextId <= uow.db.nextId
        invariant CreateOutcome(uow.View(), target, draws[attempt..]) == CreateOutcome(start, target, draws)
      {
        assert draws[attempt..][1..] == draws[attempt + 1..];
        var savepoint := uow.session.value;
        var url := uow.Insert(target, draws[attempt]);
        if url.None? {
          SpentIdsStayCoherent(start, uow.db.nextId);
          uow.RollbackTo(savepoint);
        } else {
          uow.Exit(false);
          return Success(url.value);
        }
      }
      uow.Exit(true);
      return Failure(ServiceUnavailable);
    }

    /** One attempt of CreateMany: draws the codes, and inserts the batch under a savepoint. */
    method TryBatch(targets: seq<string>, draws: seq<string>) returns (inserted: bool)
      requires uow.Open() && |Drawn({}, draws, |targets|)| == |targets|
      modifies uow, uow.db`nextId
      ensures uow.Open()
      ensures inserted <==> !AnyTaken(old(uow.session).value, Drawn({}, draws, |targets|))
      ensures !inserted ==> uow.session == old(uow.session)
      ensures inserted ==>
        AddsBatch(old(uow.session).value, uow.session.value, targets, Drawn({}, draws, |targets|))
    {
      hide HasCode, Coherent;
      ghost var before := uow.View();
      var order := DrawCodes(draws, |targets|);
      var savepoint := uow.session.value;
      inserted := uow.InsertMany(targets, order);
      assert AnyTaken(savepoint, Drawn({}, draws, |targets|))
        <==> exists i :: 0 <= i < |order| && HasCode(savepoint, order[i]);
      if !inserted {
        uow.RollbackTo(savepoint);
        SpentIdsStayCoherent(before, uow.db.nextId);
      }
    }

    /**
     * Tries up to three sets of codes, each inserted as one batch under its own savepoint: one new
     * row for each target, under the first set drawn that was free, or no change at all.
     */
    method CreateMany(targets: seq<string>, draws: seq<seq<string>>) returns (r: Result<nat, ServiceError>)
      requires Valid() && |targets| > 0 && |draws| == MAX_CREATE_MANY_ATTEMPTS
      requires forall a :: 0 <= a < |draws| ==> |Drawn({}, draws[a], |targets|)| == |targets|
      modifies uow, uow.db
      ensures Valid()
      ensures r.Success? <==>
        exists a :: 0 <= a < |draws| && !AnyTaken(old(uow.db.urls), Drawn({}, draws[a], |targets|))
      ensures r.Success? ==> r.value == |targets|
      ensures r.Success? ==>
        exists a, k: nat :: 0 <= a < |draws| && JustEnough(draws[a], |targets|, k)
                            && AddsBatch(old(uow.db.urls), uow.db.urls, targets, SetOf(draws[a][..k]))
                            && forall b :: 0 <= b < a ==> AnyTaken(old(uow.db.urls), Drawn({}, draws[b], |targets|))
      ensures r.Success? ==>
        exists a :: 0 <= a < |draws| && forall id :: id in uow.db.urls && id !in old(uow.db.urls) ==>
                      uow.db.urls[id].code in draws[a]
      ensures r.Failure? ==> r.error == ServiceUnavailable && uow.db.urls == old(uow.db.urls)
    {
      hide Coherent, AnyTaken, AddsBatch;
      ghost var before := uow.db.urls;
      uow.Enter();
      for attempt := 0 to MAX_CREATE_MANY_ATTEMPTS
        invariant uow.Open() && uow.db.urls == before && uow.session == Some(before)
        invariant forall a :: 0 <= a < attempt ==> AnyTaken(before, Drawn({}, draws[a], |targets|))
      {
        var inserted := TryBatch(targets, draws[attempt]);
        if inserted {
          BatchIsDrawn(before, uow.session.value, targets, draws[attempt]);
          uow.Exit(false);
          return Success(|targets|);
        }
      }
      uow.Exit(true);
      return Failure(ServiceUnavailable);
    }

    method MarkAsDeleted(code: string, now: int) returns (r: Option<Url>)
      requires Valid()
      modifies uow, uow.db
      ensures Valid() && uow.db.nextId == old(uow.db.nextId)
      ensures (uow.db.urls, r) == MarkedDeleted(old(uow.db.urls), code, now)
    {
      uow.Enter();
      var url := uow.SelectByCode(code);
      if url.None? || url.value.deletedAt.Some? {
        uow.Exit(false);
        return None;
      }
      LookupAfterChange(uow.View(), url.value, Some(now), code);
      var changed := url.value.(deletedAt := Some(now));
      uow.Update(changed);
      uow.Exit(false);
      return Some(changed);
    }

    method MarkAsActive(code: string) returns (r: Option<Url>)
      requires Valid()
      modifies uow, uow.db
      ensures Valid() && uow.db.nextId == old(uow.db.nextId)
      ensures (uow.db.urls, r) == MarkedActive(old(uow.db.urls), code)
    {
      uow.Enter();
      var url := uow.SelectByCode(code);
      if url.None? || url.value.deletedAt.None? {
        uow.Exit(false);
        return None;
      }
      LookupAfterChange(uow.View(), url.value, None, code);
      var changed := url.value.(deletedAt := None);
      uow.Update(changed);
      uow.Exit(false);
      return Some(changed);
    }

    method Delete(code: string) returns (r: Result<nat, ServiceError>)
      requires Valid()
      modifies uow, uow.db
      ensures Valid() && uow.db.nextId == old(uow.db.nextId)
      ensures uow.db.urls == Removed(old(uow.db.urls), code).0
      ensures r == if Lookup(old(uow.db.urls), code).Some? then Success(1) else Failure(NotFound)
    {
      uow.Enter();
      var url := uow.SelectByCode(code);
      if url.None? {
        uow.Exit(true);
        return Failure(NotFound);
      }
      LookupAfterRemove(uow.View(), url.value, code);
      uow.Delete(url.value.id);
      uow.Exit(false);
      return Success(1);
    }
  }

  /** Draws codes until there are `n` different ones, and lists them in an arbitrary order. */
  method DrawCodes(draws: seq<string>, n: nat) returns (order: seq<string>)
    requires |Drawn({}, draws, n)| == n
    ensures |order| == n && Distinct(order)
    ensures forall code :: code in order <==> code in Drawn({}, draws, n)
    ensures exists k: nat :: JustEnough(draws, n, k) && forall code :: code in order <==> code in draws[..k]
  {
    DrawnExactly(draws, n, Drawn({}, draws, n));
    var codes: set<string> := {};
    var i := 0;
    while |codes| < n
      invariant i <= |draws| && |codes| <= n
      invariant Drawn(codes, draws[i..], n) == Drawn({}, draws, n)
      decreases |draws| - i
    {
      assert draws[i..] != [] && draws[i..][1..] == draws[i + 1..];
      codes := codes + {draws[i]};
      i := i + 1;
    }
    order := [];
    var rest := codes;
    while rest != {}
      invariant rest <= codes && |order| + |rest| == n
      invariant forall code :: code in order <==> code in codes && code !in rest
      invariant Distinct(order)
      decreases rest
    {
      var code :| code in rest;
      order, rest := order + [code], rest - {code};
    }
  }
}
