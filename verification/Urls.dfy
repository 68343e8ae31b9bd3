/** The urls table (src/orm/models/url.py) and what the url service does to it. */
module Urls {
  import opened Wrappers

  datatype Url = Url(id: nat, target: string, code: string, deletedAt: Option<int>)

  /** The rows, by primary key. */
  type Table = map<nat, Url>

  /** The table, and the next value of its id sequence (which no rollback takes back). */
  datatype Store = Store(urls: Table, nextId: nat)

  predicate HasCode(t: Table, code: string) {
    exists id :: id in t && t[id].code == code
  }

  /** Rows sit under their id, ids come from the sequence, and no two rows have the same code. */
  ghost predicate Coherent(s: Store) {
    && (forall id :: id in s.urls ==> s.urls[id].id == id < s.nextId)
    && (forall i, j :: i in s.urls && j in s.urls && s.urls[i].code == s.urls[j].code ==> i == j)
  }

  /** The row with the given code, deactivated or not. */
  ghost function Lookup(t: Table, code: string): Option<Url> {
    if HasCode(t, code) then
      var id :| id in t && t[id].code == code;
      Some(t[id])
    else None
  }

  lemma {:induction false} LookupFinds(s: Store, id: nat)
    requires Coherent(s) && id in s.urls
    ensures Lookup(s.urls, s.urls[id].code) == Some(s.urls[id])
  {
  }

  // ---------- Creating one row ----------

  /** One draw of a code for each attempt; a taken code costs an id and an attempt. */
  function CreateOutcome(s: Store, target: string, draws: seq<string>): (Store, Option<Url>)
    decreases |draws|
  {
    if draws == [] then (s, None)
    else if HasCode(s.urls, draws[0]) then CreateOutcome(s.(nextId := s.nextId + 1), target, draws[1..])
    else
      var url := Url(s.nextId, target, draws[0], None);
      (Store(s.urls[s.nextId := url], s.nextId + 1), Some(url))
  }

  /** `code` is the first of the draws that no row has. */
  predicate FirstFree(t: Table, draws: seq<string>, code: string) {
    exists k :: 0 <= k < |draws| && draws[k] == code && !HasCode(t, code)
                && forall i :: 0 <= i < k ==> HasCode(t, draws[i])
  }

  /**
   * Creation adds exactly one row, live, with the target asked for and the first free code, or
   * leaves the rows as they were, when every draw is taken.
   */
  lemma {:induction false} CreateIsAtomic(s: Store, target: string, draws: seq<string>)
    requires Coherent(s)
    ensures var (s', r) := CreateOutcome(s, target, draws);
            && Coherent(s')
            && (r.None? <==> forall i :: 0 <= i < |draws| ==> HasCode(s.urls, draws[i]))
            && (r.None? ==> s'.urls == s.urls)
            && (r.Some? ==>
                 && r.value.id !in s.urls && r.value == Url(r.value.id, target, r.value.code, None)
                 && FirstFree(s.urls, draws, r.value.code)
                 && s'.urls == s.urls[r.value.id := r.value])
    decreases |draws|
  {
    if draws != [] {
      if HasCode(s.urls, draws[0]) {
        CreateIsAtomic(s.(nextId := s.nextId + 1), target, draws[1..]);
        SkipTaken(s.urls, draws);
      } else {
        LookupAfterInsert(s, Url(s.nextId, target, draws[0], None), draws[0]);
        assert FirstFree(s.urls, draws, draws[0]);
      }
    }
  }

  /** A taken first draw changes nothing about which code is the first free one. */
  lemma {:induction false} SkipTaken(t: Table, draws: seq<string>)
    requires draws != [] && HasCode(t, draws[0])
    ensures forall code :: FirstFree(t, draws[1..], code) ==> FirstFree(t, draws, code)
    ensures (forall i :: 0 <= i < |draws[1..]| ==> HasCode(t, draws[1..][i]))
       <==> (forall i :: 0 <= i < |draws| ==> HasCode(t, draws[i]))
  {
    assert forall i :: 0 < i < |draws| ==> draws[i] == draws[1..][i - 1];
    forall code | FirstFree(t, draws[1..], code)
      ensures FirstFree(t, draws, code)
    {
      var k :| 0 <= k < |draws| - 1 && draws[1..][k] == code && forall i :: 0 <= i < k ==> HasCode(t, draws[1..][i]);
      assert draws[k + 1] == code;
    }
  }

  // ---------- Creating many rows ----------

  /** The set of codes that drawing fills until it has `n`. */
  function Drawn(codes: set<string>, draws: seq<string>, n: nat): set<string>
    decreases |draws|
  {
    if |codes| >= n || draws == [] then codes else Drawn(codes + {draws[0]}, draws[1..], n)
  }

  function SetOf(s: seq<string>): set<string> {
    set x | x in s
  }

  lemma {:induction false} SetOfHead(codes: set<string>, draws: seq<string>, k: nat)
    requires 1 <= k <= |draws|
    ensures codes + SetOf(draws[..k]) == (codes + {draws[0]}) + SetOf(draws[1..][..k - 1])
  {
    assert draws[..k] == [draws[0]] + draws[1..][..k - 1];
  }

  /** Drawing takes the draws in order and stops as soon as it has `n` different codes. */
  lemma {:induction false} DrawnFrom(codes: set<string>, draws: seq<string>, n: nat) returns (k: nat)
    ensures k <= |draws| && Drawn(codes, draws, n) == codes + SetOf(draws[..k])
    ensures k == |draws| || |codes + SetOf(draws[..k])| >= n
    ensures forall j :: 0 <= j < k ==> |codes + SetOf(draws[..j])| < n
    decreases |draws|
  {
    assert codes + SetOf(draws[..0]) == codes;
    if |codes| >= n || draws == [] {
      k := 0;
    } else {
      var k' := DrawnFrom(codes + {draws[0]}, draws[1..], n);
      k := k' + 1;
      SetOfHead(codes, draws, k);
      forall j | 0 <= j < k
        ensures |codes + SetOf(draws[..j])| < n
      {
        if j > 0 {
          SetOfHead(codes, draws, j);
        }
      }
    }
  }

  /** The first `k` draws are as many as it takes to have `n` different codes, or all there are. */
  ghost predicate JustEnough(draws: seq<string>, n: nat, k: nat) {
    && k <= |draws|
    && (k == |draws| || |SetOf(draws[..k])| >= n)
    && forall j :: 0 <= j < k ==> |SetOf(draws[..j])| < n
  }

  lemma {:induction false} LeastIsLeast(draws: seq<string>, n: nat, k: nat, k': nat)
    requires JustEnough(draws, n, k) && JustEnough(draws, n, k')
    ensures k <= k'
  {
  }

  /** What drawing returns: the codes of the shortest prefix of the draws with `n` of them. */
  lemma {:induction false} DrawnExactly(draws: seq<string>, n: nat, codes: set<string>)
    ensures codes == Drawn({}, draws, n) <==> exists k: nat :: JustEnough(draws, n, k) && codes == SetOf(draws[..k])
  {
    var k := DrawnFrom({}, draws, n);
    forall j | 0 <= j <= |draws|
      ensures {} + SetOf(draws[..j]) == SetOf(draws[..j])
    {
    }
    assert JustEnough(draws, n, k) && Drawn({}, draws, n) == SetOf(draws[..k]);
    forall k': nat | JustEnough(draws, n, k')
      ensures k' == k
    {
      LeastIsLeast(draws, n, k, k');
      LeastIsLeast(draws, n, k', k);
    }
  }

  ghost predicate AnyTaken(t: Table, codes: set<string>) {
    exists code :: code in codes && HasCode(t, code)
  }

  predicate Distinct<T(==)>(s: seq<T>) {
    forall i, j :: 0 <= i < j < |s| ==> s[i] != s[j]
  }

  /** `after` is `before` with one new row for each target, under new ids and codes. */
  ghost predicate AddsRows(before: Table, after: Table, targets: seq<string>, ids: seq<nat>, codes: seq<string>) {
    && |ids| == |codes| == |targets|
    && Distinct(ids) && Distinct(codes)
    && (forall i :: 0 <= i < |ids| ==> ids[i] !in before)
    && (forall i :: 0 <= i < |codes| ==> !HasCode(before, codes[i]))
    && (forall id :: id in after <==> id in before || id in ids)
    && (forall id :: id in before ==> after[id] == before[id])
    && (forall i :: 0 <= i < |ids| ==> after[ids[i]] == Url(ids[i], targets[i], codes[i], None))
  }

  /** The new rows are under exactly the codes of the set. */
  ghost predicate AddsBatch(before: Table, after: Table, targets: seq<string>, drawn: set<string>) {
    exists ids, codes :: AddsRows(before, after, targets, ids, codes) && forall code :: code in codes <==> code in drawn
  }

  /** Adding one more row to a batch. */
  lemma {:induction false} AddsOneMore(before: Table, mid: Table, targets: seq<string>, ids: seq<nat>,
                                       codes: seq<string>, id: nat, target: string, code: string)
    requires AddsRows(before, mid, targets, ids, codes)
    requires id !in mid && !HasCode(mid, code)
    ensures AddsRows(before, mid[id := Url(id, target, code, None)], targets + [target], ids + [id], codes + [code])
  {
    var after := mid[id := Url(id, target, code, None)];
    forall i | 0 <= i < |codes|
      ensures codes[i] != code
    {
      assert mid[ids[i]].code == codes[i];
    }
    forall i | 0 <= i < |ids|
      ensures ids[i] in mid
    {
      assert ids[i] in ids;
    }
    forall k
      ensures k in after <==> k in before || k in ids + [id]
    {
    }
  }

  // ---------- Changing and removing rows ----------

  ghost function MarkedDeleted(t: Table, code: string, now: int): (Table, Option<Url>) {
    match Lookup(t, code)
    case None => (t, None)
    case Some(url) =>
      if url.deletedAt.Some? then (t, None)
      else var changed := url.(deletedAt := Some(now)); (t[url.id := changed], Some(changed))
  }

  ghost function MarkedActive(t: Table, code: string): (Table, Option<Url>) {
    match Lookup(t, code)
    case None => (t, None)
    case Some(url) =>
      if url.deletedAt.None? then (t, None)
      else var changed := url.(deletedAt := None); (t[url.id := changed], Some(changed))
  }

  ghost function Removed(t: Table, code: string): (Table, Option<Url>) {
    match Lookup(t, code)
    case None => (t, None)
    case Some(url) => (t - {url.id}, Some(url))
  }

  /** After a change of one row, every code looks up as before except that of the row. */
  lemma {:induction false} LookupAfterChange(s: Store, url: Url, deletedAt: Option<int>, code: string)
    requires Coherent(s) && url.id in s.urls && s.urls[url.id] == url
    ensures var s' := s.(urls := s.urls[url.id := url.(deletedAt := deletedAt)]);
            && Coherent(s')
            && Lookup(s'.urls, code)
               == if code == url.code then Some(url.(deletedAt := deletedAt)) else Lookup(s.urls, code)
  {
    var s' := s.(urls := s.urls[url.id := url.(deletedAt := deletedAt)]);
    if HasCode(s.urls, code) {
      var id :| id in s.urls && s.urls[id].code == code;
      assert s'.urls[id].code == code;
      LookupFinds(s, id);
      LookupFinds(s', id);
      if code == url.code {
        assert id == url.id;
      }
    }
  }

  lemma {:induction false} LookupAfterInsert(s: Store, url: Url, code: string)
    requires Coherent(s) && url.id == s.nextId && !HasCode(s.urls, url.code)
    ensures var s' := Store(s.urls[url.id := url], s.nextId + 1);
            && Coherent(s')
            && Lookup(s'.urls, code) == if code == url.code then Some(url) else Lookup(s.urls, code)
  {
    var s' := Store(s.urls[url.id := url], s.nextId + 1);
    assert Coherent(s');
    if code == url.code {
      LookupFinds(s', url.id);
    } else if HasCode(s.urls, code) {
      var id :| id in s.urls && s.urls[id].code == code;
      assert s'.urls[id] == s.urls[id];
      LookupFinds(s, id);
      LookupFinds(s', id);
    }
  }

  lemma {:induction false} LookupAfterRemove(s: Store, url: Url, code: string)
    requires Coherent(s) && url.id in s.urls && s.urls[url.id] == url
    ensures var s' := s.(urls := s.urls - {url.id});
            && Coherent(s')
            && Lookup(s'.urls, code) == if code == url.code then None else Lookup(s.urls, code)
  {
    var s' := s.(urls := s.urls - {url.id});
    if code != url.code && HasCode(s.urls, code) {
      var id :| id in s.urls && s.urls[id].code == code;
      assert id in s'.urls && s'.urls[id] == s.urls[id];
      LookupFinds(s, id);
      LookupFinds(s', id);
    }
  }

  /** Every row with the code that is live, or deactivated, gets the new `deletedAt`; no other row changes. */
  ghost predicate Restamps(before: Table, after: Table, code: string, wasLive: bool, deletedAt: Option<int>) {
    && after.Keys == before.Keys
    && forall id :: id in before ==>
         after[id] == if before[id].code == code && before[id].deletedAt.None? == wasLive
                      then before[id].(deletedAt := deletedAt) else before[id]
  }

  ghost predicate HasRow(t: Table, code: string, live: bool) {
    exists id :: id in t && t[id].code == code && t[id].deletedAt.None? == live
  }

  /** What deactivation does to the rows: the live row with the code gets the time, or nothing changes. */
  lemma {:induction false} DeactivationRows(s: Store, code: string, now: int)
    requires Coherent(s)
    ensures var (t, r) := MarkedDeleted(s.urls, code, now);
            && Restamps(s.urls, t, code, true, Some(now))
            && (r.Some? <==> HasRow(s.urls, code, true))
            && (r.Some? ==> r.value.id in t && t[r.value.id] == r.value && r.value.code == code)
  {
    forall id | id in s.urls && s.urls[id].code == code {
      LookupFinds(s, id);
    }
  }

  /** What activation does: the deactivated row with the code becomes live; a live row stays as it is. */
  lemma {:induction false} ActivationRows(s: Store, code: string)
    requires Coherent(s)
    ensures var (t, r) := MarkedActive(s.urls, code);
            && Restamps(s.urls, t, code, false, None)
            && (r.Some? <==> HasRow(s.urls, code, false))
            && (r.Some? ==> r.value.id in t && t[r.value.id] == r.value && r.value.code == code)
  {
    forall id | id in s.urls && s.urls[id].code == code {
      LookupFinds(s, id);
    }
  }

  /** What removal does: the row with the code is gone, and every other row is as it was. */
  lemma {:induction false} RemovalRows(s: Store, code: string)
    requires Coherent(s)
    ensures var (t, r) := Removed(s.urls, code);
            && (forall id :: id in t <==> id in s.urls && s.urls[id].code != code)
            && (forall id :: id in t ==> t[id] == s.urls[id])
            && (r.Some? <==> HasCode(s.urls, code))
  {
    forall id | id in s.urls && s.urls[id].code == code {
      LookupFinds(s, id);
    }
  }

  /**
   * Deactivating works exactly on a live row, once; activating the row again brings back the table
   * as it was.
   */
  lemma {:induction false} ActivateUndoesDeactivate(s: Store, code: string, at: int, again: int)
    requires Coherent(s)
    ensures var (t, r) := MarkedDeleted(s.urls, code, at);
            && (r.Some? <==> Lookup(s.urls, code).Some? && Lookup(s.urls, code).value.deletedAt.None?)
            && (r.None? ==> t == s.urls)
            && (r.Some? ==>
                 MarkedDeleted(t, code, again) == (t, None) && MarkedActive(t, code) == (s.urls, Lookup(s.urls, code)))
  {
    var found := Lookup(s.urls, code);
    if found.Some? && found.value.deletedAt.None? {
      var url := found.value;
      LookupAfterChange(s, url, Some(at), code);
      var t := MarkedDeleted(s.urls, code, at).0;
      assert url.(deletedAt := Some(at)).(deletedAt := None) == url;
      assert t[url.id := url] == s.urls;
    }
  }
}
