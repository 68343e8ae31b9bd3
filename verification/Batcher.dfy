/** Size and linger batching (src/worker/batcher.py). */
module Batching {
  import opened Wrappers

  /** What a batcher holds: the buffered items, oldest first, and when its timer was started. */
  datatype Batch<+T> = Batch(items: seq<T>, firstAddedAt: Option<real>)

  /** When a batch must be flushed. A size below one flushes every non-empty batch. */
  datatype Limits = Limits(maxSize: int, maxLinger: real)

  function Empty<T>(): Batch<T> {
    Batch([], None)
  }

  function Added<T>(b: Batch<T>, item: T, now: real): Batch<T> {
    Batch(b.items + [item], if b.items == [] then Some(now) else b.firstAddedAt)
  }

  predicate Due<T>(l: Limits, b: Batch<T>, now: real) {
    && b.items != []
    && (|b.items| >= l.maxSize || (b.firstAddedAt.Some? && now - b.firstAddedAt.value >= l.maxLinger))
  }

  /** The batcher object: a growing buffer whose timer runs from its first item. */
  class Batcher<T> {
    const limits: Limits
    var buffer: seq<T>
    var firstAddedAt: Option<real>

    ghost predicate Valid()
      reads this
    {
      buffer != [] <==> firstAddedAt.Some?
    }

    ghost function View(): Batch<T>
      reads this
    {
      Batch(buffer, firstAddedAt)
    }

    constructor (limits: Limits)
      ensures Valid() && View() == Empty() && this.limits == limits
    {
      this.limits := limits;
      buffer, firstAddedAt := [], None;
    }

    method Add(item: T, now: real)
      requires Valid()
      modifies this
      ensures Valid() && View() == Added(old(View()), item, now)
    {
      if buffer == [] {
        firstAddedAt := Some(now);
      }
      buffer := buffer + [item];
    }

    method ShouldFlush(now: real) returns (due: bool)
      requires Valid()
      ensures due <==> Due(limits, View(), now)
    {
      if buffer == [] {
        return false;
      }
      if |buffer| >= limits.maxSize {
        return true;
      }
      return now - firstAddedAt.value >= limits.maxLinger;
    }

    method Drain() returns (items: seq<T>)
      requires Valid()
      modifies this
      ensures Valid() && items == old(View()).items && View() == Empty()
    {
      items := buffer;
      buffer, firstAddedAt := [], None;
    }
  }

  // ---------- How long an item can wait ----------

  /** What the poll loop does to a batcher: add an item, or check it and drain it when it is due. */
  datatype Op<T> = Add(item: T, at: real) | Check(at: real)

  datatype Stamped<T> = Stamped(item: T, addedAt: real)

  datatype Drained<T> = Drained(item: T, addedAt: real, drainedAt: real)

  function After<T>(l: Limits, b: Batch<Stamped<T>>, op: Op<T>): Batch<Stamped<T>> {
    match op
    case Add(item, at) => Added(b, Stamped(item, at), at)
    case Check(at) => if Due(l, b, at) then Empty() else b
  }

  function DrainedNow<T>(items: seq<Stamped<T>>, at: real): (r: seq<Drained<T>>)
    ensures |r| == |items|
    ensures forall i :: 0 <= i < |r| ==> r[i] == Drained(items[i].item, items[i].addedAt, at)
  {
    seq(|items|, i requires 0 <= i < |items| => Drained(items[i].item, items[i].addedAt, at))
  }

  function DrainedBy<T>(l: Limits, b: Batch<Stamped<T>>, op: Op<T>): seq<Drained<T>> {
    if op.Check? && Due(l, b, op.at) then DrainedNow(b.items, op.at) else []
  }

  function FinalBatch<T>(l: Limits, b: Batch<Stamped<T>>, ops: seq<Op<T>>): Batch<Stamped<T>>
    decreases |ops|
  {
    if ops == [] then b else FinalBatch(l, After(l, b, ops[0]), ops[1..])
  }

  function AllDrained<T>(l: Limits, b: Batch<Stamped<T>>, ops: seq<Op<T>>): seq<Drained<T>>
    decreases |ops|
  {
    if ops == [] then [] else DrainedBy(l, b, ops[0]) + AllDrained(l, After(l, b, ops[0]), ops[1..])
  }

  /** The time of the last operation, and since when the buffer has gone unchecked. */
  datatype Clock = Clock(now: real, unchecked: real)

  function Tick<T>(b: Batch<Stamped<T>>, c: Clock, op: Op<T>): Clock {
    Clock(op.at, if op.Add? && b.items != [] then c.unchecked else op.at)
  }

  function FinalClock<T>(l: Limits, b: Batch<Stamped<T>>, c: Clock, ops: seq<Op<T>>): Clock
    decreases |ops|
  {
    if ops == [] then c else FinalClock(l, After(l, b, ops[0]), Tick(b, c, ops[0]), ops[1..])
  }

  /** Time does not run backwards, and a non-empty buffer is checked at least once every `gap`. */
  ghost predicate Prompt<T>(l: Limits, b: Batch<Stamped<T>>, c: Clock, ops: seq<Op<T>>, gap: real)
    decreases |ops|
  {
    ops == [] ||
    (&& c.now <= ops[0].at
     && (ops[0].Check? && b.items != [] ==> ops[0].at <= c.unchecked + gap)
     && Prompt(l, After(l, b, ops[0]), Tick(b, c, ops[0]), ops[1..], gap))
  }

  /** The timer belongs to the oldest buffered item, which was young enough at the last check. */
  ghost predicate TimerInv<T>(l: Limits, b: Batch<Stamped<T>>, c: Clock) {
    b.items != [] ==>
      && b.firstAddedAt == Some(b.items[0].addedAt)
      && (forall i :: 0 <= i < |b.items| ==> b.items[0].addedAt <= b.items[i].addedAt <= c.now)
      && b.items[0].addedAt <= c.unchecked <= c.now
      && (c.unchecked == b.items[0].addedAt || c.unchecked - b.items[0].addedAt < l.maxLinger)
  }

  ghost predicate InTime<T>(l: Limits, gap: real, d: Drained<T>) {
    d.drainedAt - d.addedAt <= gap || d.drainedAt - d.addedAt < l.maxLinger + gap
  }

  lemma {:induction false} LingerDeadlineFrom<T>(l: Limits, b: Batch<Stamped<T>>, c: Clock, ops: seq<Op<T>>, gap: real)
    requires TimerInv(l, b, c) && Prompt(l, b, c, ops, gap)
    ensures forall d :: d in AllDrained(l, b, ops) ==> InTime(l, gap, d)
    ensures TimerInv(l, FinalBatch(l, b, ops), FinalClock(l, b, c, ops))
    decreases |ops|
  {
    if ops != [] {
      LingerDeadlineFrom(l, After(l, b, ops[0]), Tick(b, c, ops[0]), ops[1..], gap);
    }
  }

  /**
   * However adds and checks interleave, with checks at most `gap` apart while the buffer is
   * non-empty, no item waits for longer than the gap or for linger + gap, whichever is larger;
   * and the timer always belongs to the oldest buffered item.
   */
  lemma {:induction false} LingerDeadline<T>(l: Limits, start: real, ops: seq<Op<T>>, gap: real)
    requires Prompt(l, Empty(), Clock(start, start), ops, gap)
    ensures forall d :: d in AllDrained(l, Empty(), ops) ==> InTime(l, gap, d)
    ensures l.maxLinger > 0.0 ==>
      forall d :: d in AllDrained(l, Empty(), ops) ==> d.drainedAt - d.addedAt < l.maxLinger + gap
    ensures var last := FinalBatch(l, Empty(), ops);
            last.items != [] ==> last.firstAddedAt == Some(last.items[0].addedAt)
  {
    LingerDeadlineFrom(l, Empty(), Clock(start, start), ops, gap);
    assert l.maxLinger > 0.0 ==> forall d :: d in AllDrained(l, Empty(), ops) && InTime(l, gap, d) ==>
      d.drainedAt - d.addedAt < l.maxLinger + gap;
  }

  /** The batches as they were drained, one for each check that found the buffer due. */
  function Batches<T>(l: Limits, b: Batch<Stamped<T>>, ops: seq<Op<T>>): seq<seq<Drained<T>>>
    decreases |ops|
  {
    if ops == [] then []
    else
      var now := DrainedBy(l, b, ops[0]);
      (if now == [] then [] else [now]) + Batches(l, After(l, b, ops[0]), ops[1..])
  }

  /** Full, or its oldest item had waited for the whole linger when it was drained. */
  predicate FullOrLingered<T>(l: Limits, batch: seq<Drained<T>>) {
    && batch != []
    && (|batch| >= l.maxSize || batch[0].drainedAt - batch[0].addedAt >= l.maxLinger)
  }

  /** No flush comes early: every batch drained is full or its oldest item has lingered. */
  lemma {:induction false} NoEarlyFlush<T>(l: Limits, b: Batch<Stamped<T>>, ops: seq<Op<T>>)
    requires b.items != [] ==> b.firstAddedAt == Some(b.items[0].addedAt)
    ensures forall batch :: batch in Batches(l, b, ops) ==> FullOrLingered(l, batch)
    decreases |ops|
  {
    if ops != [] {
      NoEarlyFlush(l, After(l, b, ops[0]), ops[1..]);
    }
  }

  function Joined<T>(batches: seq<seq<Drained<T>>>): seq<Drained<T>> {
    if batches == [] then [] else batches[0] + Joined(batches[1..])
  }

  /** The batches together are all that was drained, in order. */
  lemma {:induction false} BatchesAreAllDrained<T>(l: Limits, b: Batch<Stamped<T>>, ops: seq<Op<T>>)
    ensures Joined(Batches(l, b, ops)) == AllDrained(l, b, ops)
    decreases |ops|
  {
    if ops != [] {
      var now, later := DrainedBy(l, b, ops[0]), Batches(l, After(l, b, ops[0]), ops[1..]);
      BatchesAreAllDrained(l, After(l, b, ops[0]), ops[1..]);
      if now == [] {
        assert [] + later == later;
        assert now + Joined(later) == Joined(later);
      } else {
        assert ([now] + later)[1..] == later;
      }
    }
  }

  function AddedItems<T>(ops: seq<Op<T>>): seq<T> {
    if ops == [] then [] else (if ops[0].Add? then [ops[0].item] else []) + AddedItems(ops[1..])
  }

  function DrainedItems<T>(ds: seq<Drained<T>>): seq<T> {
    seq(|ds|, i requires 0 <= i < |ds| => ds[i].item)
  }

  function StampedItems<T>(xs: seq<Stamped<T>>): seq<T> {
    seq(|xs|, i requires 0 <= i < |xs| => xs[i].item)
  }

  lemma {:induction false} DrainsOneInOrder<T>(l: Limits, b: Batch<Stamped<T>>, op: Op<T>)
    ensures DrainedItems(DrainedBy(l, b, op)) + StampedItems(After(l, b, op).items)
         == StampedItems(b.items) + AddedItems([op])
  {
    assert AddedItems([op]) == if op.Add? then [op.item] else [];
  }

  lemma {:induction false} Regroup<T>(now: seq<T>, later: seq<T>, left: seq<T>, next: seq<T>, toAdd: seq<T>,
                                      first: seq<T>, added: seq<T>)
    requires later + left == next + toAdd
    requires now + next == first + added
    ensures (now + later) + left == first + (added + toAdd)
  {
    assert (now + later) + left == now + (later + left);
    assert now + (next + toAdd) == (now + next) + toAdd;
  }

  /** Nothing is lost, repeated or reordered: what was drained and what is left are what was added. */
  lemma {:induction false} DrainsInOrder<T>(l: Limits, b: Batch<Stamped<T>>, ops: seq<Op<T>>)
    ensures DrainedItems(AllDrained(l, b, ops)) + StampedItems(FinalBatch(l, b, ops).items)
         == StampedItems(b.items) + AddedItems(ops)
    decreases |ops|
  {
    hide After, DrainedBy;
    if ops != [] {
      var b1 := After(l, b, ops[0]);
      DrainsInOrder(l, b1, ops[1..]);
      DrainsOneInOrder(l, b, ops[0]);
      var now, later := DrainedBy(l, b, ops[0]), AllDrained(l, b1, ops[1..]);
      Regroup(DrainedItems(now), DrainedItems(later), StampedItems(FinalBatch(l, b, ops).items),
              StampedItems(b1.items), AddedItems(ops[1..]), StampedItems(b.items), AddedItems([ops[0]]));
      assert DrainedItems(now + later) == DrainedItems(now) + DrainedItems(later);
      assert AddedItems(ops) == AddedItems([ops[0]]) + AddedItems(ops[1..]);
    }
  }
}
