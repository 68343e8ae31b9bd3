/** How long a click waits in the worker's batcher: the loop drives it as Batching describes. */
module IngestLinger {
  import opened Batching
  import opened Ingest

  /** The steps between the start of a lifetime and its end. */
  predicate InLoop(a: Action) {
    !a.Stop? && !a.Restart?
  }

  /** What a step does to the batcher. */
  function BatcherOp(log: Log, w: Worker, a: Action): seq<Op<Click>>
    requires Enabled(log, w, a)
  {
    match a
    case Poll(p, at, _) =>
      (match log[p][w.position[p]]
       case Good(event) => [Add(Click(Offset(p, w.position[p]), event), at)]
       case Malformed => [])
    case CheckBatch(at) => [Check(at)]
    case _ => []
  }

  function BatcherOps(log: Log, l: Limits, w: Worker, run: seq<Action>): seq<Op<Click>>
    requires Legal(log, l, w, run)
    decreases |run|
  {
    if run == [] then [] else BatcherOp(log, w, run[0]) + BatcherOps(log, l, Apply(log, l, w, run[0]), run[1..])
  }

  function Unstamped(b: Batch<Stamped<Click>>): Batch<Click> {
    Batch(StampedItems(b.items), b.firstAddedAt)
  }

  /** The clicks of each batch. */
  function ItemsOf(batches: seq<seq<Drained<Click>>>): seq<seq<Click>> {
    seq(|batches|, i requires 0 <= i < |batches| => DrainedItems(batches[i]))
  }

  /** A step submits the batches that its operation drains. */
  lemma {:induction false} OneStepBatches(log: Log, l: Limits, w: Worker, a: Action, b: Batch<Stamped<Click>>)
    requires Enabled(log, w, a) && InLoop(a) && Unstamped(b) == w.batch
    ensures Apply(log, l, w, a).submitted == w.submitted + ItemsOf(Batches(l, b, BatcherOp(log, w, a)))
  {
    var ops := BatcherOp(log, w, a);
    if ops != [] {
      assert ops[1..] == [];
      assert Batches(l, b, ops) == if DrainedBy(l, b, ops[0]) == [] then [] else [DrainedBy(l, b, ops[0])];
    }
    if a.CheckBatch? {
      assert DrainedItems(DrainedNow(b.items, a.at)) == StampedItems(b.items);
    }
  }

  lemma {:induction false} OneStep(log: Log, l: Limits, w: Worker, a: Action, b: Batch<Stamped<Click>>)
    requires Enabled(log, w, a) && InLoop(a) && Unstamped(b) == w.batch
    ensures var ops := BatcherOp(log, w, a);
            && Unstamped(FinalBatch(l, b, ops)) == Apply(log, l, w, a).batch
            && Flatten(Apply(log, l, w, a).submitted) == Flatten(w.submitted) + DrainedItems(AllDrained(l, b, ops))
  {
    var ops := BatcherOp(log, w, a);
    assert Flatten(w.submitted) + [] == Flatten(w.submitted);
    if ops != [] {
      assert ops[1..] == [];
      assert FinalBatch(l, b, ops) == After(l, b, ops[0]);
      assert AllDrained(l, b, ops) == DrainedBy(l, b, ops[0]);
    }
    match a
    case Poll(p, at, _) =>
      if log[p][w.position[p]].Good? {
        assert StampedItems(b.items + [Stamped(ops[0].item, at)]) == StampedItems(b.items) + [ops[0].item];
      }
    case CheckBatch(at) =>
      FlattenOne(w.submitted, w.batch.items);
      assert DrainedItems(DrainedNow(b.items, at)) == StampedItems(b.items);
    case _ =>
  }

  lemma {:induction false} OpsConcat(l: Limits, b: Batch<Stamped<Click>>, c: Clock,
                                     first: seq<Op<Click>>, rest: seq<Op<Click>>)
    ensures var mid, clock := FinalBatch(l, b, first), FinalClock(l, b, c, first);
            && FinalBatch(l, b, first + rest) == FinalBatch(l, mid, rest)
            && FinalClock(l, b, c, first + rest) == FinalClock(l, mid, clock, rest)
            && AllDrained(l, b, first + rest) == AllDrained(l, b, first) + AllDrained(l, mid, rest)
            && Batches(l, b, first + rest) == Batches(l, b, first) + Batches(l, mid, rest)
    decreases |first|
  {
    hide After, DrainedBy, Tick;
    if first == [] {
      assert first + rest == rest;
    } else {
      assert (first + rest)[0] == first[0] && (first + rest)[1..] == first[1..] + rest;
      OpsConcat(l, After(l, b, first[0]), Tick(b, c, first[0]), first[1..], rest);
    }
  }

  /** Outside the half of an iteration between poll and check, what is buffered was checked last. */
  predicate CheckedLast(w: Worker, b: Batch<Stamped<Click>>, c: Clock) {
    w.phase.Checking? || b.items == [] || c.unchecked == c.now
  }

  lemma {:induction false} CheckedLastStep(log: Log, l: Limits, w: Worker, a: Action,
                                           b: Batch<Stamped<Click>>, c: Clock)
    requires Enabled(log, w, a) && InLoop(a) && CheckedLast(w, b, c)
    ensures var ops := BatcherOp(log, w, a);
            CheckedLast(Apply(log, l, w, a), FinalBatch(l, b, ops), FinalClock(l, b, c, ops))
  {
    var ops := BatcherOp(log, w, a);
    if ops != [] {
      assert ops[1..] == [];
      assert FinalClock(l, b, c, ops) == Tick(b, c, ops[0]);
    }
  }

  lemma {:induction false} LoopDrivesBatcher(log: Log, l: Limits, w: Worker, run: seq<Action>,
                                             b: Batch<Stamped<Click>>, c: Clock)
    requires Legal(log, l, w, run) && Unstamped(b) == w.batch && CheckedLast(w, b, c)
    requires forall i :: 0 <= i < |run| ==> InLoop(run[i])
    ensures var ops, w' := BatcherOps(log, l, w, run), Exec(log, l, w, run);
            && Unstamped(FinalBatch(l, b, ops)) == w'.batch
            && CheckedLast(w', FinalBatch(l, b, ops), FinalClock(l, b, c, ops))
            && Flatten(w'.submitted) == Flatten(w.submitted) + DrainedItems(AllDrained(l, b, ops))
            && w'.submitted == w.submitted + ItemsOf(Batches(l, b, ops))
    decreases |run|
  {
    hide Apply, BatcherOp, AllDrained, FinalBatch, FinalClock, Batches, CheckedLast, DrainedItems, Flatten;
    if run == [] {
      NothingDrained(l, b, c);
      assert Flatten(w.submitted) + [] == Flatten(w.submitted);
      assert w.submitted + [] == w.submitted;
    } else {
      var w', first := Apply(log, l, w, run[0]), BatcherOp(log, w, run[0]);
      var rest := BatcherOps(log, l, w', run[1..]);
      OneStep(log, l, w, run[0], b);
      OneStepBatches(log, l, w, run[0], b);
      CheckedLastStep(log, l, w, run[0], b, c);
      var b' := FinalBatch(l, b, first);
      LoopDrivesBatcher(log, l, w', run[1..], b', FinalClock(l, b, c, first));
      OpsConcat(l, b, c, first, rest);
      DrainedConcat(AllDrained(l, b, first), AllDrained(l, b', rest));
      ItemsConcat(w.submitted, Batches(l, b, first), Batches(l, b', rest));
      Chain(Flatten(w.submitted), DrainedItems(AllDrained(l, b, first)), Flatten(w'.submitted),
            DrainedItems(AllDrained(l, b', rest)), Flatten(Exec(log, l, w', run[1..]).submitted));
    }
  }

  lemma {:induction false} Chain(before: seq<Click>, first: seq<Click>, mid: seq<Click>,
                                 rest: seq<Click>, after: seq<Click>)
    requires mid == before + first && after == mid + rest
    ensures after == before + (first + rest)
  {
  }

  lemma {:induction false} NothingDrained(l: Limits, b: Batch<Stamped<Click>>, c: Clock)
    ensures FinalBatch(l, b, []) == b && FinalClock(l, b, c, []) == c
    ensures Batches(l, b, []) == [] && DrainedItems(AllDrained(l, b, [])) == []
  {
  }

  lemma {:induction false} ItemsConcat(before: seq<seq<Click>>,
                                       a: seq<seq<Drained<Click>>>, b: seq<seq<Drained<Click>>>)
    ensures (before + ItemsOf(a)) + ItemsOf(b) == before + ItemsOf(a + b)
  {
  }

  lemma {:induction false} DrainedConcat(a: seq<Drained<Click>>, b: seq<Drained<Click>>)
    ensures DrainedItems(a + b) == DrainedItems(a) + DrainedItems(b)
  {
  }

  /** What Stop drains is what the batcher holds. */
  lemma {:induction false} StopDrains(log: Log, l: Limits, w: Worker)
    requires w.phase.Polling?
    ensures Flatten(Apply(log, l, w, Stop).submitted) == Flatten(w.submitted) + w.batch.items
  {
    FlattenOne(w.submitted, w.batch.items);
    assert Flatten(w.submitted) + [] == Flatten(w.submitted);
  }

  /**
   * Linger deadline of the worker. In the loop of any lifetime, from its empty buffer on, with
   * checks at most `gap` apart while a click is buffered: the clicks submitted are those the batcher
   * drained, each within the gap or in less than linger + gap, whatever flushes and late inserts do
   * meanwhile; and those that a stop then drains had been there for less than linger at the last
   * check (or were added at its very time). Nor is a flush early: each batch that the loop submits
   * is full, or its oldest click has lingered.
   */
  lemma {:induction false} WorkerLinger(log: Log, l: Limits, w: Worker, run: seq<Action>, start: real, gap: real)
    requires Legal(log, l, w, run) && w.batch == Empty()
    requires forall i :: 0 <= i < |run| ==> InLoop(run[i])
    requires Prompt(l, Empty(), Clock(start, start), BatcherOps(log, l, w, run), gap)
    ensures var ops, w' := BatcherOps(log, l, w, run), Exec(log, l, w, run);
            var drained, left := AllDrained(l, Empty(), ops), FinalBatch(l, Empty(), ops).items;
            var lastCheck := FinalClock(l, Empty(), Clock(start, start), ops).now;
            && Flatten(w'.submitted) == Flatten(w.submitted) + DrainedItems(drained)
            && (forall d :: d in drained ==> InTime(l, gap, d))
            && w'.submitted == w.submitted + ItemsOf(Batches(l, Empty(), ops))
            && (forall batch :: batch in Batches(l, Empty(), ops) ==> FullOrLingered(l, batch))
            && (w'.phase.Polling? ==>
                 && Flatten(Apply(log, l, w', Stop).submitted) == Flatten(w'.submitted) + StampedItems(left)
                 && forall d :: d in DrainedNow(left, lastCheck) ==> InTime(l, 0.0, d))
  {
    var ops, w' := BatcherOps(log, l, w, run), Exec(log, l, w, run);
    LoopDrivesBatcher(log, l, w, run, Empty(), Clock(start, start));
    LingerDeadlineFrom(l, Empty(), Clock(start, start), ops, gap);
    NoEarlyFlush(l, Empty(), ops);
    if w'.phase.Polling? {
      StopDrains(log, l, w');
    }
  }
}
