/** What holds in every state of every run of the ingest protocol. */
module IngestInvariants {
  import opened Batching
  import opened Ingest

  function SizeLimit(l: Limits): nat {
    if l.maxSize >= 1 then l.maxSize else 1
  }

  /** Batches keep the polling order, are never empty and never too large. */
  ghost predicate BatchesInv(l: Limits, w: Worker) {
    && Flatten(w.submitted) + w.batch.items == w.polled
    && (forall i :: 0 <= i < |w.submitted| ==> 1 <= |w.submitted[i]| <= SizeLimit(l))
    && |w.batch.items| <= SizeLimit(l)
    && (!w.phase.Checking? ==> |w.batch.items| < SizeLimit(l))
    && (w.phase.Flushing? ==>
         w.batch.items == [] && w.submitted != [] && w.submitted[|w.submitted| - 1] == w.phase.batch)
  }

  lemma {:induction false} BatchesPoll(log: Log, l: Limits, w: Worker, p: nat, at: real, commit: Commit)
    requires BatchesInv(l, w) && Enabled(log, w, Poll(p, at, commit))
    ensures BatchesInv(l, PollStep(log, w, p, at, commit))
  {
    if log[p][w.position[p]].Good? {
      var click := Click(Offset(p, w.position[p]), log[p][w.position[p]].event);
      assert Flatten(w.submitted) + (w.batch.items + [click]) == (Flatten(w.submitted) + w.batch.items) + [click];
    }
  }

  lemma {:induction false} BatchesSubmit(l: Limits, w: Worker, draining: bool)
    requires BatchesInv(l, w) && w.batch.items != [] && !w.phase.Flushing?
    ensures BatchesInv(l, Submit(w, draining))
  {
    FlattenOne(w.submitted, w.batch.items);
    assert w.polled + [] == w.polled;
  }

  lemma {:induction false} BatchesStep(log: Log, l: Limits, w: Worker, a: Action)
    requires BatchesInv(l, w) && Enabled(log, w, a)
    ensures BatchesInv(l, Apply(log, l, w, a))
  {
    match a
    case Poll(p, at, commit) => BatchesPoll(log, l, w, p, at, commit);
    case CheckBatch(at) =>
      if Due(l, w.batch, at) {
        BatchesSubmit(l, w, false);
      }
    case Stop =>
      if w.batch.items != [] {
        BatchesSubmit(l, w, true);
      }
    case Restart =>
    case _ => BatchesRest(log, l, w, a);
  }

  lemma {:induction false} BatchesRest(log: Log, l: Limits, w: Worker, a: Action)
    requires BatchesInv(l, w) && Enabled(log, w, a)
    requires a.PollNothing? || a.Complete? || a.FinishLate? || a.FinishOrphan?
    ensures BatchesInv(l, Apply(log, l, w, a))
  {
    hide Flatten;
  }

  /** Every consumed message of this lifetime is somewhere. */
  ghost predicate Conserved(w: Worker) {
    w.consumed == w.malformed + w.inserted + |w.batch.items| + |w.failed| + |InHand(w)| + |Flatten(w.timedOut)|
  }

  lemma {:induction false} ConservedStep(log: Log, l: Limits, w: Worker, a: Action)
    requires Conserved(w) && Enabled(log, w, a)
    requires w.phase.Flushing? ==> w.batch.items == []
    ensures Conserved(Apply(log, l, w, a))
  {
    match a
    case Complete(TimedOut) => FlattenOne(w.timedOut, w.phase.batch);
    case FinishLate(i, _) => FlattenWithout(w.timedOut, i);
    case _ =>
  }

  /** Everywhere a click is, or can still come from. */
  ghost function Copies(w: Worker, c: Click): nat {
    multiset(w.rows)[c] + multiset(w.batch.items)[c] + multiset(InHand(w))[c]
    + multiset(Flatten(w.timedOut))[c] + multiset(Flatten(w.orphans))[c] + (if Below(w.position, c) then 0 else 1)
  }

  ghost predicate CopiesInv(w: Worker) {
    && (forall c :: Copies(w, c) <= 1 + w.restarts)
    && (forall c :: multiset(w.polled)[c] <= if Below(w.position, c) then 1 else 0)
  }

  lemma {:induction false} CopiesPoll(log: Log, w: Worker, p: nat, at: real, commit: Commit, c: Click)
    requires OffsetsInv(log, w) && Enabled(log, w, Poll(p, at, commit))
    ensures Copies(PollStep(log, w, p, at, commit), c) <= Copies(w, c)
  {
    var w' := PollStep(log, w, p, at, commit);
    assert Below(w.position, c) ==> Below(w'.position, c);
    if log[p][w.position[p]].Good? {
      var click := Click(Offset(p, w.position[p]), log[p][w.position[p]].event);
      assert w'.batch.items == w.batch.items + [click];
      assert !Below(w.position, click) && Below(w'.position, click);
    }
  }

  lemma {:induction false} CopiesComplete(w: Worker, outcome: Outcome, c: Click)
    requires w.phase.Flushing?
    ensures Copies(CompleteStep(w, outcome), c) <= Copies(w, c)
  {
    FlattenOne(w.timedOut, w.phase.batch);
  }

  lemma {:induction false} StillRunning(w: Worker)
    ensures multiset(Flatten(RestartStep(w).orphans))
         == multiset(Flatten(w.orphans)) + multiset(Flatten(w.timedOut)) + multiset(InHand(w))
  {
    var hand := if w.phase.Flushing? then [w.phase.batch] else [];
    assert Flatten(hand) == InHand(w);
    FlattenConcat(w.orphans + w.timedOut, hand);
    FlattenConcat(w.orphans, w.timedOut);
  }

  lemma {:induction false} CopiesRestart(w: Worker, c: Click)
    ensures Copies(RestartStep(w), c) <= Copies(w, c) + 1
  {
    StillRunning(w);
    assert Flatten(RestartStep(w).timedOut) == [];
  }

  lemma {:induction false} CopiesFinishLate(log: Log, l: Limits, w: Worker, i: nat, landed: bool, c: Click)
    requires i < |w.timedOut|
    ensures Copies(Apply(log, l, w, FinishLate(i, landed)), c) <= Copies(w, c)
  {
    hide Flatten, Without;
    FlattenWithout(w.timedOut, i);
  }

  lemma {:induction false} CopiesFinishOrphan(log: Log, l: Limits, w: Worker, i: nat, landed: bool, c: Click)
    requires i < |w.orphans|
    ensures Copies(Apply(log, l, w, FinishOrphan(i, landed)), c) <= Copies(w, c)
  {
    hide Flatten, Without;
    FlattenWithout(w.orphans, i);
  }

  lemma {:induction false} CopiesSubmit(w: Worker, draining: bool, c: Click)
    requires !w.phase.Flushing?
    ensures Copies(Submit(w, draining), c) == Copies(w, c)
  {
  }

  /** No step but a restart makes more copies of a click, and a restart makes at most one more. */
  lemma {:induction false} CopiesOfOne(log: Log, l: Limits, w: Worker, a: Action, c: Click)
    requires OffsetsInv(log, w) && Enabled(log, w, a)
    requires w.phase.Flushing? ==> w.batch.items == []
    ensures Copies(Apply(log, l, w, a), c) <= Copies(w, c) + if a.Restart? then 1 else 0
  {
    match a
    case Poll(p, at, commit) => CopiesPoll(log, w, p, at, commit, c);
    case Complete(outcome) => CopiesComplete(w, outcome, c);
    case FinishLate(i, landed) => CopiesFinishLate(log, l, w, i, landed, c);
    case FinishOrphan(i, landed) => CopiesFinishOrphan(log, l, w, i, landed, c);
    case Restart => CopiesRestart(w, c);
    case CheckBatch(_) => CopiesSubmit(w, false, c);
    case Stop => CopiesSubmit(w, true, c);
    case PollNothing =>
  }

  lemma {:induction false} PolledOnce(log: Log, l: Limits, w: Worker, a: Action, c: Click)
    requires OffsetsInv(log, w) && Enabled(log, w, a)
    requires multiset(w.polled)[c] <= if Below(w.position, c) then 1 else 0
    ensures var w' := Apply(log, l, w, a);
            multiset(w'.polled)[c] <= if Below(w'.position, c) then 1 else 0
  {
    if a.Poll? && log[a.partition][w.position[a.partition]].Good? {
      var p := a.partition;
      var click := Click(Offset(p, w.position[p]), log[p][w.position[p]].event);
      assert Apply(log, l, w, a).polled == w.polled + [click];
    }
  }

  lemma {:induction false} CopiesStep(log: Log, l: Limits, w: Worker, a: Action)
    requires OffsetsInv(log, w) && CopiesInv(w) && Enabled(log, w, a)
    requires w.phase.Flushing? ==> w.batch.items == []
    ensures CopiesInv(Apply(log, l, w, a))
  {
    var w' := Apply(log, l, w, a);
    forall c
      ensures Copies(w', c) <= 1 + w'.restarts
    {
      assert Copies(w, c) <= 1 + w.restarts;
      CopiesOfOne(log, l, w, a, c);
    }
    forall c
      ensures multiset(w'.polled)[c] <= if Below(w'.position, c) then 1 else 0
    {
      PolledOnce(log, l, w, a, c);
    }
  }

  ghost predicate Inv(log: Log, l: Limits, w: Worker) {
    OffsetsInv(log, w) && ClicksInv(log, w) && BatchesInv(l, w) && Conserved(w) && CopiesInv(w)
  }

  lemma {:induction false} InvStep(log: Log, l: Limits, w: Worker, a: Action)
    requires Inv(log, l, w) && Enabled(log, w, a)
    ensures Inv(log, l, Apply(log, l, w, a))
  {
    OffsetsStep(log, l, w, a);
    ClicksStep(log, l, w, a);
    BatchesStep(log, l, w, a);
    ConservedStep(log, l, w, a);
    CopiesStep(log, l, w, a);
  }

  lemma {:induction false} InvInit(log: Log, l: Limits)
    ensures Inv(log, l, Init(log))
  {
  }

  lemma {:induction false} InvRun(log: Log, l: Limits, w: Worker, run: seq<Action>)
    requires Inv(log, l, w) && Legal(log, l, w, run)
    ensures Inv(log, l, Exec(log, l, w, run))
    decreases |run|
  {
    if run != [] {
      InvStep(log, l, w, run[0]);
      InvRun(log, l, Apply(log, l, w, run[0]), run[1..]);
    }
  }

  // ---------- Theorems about every run ----------

  /** Consumed messages are malformed, inserted, buffered, failed or still being inserted. */
  lemma {:induction false} ClickConservation(log: Log, l: Limits, run: seq<Action>)
    requires Legal(log, l, Init(log), run)
    ensures var w := Exec(log, l, Init(log), run);
            w.consumed == w.malformed + w.inserted + |w.batch.items| + |w.failed| + |InHand(w)| + |Flatten(w.timedOut)|
  {
    InvInit(log, l);
    InvRun(log, l, Init(log), run);
  }

  /**
   * The batches submitted so far, and then the buffer, are the well-formed clicks in the order in
   * which they were polled; batches have between one and maxSize clicks, and the buffer is smaller
   * than a full batch whenever the loop is at its head.
   */
  lemma {:induction false} OrderAndSize(log: Log, l: Limits, run: seq<Action>)
    requires Legal(log, l, Init(log), run)
    ensures var w := Exec(log, l, Init(log), run);
            && Flatten(w.submitted) + w.batch.items == w.polled
            && (forall b :: b in w.submitted ==> 1 <= |b| <= SizeLimit(l))
            && (w.phase.Polling? ==> |w.batch.items| < SizeLimit(l))
  {
    InvInit(log, l);
    InvRun(log, l, Init(log), run);
  }

  /**
   * A click enters at most one batch of a lifetime, and is inserted at most once more than there
   * were restarts.
   */
  lemma {:induction false} BoundedDuplication(log: Log, l: Limits, run: seq<Action>, c: Click)
    requires Legal(log, l, Init(log), run)
    ensures var w := Exec(log, l, Init(log), run);
            multiset(w.rows)[c] <= 1 + w.restarts && multiset(Flatten(w.submitted))[c] <= 1
  {
    InvInit(log, l);
    InvRun(log, l, Init(log), run);
    var w := Exec(log, l, Init(log), run);
    assert Copies(w, c) <= 1 + w.restarts;
    assert multiset(w.polled) == multiset(Flatten(w.submitted)) + multiset(w.batch.items);
  }

  /** What is in the table, or may still land there from an earlier lifetime, was read from the log. */
  ghost predicate RowsInv(log: Log, w: Worker) {
    && (forall c :: c in w.rows ==> IsClick(log, c))
    && (forall c :: c in Flatten(w.orphans) ==> IsClick(log, c))
  }

  lemma {:induction false} RowsStep(log: Log, l: Limits, w: Worker, a: Action)
    requires ClicksInv(log, w) && RowsInv(log, w) && Enabled(log, w, a)
    ensures RowsInv(log, Apply(log, l, w, a))
  {
    match a
    case Restart => RowsRestart(log, w);
    case FinishLate(i, _) => RowsFinish(log, w.timedOut, i);
    case FinishOrphan(i, _) => RowsFinish(log, w.orphans, i);
    case _ =>
  }

  lemma {:induction false} RowsRestart(log: Log, w: Worker)
    requires ClicksInv(log, w) && RowsInv(log, w)
    ensures RowsInv(log, RestartStep(w))
  {
    hide Flatten;
    StillRunning(w);
    forall c | c in Flatten(RestartStep(w).orphans)
      ensures IsClick(log, c)
    {
      assert multiset(Flatten(RestartStep(w).orphans))[c] > 0;
    }
  }

  lemma {:induction false} RowsFinish(log: Log, running: seq<seq<Click>>, i: nat)
    requires i < |running| && forall c :: c in Flatten(running) ==> IsClick(log, c)
    ensures forall c :: c in running[i] ==> IsClick(log, c)
    ensures forall c :: c in Flatten(Without(running, i)) ==> IsClick(log, c)
  {
    FlattenWithout(running, i);
  }

  lemma {:induction false} RowsRun(log: Log, l: Limits, w: Worker, run: seq<Action>)
    requires Inv(log, l, w) && RowsInv(log, w) && Legal(log, l, w, run)
    ensures RowsInv(log, Exec(log, l, w, run))
    decreases |run|
  {
    hide Apply;
    if run != [] {
      RowsStep(log, l, w, run[0]);
      InvStep(log, l, w, run[0]);
      RowsRun(log, l, Apply(log, l, w, run[0]), run[1..]);
    }
  }

  /** Nothing is made up: every row is a well-formed click of the log. */
  lemma {:induction false} RowsComeFromTheLog(log: Log, l: Limits, run: seq<Action>, c: Click)
    requires Legal(log, l, Init(log), run) && c in Exec(log, l, Init(log), run).rows
    ensures IsClick(log, c)
  {
    InvInit(log, l);
    RowsRun(log, l, Init(log), run);
  }

  /** Committed offsets never decrease, and never pass the position or the end of the log. */
  lemma {:induction false} CommitsMoveForward(log: Log, l: Limits, w: Worker, run: seq<Action>, p: nat)
    requires OffsetsInv(log, w) && Legal(log, l, w, run) && p < |log|
    ensures var w' := Exec(log, l, w, run);
            OffsetsInv(log, w') && w.committed[p] <= w'.committed[p] <= w'.position[p] <= |log[p]|
    decreases |run|
  {
    if run != [] {
      OffsetsStep(log, l, w, run[0]);
      CommitsMoveForward(log, l, Apply(log, l, w, run[0]), run[1..], p);
    }
  }
}
