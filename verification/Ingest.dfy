/**
 * The click-ingest protocol (src/worker/consumer.py) as a step machine: one consumer reads the
 * partitions of a topic, batches the well-formed events, inserts each batch in one transaction and
 * commits offsets. Every choice of the environment (what a poll returns, how a flush or a commit
 * ends, when the process dies, when a timed-out insert finishes) is an argument of a step.
 */
module Ingest {
  import opened Batching

  datatype ClickEvent = ClickEvent(urlId: int, userAgent: string, ipAddress: string, occurredAt: int)

  /** What a message decodes to. */
  datatype Message = Good(event: ClickEvent) | Malformed

  /** The messages each partition ever receives; the index in a partition is the offset. */
  type Log = seq<seq<Message>>

  datatype Offset = Offset(partition: nat, index: nat)

  /** A decoded event, with the offset it was read from. */
  datatype Click = Click(at: Offset, event: ClickEvent)

  ghost predicate IsClick(log: Log, c: Click) {
    && c.at.partition < |log|
    && c.at.index < |log[c.at.partition]|
    && log[c.at.partition][c.at.index] == Good(c.event)
  }

  function Flatten(batches: seq<seq<Click>>): seq<Click> {
    if batches == [] then [] else batches[0] + Flatten(batches[1..])
  }

  // ---------- State ----------

  /** Where the poll thread is: at the loop head, after a poll, waiting for an insert, or out of the loop. */
  datatype Phase =
    | Polling
    | Checking
    | Flushing(batch: seq<Click>, draining: bool)
    | Closed

  datatype Worker = Worker(
    phase: Phase,
    position: seq<nat>,           // next offset to poll, by partition
    committed: seq<nat>,          // committed offset, by partition
    batch: Batch<Click>,          // the batcher
    rows: seq<Click>,             // the rows of url_stats, in the order they were inserted
    timedOut: seq<seq<Click>>,    // inserts of this lifetime that timed out and still run
    orphans: seq<seq<Click>>,     // inserts still running when an earlier lifetime ended
    consumed: nat,                // counters of this lifetime
    malformed: nat,
    inserted: nat,
    failed: seq<Click>,           // clicks of this lifetime whose insert failed
    polled: seq<Click>,           // well-formed clicks of this lifetime, as polled
    submitted: seq<seq<Click>>,   // batches of this lifetime, as submitted
    restarts: nat)

  /** How an offset commit ends; a commit that raises may still have been stored. */
  datatype Commit = Acknowledged | Raised(stored: bool) {
    predicate Stores() {
      Acknowledged? || stored
    }
  }

  datatype Outcome = Inserted(commit: Commit) | Failed | TimedOut

  datatype Action =
    | PollNothing                                    // no message, or an error in its place
    | Poll(partition: nat, at: real, commit: Commit) // the commit is that of a malformed message
    | CheckBatch(at: real)
    | Complete(outcome: Outcome)
    | Stop                                           // the stop flag is seen at the loop head
    | FinishLate(i: nat, landed: bool)               // a timed-out insert ends
    | FinishOrphan(i: nat, landed: bool)
    | Restart                                        // the process ends and a new one starts

  function Zeros(n: nat): seq<nat> {
    seq(n, _ => 0)
  }

  function Init(log: Log): Worker {
    Worker(Polling, Zeros(|log|), Zeros(|log|), Empty(), [], [], [], 0, 0, 0, [], [], [], 0)
  }

  predicate Enabled(log: Log, w: Worker, a: Action) {
    match a
    case PollNothing => w.phase.Polling?
    case Poll(p, _, _) =>
      w.phase.Polling? && p < |log| && p < |w.position| && p < |w.committed| && w.position[p] < |log[p]|
    case CheckBatch(_) => w.phase.Checking?
    case Complete(_) => w.phase.Flushing?
    case Stop => w.phase.Polling?
    case FinishLate(i, _) => i < |w.timedOut|
    case FinishOrphan(i, _) => i < |w.orphans|
    case Restart => true
  }

  function Without<T>(s: seq<T>, i: nat): seq<T>
    requires i < |s|
  {
    s[..i] + s[i + 1..]
  }

  /** The batch a flush is waiting for. */
  function InHand(w: Worker): seq<Click> {
    if w.phase.Flushing? then w.phase.batch else []
  }

  function Submit(w: Worker, draining: bool): Worker {
    w.(phase := Flushing(w.batch.items, draining), batch := Empty(), submitted := w.submitted + [w.batch.items])
  }

  function PollStep(log: Log, w: Worker, p: nat, at: real, commit: Commit): Worker
    requires Enabled(log, w, Poll(p, at, commit))
  {
    var index := w.position[p];
    var read := w.(phase := Checking, position := w.position[p := index + 1], consumed := w.consumed + 1);
    match log[p][index]
    case Good(event) =>
      var click := Click(Offset(p, index), event);
      read.(batch := Added(w.batch, click, at), polled := w.polled + [click])
    case Malformed =>
      read.(malformed := w.malformed + 1,
            committed := if commit.Stores() then w.committed[p := index + 1] else w.committed,
            phase := if commit.Acknowledged? then Checking else Closed)
  }

  function CompleteStep(w: Worker, outcome: Outcome): Worker
    requires w.phase.Flushing?
  {
    var next := if w.phase.draining then Closed else Polling;
    var batch := w.phase.batch;
    match outcome
    case Inserted(commit) =>
      w.(phase := if commit.Acknowledged? then next else Closed,
         rows := w.rows + batch,
         inserted := w.inserted + |batch|,
         committed := if commit.Stores() then w.position else w.committed)
    case Failed => w.(phase := next, failed := w.failed + batch)
    case TimedOut => w.(phase := next, timedOut := w.timedOut + [batch])
  }

  function RestartStep(w: Worker): Worker {
    Worker(Polling, w.committed, w.committed, Empty(), w.rows, [],
           w.orphans + w.timedOut + (if w.phase.Flushing? then [w.phase.batch] else []),
           0, 0, 0, [], [], [], w.restarts + 1)
  }

  function Apply(log: Log, l: Limits, w: Worker, a: Action): Worker
    requires Enabled(log, w, a)
  {
    match a
    case PollNothing => w.(phase := Checking)
    case Poll(p, at, commit) => PollStep(log, w, p, at, commit)
    case CheckBatch(at) => if Due(l, w.batch, at) then Submit(w, false) else w.(phase := Polling)
    case Complete(outcome) => CompleteStep(w, outcome)
    case Stop => if w.batch.items != [] then Submit(w, true) else w.(phase := Closed)
    case FinishLate(i, landed) =>
      var batch := w.timedOut[i];
      if landed then
        w.(timedOut := Without(w.timedOut, i), rows := w.rows + batch, inserted := w.inserted + |batch|)
      else
        w.(timedOut := Without(w.timedOut, i), failed := w.failed + batch)
    case FinishOrphan(i, landed) =>
      w.(orphans := Without(w.orphans, i), rows := if landed then w.rows + w.orphans[i] else w.rows)
    case Restart => RestartStep(w)
  }

  /** A sequence of steps that can be taken, one after the other, from `w`. */
  predicate Legal(log: Log, l: Limits, w: Worker, run: seq<Action>)
    decreases |run|
  {
    run == [] || (Enabled(log, w, run[0]) && Legal(log, l, Apply(log, l, w, run[0]), run[1..]))
  }

  function Exec(log: Log, l: Limits, w: Worker, run: seq<Action>): Worker
    requires Legal(log, l, w, run)
    decreases |run|
  {
    if run == [] then w else Exec(log, l, Apply(log, l, w, run[0]), run[1..])
  }

  // ---------- What every step keeps ----------

  /** Has the click been read past, relative to `upTo` (positions or committed offsets)? */
  ghost predicate Below(upTo: seq<nat>, c: Click) {
    c.at.partition < |upTo| && c.at.index < upTo[c.at.partition]
  }

  ghost predicate ReadFrom(log: Log, upTo: seq<nat>, cs: seq<Click>) {
    forall c :: c in cs ==> IsClick(log, c) && Below(upTo, c)
  }

  ghost predicate OffsetsInv(log: Log, w: Worker) {
    && |w.position| == |w.committed| == |log|
    && (forall p :: 0 <= p < |log| ==> w.committed[p] <= w.position[p] <= |log[p]|)
  }

  ghost predicate ClicksInv(log: Log, w: Worker) {
    && ReadFrom(log, w.position, w.batch.items)
    && ReadFrom(log, w.position, InHand(w))
    && ReadFrom(log, w.position, w.failed)
    && ReadFrom(log, w.position, Flatten(w.timedOut))
  }

  lemma {:induction false} Associative(a: seq<Click>, b: seq<Click>, c: seq<Click>)
    ensures a + (b + c) == (a + b) + c
  {
  }

  lemma {:induction false} FlattenFirst(batches: seq<seq<Click>>, first: seq<Click>, rest: seq<seq<Click>>)
    requires batches == [first] + rest
    ensures Flatten(batches) == first + Flatten(rest)
  {
    assert batches[1..] == rest;
  }

  lemma {:induction false} FlattenConcat(a: seq<seq<Click>>, b: seq<seq<Click>>)
    ensures Flatten(a + b) == Flatten(a) + Flatten(b)
  {
    if a == [] {
      assert a + b == b;
    } else {
      hide Flatten;
      var first, rest := a[0], a[1..];
      FlattenConcat(rest, b);
      FlattenFirst(a, first, rest);
      FlattenFirst(a + b, first, rest + b);
      Associative(first, Flatten(rest), Flatten(b));
    }
  }

  lemma {:induction false} FlattenOne(a: seq<seq<Click>>, batch: seq<Click>)
    ensures Flatten(a + [batch]) == Flatten(a) + batch
  {
    FlattenConcat(a, [batch]);
    assert Flatten([batch]) == batch;
  }

  /** Taking one batch out takes out exactly its clicks. */
  lemma {:induction false} FlattenWithout(a: seq<seq<Click>>, i: nat)
    requires i < |a|
    ensures multiset(Flatten(a)) == multiset(Flatten(Without(a, i))) + multiset(a[i])
    ensures |Flatten(a)| == |Flatten(Without(a, i))| + |a[i]|
    ensures forall c :: c in Flatten(a) <==> c in Flatten(Without(a, i)) || c in a[i]
  {
    var before, after := a[..i], a[i + 1..];
    assert a == before + ([a[i]] + after);
    FlattenConcat(before, [a[i]] + after);
    FlattenConcat([a[i]], after);
    FlattenConcat(before, after);
    assert Flatten([a[i]]) == a[i];
  }

  lemma {:induction false} OffsetsStep(log: Log, l: Limits, w: Worker, a: Action)
    requires OffsetsInv(log, w) && Enabled(log, w, a)
    ensures OffsetsInv(log, Apply(log, l, w, a))
    ensures forall p :: 0 <= p < |log| ==> w.committed[p] <= Apply(log, l, w, a).committed[p]
  {
  }

  lemma {:induction false} ClicksComplete(log: Log, w: Worker, outcome: Outcome)
    requires ClicksInv(log, w) && w.phase.Flushing?
    ensures ClicksInv(log, CompleteStep(w, outcome))
  {
    FlattenOne(w.timedOut, w.phase.batch);
  }

  lemma {:induction false} ClicksFinish(log: Log, l: Limits, w: Worker, i: nat, landed: bool)
    requires ClicksInv(log, w) && i < |w.timedOut|
    ensures ClicksInv(log, Apply(log, l, w, FinishLate(i, landed)))
  {
    FlattenWithout(w.timedOut, i);
  }

  lemma {:induction false} ClicksPoll(log: Log, w: Worker, p: nat, at: real, commit: Commit)
    requires OffsetsInv(log, w) && ClicksInv(log, w) && Enabled(log, w, Poll(p, at, commit))
    ensures ClicksInv(log, PollStep(log, w, p, at, commit))
  {
    hide Flatten;
  }

  lemma {:induction false} ClicksRestart(log: Log, w: Worker)
    ensures ClicksInv(log, RestartStep(w))
  {
  }

  lemma {:induction false} ClicksStep(log: Log, l: Limits, w: Worker, a: Action)
    requires OffsetsInv(log, w) && ClicksInv(log, w) && Enabled(log, w, a)
    ensures ClicksInv(log, Apply(log, l, w, a))
  {
    hide Flatten;
    match a
    case Poll(p, at, commit) => ClicksPoll(log, w, p, at, commit);
    case Restart => ClicksRestart(log, w);
    case Complete(outcome) => ClicksComplete(log, w, outcome);
    case FinishLate(i, landed) => ClicksFinish(log, l, w, i, landed);
    case _ =>
  }
}
