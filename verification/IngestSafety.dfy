/** Which clicks the ingest protocol can lose, and when it loses none. */
module IngestSafety {
  import opened Batching
  import opened Ingest
  import opened IngestInvariants

  // ---------- Every lost click has a cause ----------

  ghost function AsSet(cs: seq<Click>): set<Click> {
    set c | c in cs
  }

  /**
   * The clicks a step puts at risk: those of a flush that fails, times out or is cut short by the
   * end of the process, and those a dying process holds in its buffer although a commit has
   * already passed them.
   */
  ghost function Hazard(w: Worker, a: Action): set<Click> {
    match a
    case Complete(Failed) => AsSet(InHand(w))
    case Complete(TimedOut) => AsSet(InHand(w))
    case Restart => AsSet(InHand(w)) + set c | c in w.batch.items && Below(w.committed, c)
    case _ => {}
  }

  ghost function Hazards(log: Log, l: Limits, w: Worker, run: seq<Action>): set<Click>
    requires Legal(log, l, w, run)
    decreases |run|
  {
    if run == [] then {} else Hazard(w, run[0]) + Hazards(log, l, Apply(log, l, w, run[0]), run[1..])
  }

  ghost predicate Accounted(w: Worker, atRisk: set<Click>, c: Click) {
    c in w.rows || c in w.batch.items || c in InHand(w) || c in atRisk
  }

  ghost predicate AllAccounted(log: Log, w: Worker, atRisk: set<Click>) {
    forall c :: IsClick(log, c) && Below(w.position, c) ==> Accounted(w, atRisk, c)
  }

  /** A step reads at most one click, and buffers it. */
  lemma {:induction false} NewlyReadIsBuffered(log: Log, l: Limits, w: Worker, a: Action, c: Click)
    requires OffsetsInv(log, w) && Enabled(log, w, a) && IsClick(log, c)
    requires !Below(w.position, c) && Below(Apply(log, l, w, a).position, c)
    ensures c in Apply(log, l, w, a).batch.items
  {
    assert a.Poll? && c == Click(Offset(a.partition, w.position[a.partition]), c.event);
  }

  lemma {:induction false} AccountedStep(log: Log, l: Limits, w: Worker, a: Action, atRisk: set<Click>)
    requires OffsetsInv(log, w) && AllAccounted(log, w, atRisk) && Enabled(log, w, a)
    requires w.phase.Flushing? ==> w.batch.items == []
    ensures AllAccounted(log, Apply(log, l, w, a), atRisk + Hazard(w, a))
  {
    var w' := Apply(log, l, w, a);
    forall c | IsClick(log, c) && Below(w'.position, c)
      ensures Accounted(w', atRisk + Hazard(w, a), c)
    {
      if Below(w.position, c) {
        assert Accounted(w, atRisk, c);
      } else {
        NewlyReadIsBuffered(log, l, w, a, c);
      }
    }
  }

  lemma {:induction false} AccountedRun(log: Log, l: Limits, w: Worker, run: seq<Action>, atRisk: set<Click>)
    requires Inv(log, l, w) && AllAccounted(log, w, atRisk) && Legal(log, l, w, run)
    ensures AllAccounted(log, Exec(log, l, w, run), atRisk + Hazards(log, l, w, run))
    decreases |run|
  {
    if run == [] {
      assert atRisk + {} == atRisk;
    } else {
      var w' := Apply(log, l, w, run[0]);
      AccountedStep(log, l, w, run[0], atRisk);
      InvStep(log, l, w, run[0]);
      AccountedRun(log, l, w', run[1..], atRisk + Hazard(w, run[0]));
      assert atRisk + (Hazard(w, run[0]) + Hazards(log, l, w', run[1..]))
          == (atRisk + Hazard(w, run[0])) + Hazards(log, l, w', run[1..]);
    }
  }

  /**
   * Loss accounting. In every reachable state, a click that was read past (so in particular one
   * below the committed offset) is inserted, buffered, in the batch in hand, or was put at risk by
   * a step of the run.
   */
  lemma {:induction false} LossAccounting(log: Log, l: Limits, run: seq<Action>, c: Click)
    requires Legal(log, l, Init(log), run) && IsClick(log, c)
    requires var w := Exec(log, l, Init(log), run); Below(w.position, c) || Below(w.committed, c)
    ensures Accounted(Exec(log, l, Init(log), run), Hazards(log, l, Init(log), run), c)
  {
    InvInit(log, l);
    InvRun(log, l, Init(log), run);
    AccountedRun(log, l, Init(log), run, {});
    var h := Hazards(log, l, Init(log), run);
    assert {} + h == h;
  }

  // ---------- Exactly when delivery is at least once ----------

  /** Every well-formed click below a committed offset has been inserted. */
  ghost predicate AtLeastOnce(log: Log, w: Worker) {
    forall c :: IsClick(log, c) && Below(w.committed, c) ==> c in w.rows
  }

  /** Polled in this lifetime, and not inserted by a flush that was seen to succeed. */
  ghost predicate Held(w: Worker, c: Click) {
    c in w.batch.items || c in InHand(w) || c in w.failed || c in Flatten(w.timedOut)
  }

  /** Inserted, or held by this lifetime. */
  ghost predicate InsertedOrHeld(w: Worker, c: Click) {
    c in w.rows || Held(w, c)
  }

  ghost predicate Tracked(log: Log, w: Worker) {
    forall c :: IsClick(log, c) && Below(w.position, c) ==> InsertedOrHeld(w, c)
  }

  /**
   * The guard of the two commits. The commit of a malformed message is safe when this lifetime
   * holds no uninserted click of that partition; the commit after an insert is safe when no flush
   * of this lifetime has failed, or timed out without landing.
   */
  ghost predicate CommitSafe(log: Log, w: Worker, a: Action)
    requires Enabled(log, w, a)
  {
    match a
    case Poll(p, _, commit) =>
      log[p][w.position[p]].Malformed? && commit.Stores() ==>
        forall c :: Held(w, c) && c.at.partition == p ==> c in w.rows
    case Complete(Inserted(commit)) =>
      commit.Stores() ==>
        forall c :: c in w.failed || c in Flatten(w.timedOut) ==> c in w.rows || c in w.phase.batch
    case _ => true
  }

  ghost predicate AlwaysAtLeastOnce(log: Log, l: Limits, w: Worker, run: seq<Action>)
    requires Legal(log, l, w, run)
    decreases |run|
  {
    AtLeastOnce(log, w) && (run == [] || AlwaysAtLeastOnce(log, l, Apply(log, l, w, run[0]), run[1..]))
  }

  ghost predicate AlwaysCommitSafe(log: Log, l: Limits, w: Worker, run: seq<Action>)
    requires Legal(log, l, w, run)
    decreases |run|
  {
    run == [] || (CommitSafe(log, w, run[0]) && AlwaysCommitSafe(log, l, Apply(log, l, w, run[0]), run[1..]))
  }

  lemma {:induction false} CompleteKeepsHeld(w: Worker, outcome: Outcome, c: Click)
    requires w.phase.Flushing? && InsertedOrHeld(w, c)
    ensures InsertedOrHeld(CompleteStep(w, outcome), c)
  {
    FlattenOne(w.timedOut, w.phase.batch);
  }

  lemma {:induction false} FinishKeepsHeld(log: Log, l: Limits, w: Worker, i: nat, landed: bool, c: Click)
    requires i < |w.timedOut| && InsertedOrHeld(w, c)
    ensures InsertedOrHeld(Apply(log, l, w, FinishLate(i, landed)), c)
  {
    FlattenWithout(w.timedOut, i);
  }

  lemma {:induction false} PollKeepsHeld(log: Log, w: Worker, p: nat, at: real, commit: Commit, c: Click)
    requires Enabled(log, w, Poll(p, at, commit)) && InsertedOrHeld(w, c)
    ensures InsertedOrHeld(PollStep(log, w, p, at, commit), c)
  {
  }

  lemma {:induction false} SubmitKeepsHeld(w: Worker, draining: bool, c: Click)
    requires !w.phase.Flushing? && InsertedOrHeld(w, c)
    ensures InsertedOrHeld(Submit(w, draining), c)
  {
  }

  /** Only a restart drops a click that is not inserted. */
  lemma {:induction false} StepKeepsHeld(log: Log, l: Limits, w: Worker, a: Action, c: Click)
    requires Enabled(log, w, a) && !a.Restart? && InsertedOrHeld(w, c)
    ensures InsertedOrHeld(Apply(log, l, w, a), c)
  {
    hide Flatten;
    match a
    case Poll(p, at, commit) => PollKeepsHeld(log, w, p, at, commit, c);
    case Complete(outcome) => CompleteKeepsHeld(w, outcome, c);
    case FinishLate(i, landed) => FinishKeepsHeld(log, l, w, i, landed, c);
    case CheckBatch(_) => SubmitKeepsHeld(w, false, c);
    case Stop => SubmitKeepsHeld(w, true, c);
    case _ =>
  }

  lemma {:induction false} TrackedStep(log: Log, l: Limits, w: Worker, a: Action)
    requires Inv(log, l, w) && AtLeastOnce(log, w) && Tracked(log, w) && Enabled(log, w, a)
    ensures Tracked(log, Apply(log, l, w, a))
  {
    hide Apply, ClicksInv, BatchesInv, Conserved, CopiesInv;
    var w' := Apply(log, l, w, a);
    forall c | IsClick(log, c) && Below(w'.position, c)
      ensures InsertedOrHeld(w', c)
    {
      if !Below(w.position, c) {
        NewlyReadIsBuffered(log, l, w, a, c);
      } else if a.Restart? {
        RestartRewinds(log, l, w);
      } else {
        StepKeepsHeld(log, l, w, a, c);
      }
    }
  }

  lemma {:induction false} RestartRewinds(log: Log, l: Limits, w: Worker)
    ensures var w' := Apply(log, l, w, Restart);
            w'.position == w.committed && w'.rows == w.rows
  {
  }

  /** What a step commits past was below the position, of the partition of a malformed message or of any. */
  lemma {:induction false} NewlyCommitted(log: Log, l: Limits, w: Worker, a: Action, c: Click)
    requires OffsetsInv(log, w) && Enabled(log, w, a) && IsClick(log, c)
    requires !Below(w.committed, c) && Below(Apply(log, l, w, a).committed, c)
    ensures Below(w.position, c)
    ensures || (a.Poll? && log[a.partition][w.position[a.partition]].Malformed? && a.commit.Stores()
                && c.at.partition == a.partition)
            || (a.Complete? && a.outcome.Inserted? && a.outcome.commit.Stores())
  {
  }

  lemma {:induction false} StepKeepsRows(log: Log, l: Limits, w: Worker, a: Action, c: Click)
    requires Enabled(log, w, a) && c in w.rows
    ensures c in Apply(log, l, w, a).rows
  {
  }

  lemma {:induction false} SafeCommitKeeps(log: Log, l: Limits, w: Worker, a: Action)
    requires Inv(log, l, w) && AtLeastOnce(log, w) && Tracked(log, w) && Enabled(log, w, a)
    requires CommitSafe(log, w, a)
    ensures AtLeastOnce(log, Apply(log, l, w, a))
  {
    hide Apply, ClicksInv, Conserved, CopiesInv, Flatten;
    var w' := Apply(log, l, w, a);
    forall c | IsClick(log, c) && Below(w'.committed, c)
      ensures c in w'.rows
    {
      if Below(w.committed, c) {
        StepKeepsRows(log, l, w, a, c);
      } else {
        NewlyCommitted(log, l, w, a, c);
        assert InsertedOrHeld(w, c);
        if c in w.rows {
          StepKeepsRows(log, l, w, a, c);
        } else {
          InsertedBatch(log, l, w, a, c);
        }
      }
    }
  }

  lemma {:induction false} InsertedBatch(log: Log, l: Limits, w: Worker, a: Action, c: Click)
    requires Enabled(log, w, a) && a.Complete? && a.outcome.Inserted? && c in w.phase.batch
    ensures c in Apply(log, l, w, a).rows
  {
  }

  lemma {:induction false} UnsafeCommitLoses(log: Log, l: Limits, w: Worker, a: Action)
    requires Inv(log, l, w) && Enabled(log, w, a)
    requires !CommitSafe(log, w, a)
    ensures !AtLeastOnce(log, Apply(log, l, w, a))
  {
    var w' := Apply(log, l, w, a);
    match a
    case Poll(p, _, _) =>
      var c :| Held(w, c) && c.at.partition == p && c !in w.rows;
      assert IsClick(log, c) && Below(w.position, c) && Below(w'.committed, c);
    case Complete(_) =>
      var c :| (c in w.failed || c in Flatten(w.timedOut)) && c !in w.rows && c !in w.phase.batch;
      assert IsClick(log, c) && Below(w.position, c) && Below(w'.committed, c);
  }

  lemma {:induction false} AtLeastOnceFrom(log: Log, l: Limits, w: Worker, run: seq<Action>)
    requires Inv(log, l, w) && AtLeastOnce(log, w) && Tracked(log, w) && Legal(log, l, w, run)
    ensures AlwaysAtLeastOnce(log, l, w, run) <==> AlwaysCommitSafe(log, l, w, run)
    decreases |run|
  {
    if run != [] {
      var a, w' := run[0], Apply(log, l, w, run[0]);
      if CommitSafe(log, w, a) {
        SafeCommitKeeps(log, l, w, a);
        TrackedStep(log, l, w, a);
        InvStep(log, l, w, a);
        AtLeastOnceFrom(log, l, w', run[1..]);
      } else {
        UnsafeCommitLoses(log, l, w, a);
      }
    }
  }

  /**
   * A run keeps "below the committed offset means inserted" in every state, crashes included, if
   * and only if each of its commits is made under its guard.
   */
  lemma {:induction false} AtLeastOnceExactly(log: Log, l: Limits, run: seq<Action>)
    requires Legal(log, l, Init(log), run)
    ensures AlwaysAtLeastOnce(log, l, Init(log), run) <==> AlwaysCommitSafe(log, l, Init(log), run)
  {
    InvInit(log, l);
    AtLeastOnceFrom(log, l, Init(log), run);
  }

  /**
   * Enough for that: within a lifetime nothing is committed once a flush has failed or is still
   * running after its timeout, and no malformed message is polled from a partition that has a
   * buffered click.
   */
  ghost predicate Cautious(log: Log, w: Worker, a: Action)
    requires Enabled(log, w, a)
  {
    var malformed := a.Poll? && log[a.partition][w.position[a.partition]].Malformed?;
    && (malformed || (a.Complete? && a.outcome.Inserted?) ==> w.failed == [] && w.timedOut == [])
    && (malformed ==> forall c :: c in w.batch.items ==> c.at.partition != a.partition)
  }

  ghost predicate AlwaysCautious(log: Log, l: Limits, w: Worker, run: seq<Action>)
    requires Legal(log, l, w, run)
    decreases |run|
  {
    run == [] || (Cautious(log, w, run[0]) && AlwaysCautious(log, l, Apply(log, l, w, run[0]), run[1..]))
  }

  lemma {:induction false} CautiousIsSafe(log: Log, l: Limits, w: Worker, run: seq<Action>)
    requires Legal(log, l, w, run) && AlwaysCautious(log, l, w, run)
    ensures AlwaysCommitSafe(log, l, w, run)
    decreases |run|
  {
    if run != [] {
      CautiousIsSafe(log, l, Apply(log, l, w, run[0]), run[1..]);
    }
  }

  lemma {:induction false} AtLeastOnceWhenCautious(log: Log, l: Limits, run: seq<Action>)
    requires Legal(log, l, Init(log), run) && AlwaysCautious(log, l, Init(log), run)
    ensures AlwaysAtLeastOnce(log, l, Init(log), run)
  {
    CautiousIsSafe(log, l, Init(log), run);
    AtLeastOnceExactly(log, l, run);
  }

  // ---------- Runs that lose a click ----------

  const EVENT := ClickEvent(1, "ua", "ip", 0)

  const FIRST := Click(Offset(0, 0), EVENT)

  lemma {:induction false} Unfold(log: Log, l: Limits, w: Worker, a: Action, run: seq<Action>)
    requires Enabled(log, w, a) && Legal(log, l, Apply(log, l, w, a), run)
    ensures Legal(log, l, w, [a] + run)
    ensures Exec(log, l, w, [a] + run) == Exec(log, l, Apply(log, l, w, a), run)
  {
    assert ([a] + run)[1..] == run;
  }

  /**
   * A failed flush is not read again: the next successful flush commits past it, with no
   * malformed message anywhere.
   */
  lemma {:induction false} FailedFlushIsCommittedPast()
    ensures var log, l := [[Good(EVENT), Good(EVENT)]], Limits(1, 1.0);
            var poll, check := Poll(0, 0.0, Acknowledged), CheckBatch(0.0);
            var run := [poll] + ([check] + ([Complete(Failed)] +
                       ([poll] + ([check] + ([Complete(Inserted(Acknowledged))] + [])))));
            && Legal(log, l, Init(log), run)
            && var w := Exec(log, l, Init(log), run);
               && Below(w.committed, FIRST) && FIRST !in w.rows
               && w.batch.items == [] && w.phase == Polling && w.timedOut == []
  {
    var log, l := [[Good(EVENT), Good(EVENT)]], Limits(1, 1.0);
    var poll, check, done := Poll(0, 0.0, Acknowledged), CheckBatch(0.0), Complete(Inserted(Acknowledged));
    var w0 := Init(log);
    var w1 := Apply(log, l, w0, poll);
    var w2 := Apply(log, l, w1, check);
    var w3 := Apply(log, l, w2, Complete(Failed));
    var w4 := Apply(log, l, w3, poll);
    var w5 := Apply(log, l, w4, check);
    Unfold(log, l, w5, done, []);
    Unfold(log, l, w4, check, [done] + []);
    Unfold(log, l, w3, poll, [check] + ([done] + []));
    Unfold(log, l, w2, Complete(Failed), [poll] + ([check] + ([done] + [])));
    Unfold(log, l, w1, check, [Complete(Failed)] + ([poll] + ([check] + ([done] + []))));
    Unfold(log, l, w0, poll, [check] + ([Complete(Failed)] + ([poll] + ([check] + ([done] + [])))));
  }

  /**
   * The commit of a malformed message passes the clicks buffered before it: a crash then loses
   * them, with no failed flush anywhere.
   */
  lemma {:induction false} MalformedCommitPassesTheBuffer()
    ensures var log, l := [[Good(EVENT), Malformed]], Limits(2, 1.0);
            var poll, check := Poll(0, 0.0, Acknowledged), CheckBatch(0.0);
            var run := [poll] + ([check] + ([poll] + ([Restart] + [])));
            && Legal(log, l, Init(log), run)
            && var w := Exec(log, l, Init(log), run);
               Below(w.committed, FIRST) && FIRST !in w.rows && !Held(w, FIRST)
  {
    var log, l := [[Good(EVENT), Malformed]], Limits(2, 1.0);
    var poll, check := Poll(0, 0.0, Acknowledged), CheckBatch(0.0);
    var w0 := Init(log);
    var w1 := Apply(log, l, w0, poll);
    var w2 := Apply(log, l, w1, check);
    var w3 := Apply(log, l, w2, poll);
    Unfold(log, l, w3, Restart, []);
    Unfold(log, l, w2, poll, [Restart] + []);
    Unfold(log, l, w1, check, [poll] + ([Restart] + []));
    Unfold(log, l, w0, poll, [check] + ([poll] + ([Restart] + [])));
  }

  // ---------- Exactly once ----------

  /** A step of a run with no failure: flushes and commits succeed, and restarts follow a clean stop. */
  predicate Clean(log: Log, w: Worker, a: Action)
    requires Enabled(log, w, a)
  {
    match a
    case Poll(p, _, commit) => log[p][w.position[p]].Malformed? ==> commit.Acknowledged?
    case Complete(outcome) => outcome == Inserted(Acknowledged)
    case Restart => w.phase.Closed?
    case _ => true
  }

  predicate AllClean(log: Log, l: Limits, w: Worker, run: seq<Action>)
    requires Legal(log, l, w, run)
    decreases |run|
  {
    run == [] || (Clean(log, w, run[0]) && AllClean(log, l, Apply(log, l, w, run[0]), run[1..]))
  }

  ghost function Tally(w: Worker, c: Click): nat {
    multiset(w.rows)[c] + multiset(w.batch.items)[c] + multiset(InHand(w))[c]
  }

  ghost predicate OnceInv(log: Log, w: Worker) {
    && w.failed == [] && w.timedOut == [] && w.orphans == []
    && (forall c :: Tally(w, c) == if IsClick(log, c) && Below(w.position, c) then 1 else 0)
    && (w.batch.items == [] && !w.phase.Flushing? ==> w.committed == w.position)
    && (w.phase.Closed? ==> w.batch.items == [])
  }

  lemma {:induction false} TallyPoll(log: Log, w: Worker, p: nat, at: real, commit: Commit, c: Click)
    requires OffsetsInv(log, w) && Enabled(log, w, Poll(p, at, commit))
    requires Tally(w, c) == if IsClick(log, c) && Below(w.position, c) then 1 else 0
    ensures var w' := PollStep(log, w, p, at, commit);
            Tally(w', c) == if IsClick(log, c) && Below(w'.position, c) then 1 else 0
  {
    var index := w.position[p];
    if log[p][index].Good? {
      var click := Click(Offset(p, index), log[p][index].event);
      assert PollStep(log, w, p, at, commit).batch.items == w.batch.items + [click];
      assert IsClick(log, c) && c.at == click.at ==> c == click;
    }
  }

  lemma {:induction false} TallyComplete(w: Worker, c: Click)
    requires w.phase.Flushing?
    ensures Tally(CompleteStep(w, Inserted(Acknowledged)), c) == Tally(w, c)
  {
  }

  lemma {:induction false} TallySubmit(w: Worker, draining: bool, c: Click)
    requires !w.phase.Flushing?
    ensures Tally(Submit(w, draining), c) == Tally(w, c)
  {
  }

  lemma {:induction false} TallyStep(log: Log, l: Limits, w: Worker, a: Action, c: Click)
    requires OffsetsInv(log, w) && OnceInv(log, w) && Enabled(log, w, a) && Clean(log, w, a)
    requires w.phase.Flushing? ==> w.batch.items == []
    ensures var w' := Apply(log, l, w, a);
            Tally(w', c) == if IsClick(log, c) && Below(w'.position, c) then 1 else 0
  {
    assert Tally(w, c) == if IsClick(log, c) && Below(w.position, c) then 1 else 0;
    match a
    case Poll(p, at, commit) => TallyPoll(log, w, p, at, commit, c);
    case Complete(_) => TallyComplete(w, c);
    case CheckBatch(_) => TallySubmit(w, false, c);
    case Stop => TallySubmit(w, true, c);
    case _ =>
  }

  lemma {:induction false} OnceStep(log: Log, l: Limits, w: Worker, a: Action)
    requires OffsetsInv(log, w) && OnceInv(log, w) && Enabled(log, w, a) && Clean(log, w, a)
    requires w.phase.Flushing? ==> w.batch.items == []
    ensures OnceInv(log, Apply(log, l, w, a))
  {
    var w' := Apply(log, l, w, a);
    forall c
      ensures Tally(w', c) == if IsClick(log, c) && Below(w'.position, c) then 1 else 0
    {
      TallyStep(log, l, w, a, c);
    }
  }

  lemma {:induction false} OnceRun(log: Log, l: Limits, w: Worker, run: seq<Action>)
    requires Inv(log, l, w) && OnceInv(log, w) && Legal(log, l, w, run) && AllClean(log, l, w, run)
    ensures OnceInv(log, Exec(log, l, w, run))
    decreases |run|
  {
    if run != [] {
      OnceStep(log, l, w, run[0]);
      InvStep(log, l, w, run[0]);
      OnceRun(log, l, Apply(log, l, w, run[0]), run[1..]);
    }
  }

  /**
   * Over any number of lifetimes that end by stopping and draining, with no failed flush or
   * commit, the rows are exactly the well-formed clicks below the position, each once, and the
   * committed offsets are the positions, malformed messages included.
   */
  lemma {:induction false} ExactlyOnce(log: Log, l: Limits, run: seq<Action>)
    requires Legal(log, l, Init(log), run) && AllClean(log, l, Init(log), run)
    ensures var w := Exec(log, l, Init(log), run);
            && (forall c :: multiset(w.rows)[c] <= if IsClick(log, c) && Below(w.position, c) then 1 else 0)
            && (w.phase.Closed? ==>
                 && w.committed == w.position
                 && (forall c :: multiset(w.rows)[c] == if IsClick(log, c) && Below(w.position, c) then 1 else 0))
  {
    InvInit(log, l);
    OnceRun(log, l, Init(log), run);
    var w := Exec(log, l, Init(log), run);
    forall c
      ensures multiset(w.rows)[c] <= Tally(w, c)
      ensures w.phase.Closed? ==> multiset(w.rows)[c] == Tally(w, c)
    {
    }
  }
}
