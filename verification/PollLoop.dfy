/**
 * The poll loop (src/worker/consumer.py:103-193) as a function of what its environment does, and
 * the proof that everything it does is a run of the protocol of Ingest.
 */
module PollLoop {
  import opened Wrappers
  import opened Batching
  import opened Ingest
  import opened IngestInvariants
  import opened IngestSafety

  /** The end of an insert that was left running, by this process or (an orphan) by an earlier one. */
  datatype Late = Late(orphan: bool, i: nat, landed: bool)

  /**
   * What the environment does during one iteration: the partition the poll reads from (None: no
   * message, or an error), how the commit of a malformed message ends, the clock readings, how a
   * flush ends, and which late inserts end before the poll, before the check and during the flush.
   */
  datatype Turn = Turn(before: seq<Late>, source: Option<nat>, commit: Commit, addedAt: real,
                       between: seq<Late>, checkedAt: real, during: seq<Late>, outcome: Outcome)

  /** The stop flag is seen: late inserts before and during the drain, and how its flush ends. */
  datatype Ending = Ending(before: seq<Late>, during: seq<Late>, outcome: Outcome)

  /** A lifetime of the process: its iterations, and its end if no exception comes first. */
  datatype Lifetime = Lifetime(script: seq<Turn>, ending: Ending)

  function LateAction(e: Late): Action {
    if e.orphan then FinishOrphan(e.i, e.landed) else FinishLate(e.i, e.landed)
  }

  /** The worker after late inserts have ended; one that is not running has no effect. */
  function LateSteps(log: Log, l: Limits, w: Worker, es: seq<Late>): (w': Worker)
    ensures w'.phase == w.phase && w'.batch == w.batch && w'.submitted == w.submitted
    ensures w'.position == w.position && w'.committed == w.committed && w'.polled == w.polled
    ensures w'.consumed == w.consumed && w'.malformed == w.malformed && w'.restarts == w.restarts
    decreases |es|
  {
    if es == [] then w
    else if Enabled(log, w, LateAction(es[0])) then LateSteps(log, l, Apply(log, l, w, LateAction(es[0])), es[1..])
    else LateSteps(log, l, w, es[1..])
  }

  function LateActions(log: Log, l: Limits, w: Worker, es: seq<Late>): seq<Action>
    decreases |es|
  {
    if es == [] then []
    else if Enabled(log, w, LateAction(es[0])) then
      [LateAction(es[0])] + LateActions(log, l, Apply(log, l, w, LateAction(es[0])), es[1..])
    else LateActions(log, l, w, es[1..])
  }

  function PollAction(log: Log, w: Worker, turn: Turn): (a: Action)
    requires w.phase.Polling?
    ensures Enabled(log, w, a)
  {
    if turn.source.Some? && Enabled(log, w, Poll(turn.source.value, turn.addedAt, turn.commit))
    then Poll(turn.source.value, turn.addedAt, turn.commit)
    else PollNothing
  }

  /** A flush, from the drain of the batcher on. */
  function FlushStep(log: Log, l: Limits, w: Worker, draining: bool, during: seq<Late>, outcome: Outcome): Worker {
    CompleteStep(LateSteps(log, l, Submit(w, draining), during), outcome)
  }

  function FlushActions(log: Log, l: Limits, w: Worker, draining: bool,
                        during: seq<Late>, outcome: Outcome): seq<Action>
  {
    LateActions(log, l, Submit(w, draining), during) + [Complete(outcome)]
  }

  /** The half of an iteration that polls. */
  function PollHalf(log: Log, l: Limits, w: Worker, turn: Turn): Worker
    requires w.phase.Polling?
  {
    var start := LateSteps(log, l, w, turn.before);
    Apply(log, l, start, PollAction(log, start, turn))
  }

  function PollHalfActions(log: Log, l: Limits, w: Worker, turn: Turn): seq<Action>
    requires w.phase.Polling?
  {
    LateActions(log, l, w, turn.before) + [PollAction(log, LateSteps(log, l, w, turn.before), turn)]
  }

  /** The half that checks, and flushes if a flush is due. */
  function CheckHalf(log: Log, l: Limits, w: Worker, turn: Turn): Worker {
    var start := LateSteps(log, l, w, turn.between);
    if Due(l, start.batch, turn.checkedAt) then FlushStep(log, l, start, false, turn.during, turn.outcome)
    else start.(phase := Polling)
  }

  function CheckHalfActions(log: Log, l: Limits, w: Worker, turn: Turn): seq<Action> {
    var start := LateSteps(log, l, w, turn.between);
    LateActions(log, l, w, turn.between) + ([CheckBatch(turn.checkedAt)] +
    if Due(l, start.batch, turn.checkedAt) then FlushActions(log, l, start, false, turn.during, turn.outcome) else [])
  }

  /** The worker after one iteration; an exception in the first half ends the loop. */
  function TurnStep(log: Log, l: Limits, w: Worker, turn: Turn): Worker
    requires w.phase.Polling?
  {
    var polled := PollHalf(log, l, w, turn);
    if polled.phase.Closed? then polled else CheckHalf(log, l, polled, turn)
  }

  function TurnActions(log: Log, l: Limits, w: Worker, turn: Turn): seq<Action>
    requires w.phase.Polling?
  {
    var polled := PollHalf(log, l, w, turn);
    PollHalfActions(log, l, w, turn) + if polled.phase.Closed? then [] else CheckHalfActions(log, l, polled, turn)
  }

  function StopStep(log: Log, l: Limits, w: Worker, ending: Ending): Worker {
    var start := LateSteps(log, l, w, ending.before);
    if start.batch.items != [] then FlushStep(log, l, start, true, ending.during, ending.outcome)
    else start.(phase := Closed)
  }

  function StopActions(log: Log, l: Limits, w: Worker, ending: Ending): seq<Action> {
    var start := LateSteps(log, l, w, ending.before);
    LateActions(log, l, w, ending.before) + ([Stop] +
    if start.batch.items != [] then FlushActions(log, l, start, true, ending.during, ending.outcome) else [])
  }

  /** The worker when the loop is left: after the stop flag, or with an exception that cuts the script. */
  function LoopResult(log: Log, l: Limits, w: Worker, script: seq<Turn>, ending: Ending): Worker
    requires w.phase.Polling?
    decreases |script|
  {
    if script == [] then StopStep(log, l, w, ending)
    else
      var next := TurnStep(log, l, w, script[0]);
      if next.phase.Polling? then LoopResult(log, l, next, script[1..], ending) else next
  }

  function LoopActions(log: Log, l: Limits, w: Worker, script: seq<Turn>, ending: Ending): seq<Action>
    requires w.phase.Polling?
    decreases |script|
  {
    if script == [] then StopActions(log, l, w, ending)
    else
      var next := TurnStep(log, l, w, script[0]);
      TurnActions(log, l, w, script[0]) +
      if next.phase.Polling? then LoopActions(log, l, next, script[1..], ending) else []
  }

  /** The worker after further lifetimes, each started where the one before it was left. */
  function LaterLives(log: Log, l: Limits, w: Worker, lives: seq<Lifetime>): Worker
    decreases |lives|
  {
    if lives == [] then w
    else LaterLives(log, l, LoopResult(log, l, RestartStep(w), lives[0].script, lives[0].ending), lives[1..])
  }

  function LaterActions(log: Log, l: Limits, w: Worker, lives: seq<Lifetime>): seq<Action>
    decreases |lives|
  {
    if lives == [] then []
    else
      var life, start := lives[0], RestartStep(w);
      [Restart] + (LoopActions(log, l, start, life.script, life.ending) +
                   LaterActions(log, l, LoopResult(log, l, start, life.script, life.ending), lives[1..]))
  }

  // ---------- What the environment offers is taken ----------

  /** The partition of the turn has a message at the worker's position. */
  predicate Offers(log: Log, w: Worker, turn: Turn) {
    && turn.source.Some? && turn.source.value < |log| == |w.position| == |w.committed|
    && w.position[turn.source.value] < |log[turn.source.value]|
  }

  lemma {:induction false} CheckReadsNothing(log: Log, l: Limits, w: Worker, turn: Turn)
    ensures var w' := CheckHalf(log, l, w, turn);
            && w'.position == w.position && w'.polled == w.polled
            && w'.consumed == w.consumed && w'.malformed == w.malformed
  {
    hide Due;
  }

  /**
   * An iteration reads the message that its poll is offered, and nothing else: the position moves
   * past it, it is counted, and a well-formed one is taken up while a malformed one is not.
   */
  lemma {:induction false} TurnReads(log: Log, l: Limits, w: Worker, turn: Turn)
    requires w.phase.Polling? && |w.position| == |w.committed| == |log|
    ensures var w' := TurnStep(log, l, w, turn);
            if !Offers(log, w, turn) then
              && w'.position == w.position && w'.polled == w.polled
              && w'.consumed == w.consumed && w'.malformed == w.malformed
            else
              var p := turn.source.value;
              var message := log[p][w.position[p]];
              && w'.position == w.position[p := w.position[p] + 1]
              && w'.consumed == w.consumed + 1
              && w'.malformed == w.malformed + (if message.Malformed? then 1 else 0)
              && w'.polled == w.polled + if message.Good? then [Click(Offset(p, w.position[p]), message.event)] else []
  {
    hide CheckHalf;
    CheckReadsNothing(log, l, PollHalf(log, l, w, turn), turn);
  }

  /** An iteration ends the loop exactly when one of its two commits is made and raises. */
  lemma {:induction false} TurnRaises(log: Log, l: Limits, w: Worker, turn: Turn)
    requires w.phase.Polling? && |w.position| == |w.committed| == |log|
    ensures var polled := PollHalf(log, l, w, turn);
            && (polled.phase.Closed? <==>
                 && Offers(log, w, turn) && turn.commit.Raised?
                 && log[turn.source.value][w.position[turn.source.value]].Malformed?)
            && (TurnStep(log, l, w, turn).phase.Closed? <==>
                 || polled.phase.Closed?
                 || (Due(l, polled.batch, turn.checkedAt) && turn.outcome.Inserted? && turn.outcome.commit.Raised?))
            && (TurnStep(log, l, w, turn).phase.Polling? <==> !TurnStep(log, l, w, turn).phase.Closed?)
  {
    hide Due;
  }

  /** Some iteration of the script raises. */
  predicate Raises(log: Log, l: Limits, w: Worker, script: seq<Turn>)
    requires w.phase.Polling?
    decreases |script|
  {
    script != [] &&
    (var next := TurnStep(log, l, w, script[0]);
     !next.phase.Polling? || Raises(log, l, next, script[1..]))
  }

  /** An exception is the end of the loop: no later iteration happens, and no drain. */
  lemma {:induction false} ExceptionEndsTheLoop(log: Log, l: Limits, w: Worker, script: seq<Turn>, rest: seq<Turn>,
                                                ending: Ending, other: Ending)
    requires w.phase.Polling? && Raises(log, l, w, script)
    ensures LoopResult(log, l, w, script + rest, ending) == LoopResult(log, l, w, script, other)
    decreases |script|
  {
    hide TurnStep;
    assert (script + rest)[0] == script[0] && (script + rest)[1..] == script[1..] + rest;
    var next := TurnStep(log, l, w, script[0]);
    if next.phase.Polling? {
      ExceptionEndsTheLoop(log, l, next, script[1..], rest, ending, other);
    }
  }

  /** A late insert that is running ends as the environment says: it lands as a whole, or fails. */
  lemma {:induction false} LateTakesEffect(log: Log, l: Limits, w: Worker, e: Late, es: seq<Late>)
    ensures LateSteps(log, l, w, [e] + es) == LateSteps(log, l, LateSteps(log, l, w, [e]), es)
    ensures var w' := LateSteps(log, l, w, [e]);
            if !e.orphan && e.i < |w.timedOut| then
              var batch := w.timedOut[e.i];
              && w'.timedOut == w.timedOut[..e.i] + w.timedOut[e.i + 1..] && w'.orphans == w.orphans
              && w'.rows == w.rows + (if e.landed then batch else [])
              && w'.inserted == w.inserted + (if e.landed then |batch| else 0)
              && w'.failed == w.failed + (if e.landed then [] else batch)
            else if e.orphan && e.i < |w.orphans| then
              && w'.orphans == w.orphans[..e.i] + w.orphans[e.i + 1..] && w'.timedOut == w.timedOut
              && w'.rows == w.rows + (if e.landed then w.orphans[e.i] else [])
              && w'.inserted == w.inserted && w'.failed == w.failed
            else w' == w
  {
    assert ([e] + es)[1..] == es && [e][1..] == [];
    assert w.failed + [] == w.failed && w.rows + [] == w.rows;
  }

  lemma {:induction false} LateConcat(log: Log, l: Limits, w: Worker, a: seq<Late>, b: seq<Late>)
    ensures LateSteps(log, l, w, a + b) == LateSteps(log, l, LateSteps(log, l, w, a), b)
    decreases |a|
  {
    hide Apply;
    if a == [] {
      assert a + b == b;
    } else {
      assert (a + b)[0] == a[0] && (a + b)[1..] == a[1..] + b;
      var first := LateAction(a[0]);
      LateConcat(log, l, if Enabled(log, w, first) then Apply(log, l, w, first) else w, a[1..], b);
    }
  }

  /** Late inserts end as they do on their own, whatever the worker polls, buffers or waits for meanwhile. */
  lemma {:induction false} LateAnywhere(log: Log, l: Limits, w: Worker, other: Worker, es: seq<Late>)
    requires w.rows == other.rows && w.timedOut == other.timedOut && w.orphans == other.orphans
    requires w.inserted == other.inserted && w.failed == other.failed
    ensures var w', other' := LateSteps(log, l, w, es), LateSteps(log, l, other, es);
            && w'.rows == other'.rows && w'.timedOut == other'.timedOut && w'.orphans == other'.orphans
            && w'.inserted == other'.inserted && w'.failed == other'.failed
    decreases |es|
  {
    if es != [] {
      var a := LateAction(es[0]);
      LateAnywhere(log, l, if Enabled(log, w, a) then Apply(log, l, w, a) else w,
                   if Enabled(log, other, a) then Apply(log, l, other, a) else other, es[1..]);
    }
  }

  /**
   * What an iteration inserts: all late inserts of its three points land, in their order, and then
   * the batch, if one was due and its insert was seen to succeed.
   */
  lemma {:induction false} TurnInserts(log: Log, l: Limits, w: Worker, turn: Turn)
    requires w.phase.Polling?
    ensures var polled, w' := PollHalf(log, l, w, turn), TurnStep(log, l, w, turn);
            if polled.phase.Closed? then w'.rows == LateSteps(log, l, w, turn.before).rows
            else
              var due := Due(l, polled.batch, turn.checkedAt);
              var late := LateSteps(log, l, w, turn.before + turn.between + if due then turn.during else []);
              && w'.rows == late.rows + (if due && turn.outcome.Inserted? then polled.batch.items else [])
              && w'.timedOut == late.timedOut + (if due && turn.outcome.TimedOut? then [polled.batch.items] else [])
              && w'.failed == late.failed + (if due && turn.outcome.Failed? then polled.batch.items else [])
              && w'.orphans == late.orphans
  {
    hide Due;
    var polled := PollHalf(log, l, w, turn);
    if !polled.phase.Closed? {
      var start := LateSteps(log, l, w, turn.before);
      LateConcat(log, l, w, turn.before, turn.between);
      LateAnywhere(log, l, start, polled, turn.between);
      if Due(l, polled.batch, turn.checkedAt) {
        LateConcat(log, l, w, turn.before + turn.between, turn.during);
        var checked := LateSteps(log, l, polled, turn.between);
        LateAnywhere(log, l, LateSteps(log, l, start, turn.between), Submit(checked, false), turn.during);
      } else {
        assert turn.before + turn.between + [] == turn.before + turn.between;
      }
    }
  }

  /** What the drain on stop inserts. */
  lemma {:induction false} StopInserts(log: Log, l: Limits, w: Worker, ending: Ending)
    ensures var w' := StopStep(log, l, w, ending);
            var late := LateSteps(log, l, w, ending.before + if w.batch.items != [] then ending.during else []);
            && w'.rows == late.rows + (if ending.outcome.Inserted? then w.batch.items else [])
            && w'.orphans == late.orphans
            && (w.batch.items != [] ==>
                 && w'.timedOut == late.timedOut + (if ending.outcome.TimedOut? then [w.batch.items] else [])
                 && w'.failed == late.failed + (if ending.outcome.Failed? then w.batch.items else []))
  {
    var start := LateSteps(log, l, w, ending.before);
    if w.batch.items != [] {
      LateConcat(log, l, w, ending.before, ending.during);
      LateAnywhere(log, l, start, Submit(start, true), ending.during);
    } else {
      assert ending.before + [] == ending.before;
    }
  }

  // ---------- How far the loop gets ----------

  /** The iterations whose poll reads from the partition. */
  function Polls(script: seq<Turn>, p: nat): nat {
    if script == [] then 0 else (if script[0].source == Some(p) then 1 else 0) + Polls(script[1..], p)
  }

  function PollsOfAll(lives: seq<Lifetime>, p: nat): nat {
    if lives == [] then 0 else Polls(lives[0].script, p) + PollsOfAll(lives[1..], p)
  }

  function Min(a: nat, b: nat): nat {
    if a < b then a else b
  }

  /** No commit of the script raises; flushes may fail or time out. */
  predicate NeverRaises(script: seq<Turn>) {
    forall i :: 0 <= i < |script| ==>
      script[i].commit.Acknowledged? && (script[i].outcome.Inserted? ==> script[i].outcome.commit.Acknowledged?)
  }

  lemma {:induction false} TurnStaysInBounds(log: Log, l: Limits, w: Worker, turn: Turn)
    requires w.phase.Polling? && InBounds(log, w)
    ensures InBounds(log, TurnStep(log, l, w, turn))
  {
    hide Due;
  }

  predicate InBounds(log: Log, w: Worker) {
    |w.position| == |w.committed| == |log| && forall p :: 0 <= p < |log| ==> w.position[p] <= |log[p]|
  }

  /** While no commit raises, every poll of a partition reads its next message, until there is none left. */
  lemma {:induction false} LoopPosition(log: Log, l: Limits, w: Worker, script: seq<Turn>, ending: Ending, p: nat)
    requires w.phase.Polling? && InBounds(log, w) && NeverRaises(script) && p < |log|
    ensures var w' := LoopResult(log, l, w, script, ending);
            |w'.position| == |log| && w'.position[p] == Min(|log[p]|, w.position[p] + Polls(script, p))
    decreases |script|
  {
    hide TurnStep;
    if script != [] {
      var next := TurnStep(log, l, w, script[0]);
      TurnReads(log, l, w, script[0]);
      TurnRaises(log, l, w, script[0]);
      TurnStaysInBounds(log, l, w, script[0]);
      LoopPosition(log, l, next, script[1..], ending, p);
    }
  }

  // ---------- The loop takes steps of the protocol ----------

  /** No flush or commit of the iteration fails or times out. */
  predicate SmoothTurn(turn: Turn) {
    turn.commit.Acknowledged? && turn.outcome == Inserted(Acknowledged)
  }

  predicate Smooth(script: seq<Turn>, ending: Ending) {
    && ending.outcome == Inserted(Acknowledged)
    && forall i :: 0 <= i < |script| ==> SmoothTurn(script[i])
  }

  /** The run leads from one state to the other, without a failure if `clean`. */
  ghost predicate Leads(log: Log, l: Limits, w: Worker, run: seq<Action>, w': Worker, clean: bool) {
    Legal(log, l, w, run) && Exec(log, l, w, run) == w' && (clean ==> AllClean(log, l, w, run))
  }

  lemma {:induction false} LeadsNowhere(log: Log, l: Limits, w: Worker)
    ensures Leads(log, l, w, [], w, true)
  {
  }

  lemma {:induction false} LeadsOne(log: Log, l: Limits, w: Worker, a: Action)
    requires Enabled(log, w, a)
    ensures Leads(log, l, w, [a], Apply(log, l, w, a), Clean(log, w, a))
  {
    assert [a][1..] == [];
  }

  lemma {:induction false} LeadsOn(log: Log, l: Limits, w: Worker, a: seq<Action>, mid: Worker,
                                   b: seq<Action>, w': Worker, clean: bool)
    requires Leads(log, l, w, a, mid, clean) && Leads(log, l, mid, b, w', clean)
    ensures Leads(log, l, w, a + b, w', clean)
    decreases |a|
  {
    if a == [] {
      assert a + b == b;
    } else {
      LeadsOn(log, l, Apply(log, l, w, a[0]), a[1..], mid, b, w', clean);
      assert (a + b)[0] == a[0] && (a + b)[1..] == a[1..] + b;
    }
  }

  lemma {:induction false} LateIsRun(log: Log, l: Limits, w: Worker, es: seq<Late>, clean: bool)
    ensures Leads(log, l, w, LateActions(log, l, w, es), LateSteps(log, l, w, es), clean)
    decreases |es|
  {
    hide Leads, Apply;
    if es == [] {
      LeadsNowhere(log, l, w);
      LeadsWeaken(log, l, w, [], w, clean);
    } else if Enabled(log, w, LateAction(es[0])) {
      var a := LateAction(es[0]);
      var next := Apply(log, l, w, a);
      LeadsOne(log, l, w, a);
      LeadsWeaken(log, l, w, [a], next, clean);
      LateIsRun(log, l, next, es[1..], clean);
      LeadsOn(log, l, w, [a], next, LateActions(log, l, next, es[1..]), LateSteps(log, l, next, es[1..]), clean);
    } else {
      LateIsRun(log, l, w, es[1..], clean);
    }
  }

  lemma {:induction false} LeadsWeaken(log: Log, l: Limits, w: Worker, run: seq<Action>, w': Worker, clean: bool)
    requires Leads(log, l, w, run, w', true)
    ensures Leads(log, l, w, run, w', clean)
  {
  }

  /** Late inserts, and then a step. */
  lemma {:induction false} LateThen(log: Log, l: Limits, w: Worker, es: seq<Late>, a: Action, clean: bool)
    requires Enabled(log, LateSteps(log, l, w, es), a) && (clean ==> Clean(log, LateSteps(log, l, w, es), a))
    ensures var start := LateSteps(log, l, w, es);
            Leads(log, l, w, LateActions(log, l, w, es) + [a], Apply(log, l, start, a), clean)
  {
    hide LateSteps, LateActions, Apply, Enabled;
    var start := LateSteps(log, l, w, es);
    LateIsRun(log, l, w, es, clean);
    LeadsOne(log, l, start, a);
    LeadsOn(log, l, w, LateActions(log, l, w, es), start, [a], Apply(log, l, start, a), clean);
  }

  lemma {:induction false} FlushIsRun(log: Log, l: Limits, w: Worker, draining: bool,
                                      during: seq<Late>, outcome: Outcome, clean: bool)
    requires clean ==> outcome == Inserted(Acknowledged)
    ensures Leads(log, l, Submit(w, draining), FlushActions(log, l, w, draining, during, outcome),
                  FlushStep(log, l, w, draining, during, outcome), clean)
  {
    LateThen(log, l, Submit(w, draining), during, Complete(outcome), clean);
  }

  lemma {:induction false} PollHalfIsRun(log: Log, l: Limits, w: Worker, turn: Turn)
    requires w.phase.Polling?
    ensures Leads(log, l, w, PollHalfActions(log, l, w, turn), PollHalf(log, l, w, turn), SmoothTurn(turn))
    ensures PollHalf(log, l, w, turn).phase.Checking? || PollHalf(log, l, w, turn).phase.Closed?
  {
    hide Leads;
    LateThen(log, l, w, turn.before, PollAction(log, LateSteps(log, l, w, turn.before), turn), SmoothTurn(turn));
  }

  /** Late inserts, a step that may start a flush, and the flush if it does. */
  lemma {:induction false} LateThenFlush(log: Log, l: Limits, w: Worker, es: seq<Late>, a: Action, draining: bool,
                                         during: seq<Late>, outcome: Outcome, clean: bool)
    requires var start := LateSteps(log, l, w, es);
             Enabled(log, start, a) && Clean(log, start, a) && Apply(log, l, start, a) == Submit(start, draining)
    requires clean ==> outcome == Inserted(Acknowledged)
    ensures var start := LateSteps(log, l, w, es);
            var flush := FlushActions(log, l, start, draining, during, outcome);
            Leads(log, l, w, LateActions(log, l, w, es) + ([a] + flush),
                  FlushStep(log, l, start, draining, during, outcome), clean)
  {
    hide Leads, LateSteps, LateActions, FlushActions, FlushStep;
    var start := LateSteps(log, l, w, es);
    var flush := FlushActions(log, l, start, draining, during, outcome);
    LateThen(log, l, w, es, a, clean);
    FlushIsRun(log, l, start, draining, during, outcome, clean);
    LeadsOn(log, l, w, LateActions(log, l, w, es) + [a], Submit(start, draining), flush,
            FlushStep(log, l, start, draining, during, outcome), clean);
    assert (LateActions(log, l, w, es) + [a]) + flush == LateActions(log, l, w, es) + ([a] + flush);
  }

  lemma {:induction false} CheckHalfIsRun(log: Log, l: Limits, w: Worker, turn: Turn)
    requires w.phase.Checking?
    ensures Leads(log, l, w, CheckHalfActions(log, l, w, turn), CheckHalf(log, l, w, turn), SmoothTurn(turn))
    ensures CheckHalf(log, l, w, turn).phase.Polling? || CheckHalf(log, l, w, turn).phase.Closed?
  {
    hide Leads, LateActions, LateSteps, FlushActions;
    var start, a := LateSteps(log, l, w, turn.between), CheckBatch(turn.checkedAt);
    if Due(l, start.batch, turn.checkedAt) {
      LateThenFlush(log, l, w, turn.between, a, false, turn.during, turn.outcome, SmoothTurn(turn));
    } else {
      LateThen(log, l, w, turn.between, a, SmoothTurn(turn));
      assert [a] + [] == [a];
    }
  }

  lemma {:induction false} StopIsRun(log: Log, l: Limits, w: Worker, ending: Ending)
    requires w.phase.Polling?
    ensures Leads(log, l, w, StopActions(log, l, w, ending), StopStep(log, l, w, ending), Smooth([], ending))
    ensures StopStep(log, l, w, ending).phase.Closed?
  {
    hide Leads, LateActions, LateSteps, FlushActions;
    var start := LateSteps(log, l, w, ending.before);
    if start.batch.items != [] {
      LateThenFlush(log, l, w, ending.before, Stop, true, ending.during, ending.outcome, Smooth([], ending));
    } else {
      LateThen(log, l, w, ending.before, Stop, Smooth([], ending));
      assert [Stop] + [] == [Stop];
    }
  }

  lemma {:induction false} TurnIsRun(log: Log, l: Limits, w: Worker, turn: Turn)
    requires w.phase.Polling?
    ensures Leads(log, l, w, TurnActions(log, l, w, turn), TurnStep(log, l, w, turn), SmoothTurn(turn))
    ensures TurnStep(log, l, w, turn).phase.Polling? || TurnStep(log, l, w, turn).phase.Closed?
  {
    hide Leads, PollHalf, CheckHalf, PollHalfActions, CheckHalfActions;
    var polled, first := PollHalf(log, l, w, turn), PollHalfActions(log, l, w, turn);
    PollHalfIsRun(log, l, w, turn);
    if polled.phase.Closed? {
      assert first + [] == first;
    } else {
      CheckHalfIsRun(log, l, polled, turn);
      LeadsOn(log, l, w, first, polled, CheckHalfActions(log, l, polled, turn), CheckHalf(log, l, polled, turn),
              SmoothTurn(turn));
    }
  }

  lemma {:induction false} LoopLeads(log: Log, l: Limits, w: Worker, script: seq<Turn>, ending: Ending, clean: bool)
    requires w.phase.Polling? && (clean ==> Smooth(script, ending))
    ensures Leads(log, l, w, LoopActions(log, l, w, script, ending), LoopResult(log, l, w, script, ending), clean)
    ensures LoopResult(log, l, w, script, ending).phase.Closed?
    decreases |script|
  {
    hide TurnStep, TurnActions, StopStep, StopActions, Legal, AllClean;
    if script == [] {
      StopIsRun(log, l, w, ending);
    } else {
      var next, first := TurnStep(log, l, w, script[0]), TurnActions(log, l, w, script[0]);
      TurnIsRun(log, l, w, script[0]);
      if next.phase.Polling? {
        LoopLeads(log, l, next, script[1..], ending, clean);
        LeadsOn(log, l, w, first, next, LoopActions(log, l, next, script[1..], ending),
                LoopResult(log, l, next, script[1..], ending), clean);
      } else {
        assert first + [] == first;
      }
    }
  }

  /**
   * Whatever the environment does, the loop takes a run of the protocol and leaves it closed, so
   * what holds of every run holds of the loop; and it is a clean run if nothing fails.
   */
  lemma {:induction false} LoopIsRun(log: Log, l: Limits, w: Worker, script: seq<Turn>, ending: Ending)
    requires w.phase.Polling?
    ensures var run := LoopActions(log, l, w, script, ending);
            && Legal(log, l, w, run) && Exec(log, l, w, run) == LoopResult(log, l, w, script, ending)
            && (Smooth(script, ending) ==> AllClean(log, l, w, run))
    ensures LoopResult(log, l, w, script, ending).phase.Closed?
  {
    hide LoopActions, LoopResult, Legal, Exec, AllClean;
    LoopLeads(log, l, w, script, ending, Smooth(script, ending));
  }

  predicate AllSmooth(lives: seq<Lifetime>) {
    forall i :: 0 <= i < |lives| ==> Smooth(lives[i].script, lives[i].ending)
  }

  /** The same over further lifetimes. */
  lemma {:induction false} LaterLead(log: Log, l: Limits, w: Worker, lives: seq<Lifetime>, clean: bool)
    requires w.phase.Closed? && (clean ==> AllSmooth(lives))
    ensures Leads(log, l, w, LaterActions(log, l, w, lives), LaterLives(log, l, w, lives), clean)
    ensures LaterLives(log, l, w, lives).phase.Closed?
    decreases |lives|
  {
    hide Leads, LoopActions, LoopResult, Smooth;
    if lives == [] {
      LeadsNowhere(log, l, w);
      LeadsWeaken(log, l, w, [], w, clean);
    } else {
      var life, start := lives[0], RestartStep(w);
      var loop := LoopActions(log, l, start, life.script, life.ending);
      var next := LoopResult(log, l, start, life.script, life.ending);
      LeadsOne(log, l, w, Restart);
      LeadsWeaken(log, l, w, [Restart], start, clean);
      LoopLeads(log, l, start, life.script, life.ending, clean);
      LaterLead(log, l, next, lives[1..], clean);
      var later, last := LaterActions(log, l, next, lives[1..]), LaterLives(log, l, next, lives[1..]);
      LeadsOn(log, l, start, loop, next, later, last, clean);
      LeadsOn(log, l, w, [Restart], start, loop + later, last, clean);
    }
  }

  /** The worker after all its lifetimes, from an empty table and offset zero. */
  function LivesResult(log: Log, l: Limits, lives: seq<Lifetime>): Worker
    requires lives != []
  {
    LaterLives(log, l, LoopResult(log, l, Init(log), lives[0].script, lives[0].ending), lives[1..])
  }

  /** Any number of lifetimes, each started at the committed offsets of the last, are one run of the protocol. */
  lemma {:induction false} LivesAreRun(log: Log, l: Limits, lives: seq<Lifetime>) returns (run: seq<Action>)
    requires lives != []
    ensures Legal(log, l, Init(log), run) && Exec(log, l, Init(log), run) == LivesResult(log, l, lives)
    ensures AllSmooth(lives) ==> AllClean(log, l, Init(log), run)
    ensures LivesResult(log, l, lives).phase.Closed?
  {
    hide LoopActions, LoopResult, Smooth, LaterLives, LaterActions, Legal, Exec, AllClean;
    var life, clean := lives[0], AllSmooth(lives);
    var first := LoopActions(log, l, Init(log), life.script, life.ending);
    var mid := LoopResult(log, l, Init(log), life.script, life.ending);
    LoopLeads(log, l, Init(log), life.script, life.ending, clean);
    LaterLead(log, l, mid, lives[1..], clean);
    var later := LaterActions(log, l, mid, lives[1..]);
    run := first + later;
    LeadsOn(log, l, Init(log), first, mid, later, LaterLives(log, l, mid, lives[1..]), clean);
  }

  /** With no failure, a lifetime takes up where the one before it stopped. */
  lemma {:induction false} SmoothLife(log: Log, l: Limits, start: Worker, script: seq<Turn>, ending: Ending, p: nat)
    requires start.phase.Polling? && Inv(log, l, start) && OnceInv(log, start) && Smooth(script, ending) && p < |log|
    ensures var w' := LoopResult(log, l, start, script, ending);
            && w'.phase.Closed? && Inv(log, l, w') && OnceInv(log, w')
            && w'.position[p] == Min(|log[p]|, start.position[p] + Polls(script, p))
  {
    hide Legal, Exec, AllClean, LoopResult, LoopActions, OnceInv, ClicksInv, BatchesInv, CopiesInv, Conserved;
    LoopIsRun(log, l, start, script, ending);
    InvRun(log, l, start, LoopActions(log, l, start, script, ending));
    OnceRun(log, l, start, LoopActions(log, l, start, script, ending));
    LoopPosition(log, l, start, script, ending, p);
  }

  lemma {:induction false} SmoothRestart(log: Log, l: Limits, w: Worker)
    requires w.phase.Closed? && Inv(log, l, w) && OnceInv(log, w)
    ensures var start := RestartStep(w);
            start.phase.Polling? && Inv(log, l, start) && OnceInv(log, start) && start.position == w.position
  {
    InvStep(log, l, w, Restart);
    OnceStep(log, l, w, Restart);
  }

  lemma {:induction false} LaterPosition(log: Log, l: Limits, w: Worker, lives: seq<Lifetime>, p: nat)
    requires w.phase.Closed? && Inv(log, l, w) && OnceInv(log, w) && AllSmooth(lives) && p < |log|
    ensures var w' := LaterLives(log, l, w, lives);
            p < |w'.position| && w'.position[p] == Min(|log[p]|, w.position[p] + PollsOfAll(lives, p))
    decreases |lives|
  {
    hide RestartStep, LoopResult, OnceInv, ClicksInv, BatchesInv, CopiesInv, Conserved, Smooth;
    if lives != [] {
      SmoothRestart(log, l, w);
      SmoothLife(log, l, RestartStep(w), lives[0].script, lives[0].ending, p);
      LaterPosition(log, l, LoopResult(log, l, RestartStep(w), lives[0].script, lives[0].ending), lives[1..], p);
    }
  }

  /** Over lifetimes without a failure, each poll of a partition reads its next message, until there is none left. */
  lemma {:induction false} SmoothPosition(log: Log, l: Limits, lives: seq<Lifetime>, p: nat)
    requires lives != [] && AllSmooth(lives) && p < |log|
    ensures var w := LivesResult(log, l, lives);
            p < |w.position| && w.position[p] == Min(|log[p]|, PollsOfAll(lives, p))
  {
    hide LoopResult, LaterLives, Inv, Smooth;
    InvInit(log, l);
    OnceInit(log);
    SmoothLife(log, l, Init(log), lives[0].script, lives[0].ending, p);
    LaterPosition(log, l, LoopResult(log, l, Init(log), lives[0].script, lives[0].ending), lives[1..], p);
  }

  lemma {:induction false} OnceInit(log: Log)
    ensures OnceInv(log, Init(log))
  {
  }
}
