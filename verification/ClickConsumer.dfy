/**
 * The worker's objects (src/worker/consumer.py, src/worker/repository.py): the consumer client,
 * the bulk repository and the poll loop over them, proved against PollLoop.
 */
module Consumer {
  import opened Wrappers
  import opened Batching
  import opened Ingest
  import opened IngestInvariants
  import opened IngestSafety
  import opened PollLoop

  datatype Record = Record(at: Offset, message: Message)

  /**
   * The consumer client: it starts at the committed offsets (zero where there are none), positions
   * move with each poll, committed offsets with each commit.
   */
  class KafkaConsumer {
    const log: Log
    var position: seq<nat>
    var committed: seq<nat>

    ghost predicate Valid()
      reads this
    {
      |position| == |committed| == |log|
    }

    constructor (log: Log, committed: seq<nat>)
      requires |committed| == |log|
      ensures Valid() && this.log == log && position == committed && this.committed == committed
    {
      this.log := log;
      position, this.committed := committed, committed;
    }

    method Poll(source: Option<nat>) returns (r: Option<Record>)
      requires Valid()
      modifies this`position
      ensures Valid()
      ensures r.Some? <==> source.Some? && source.value < |log| && old(position)[source.value] < |log[source.value]|
      ensures r.Some? ==>
        var p := source.value;
        && r.value == Record(Offset(p, old(position)[p]), log[p][old(position)[p]])
        && position == old(position)[p := old(position)[p] + 1]
      ensures r.None? ==> position == old(position)
    {
      if source.None? || source.value >= |log| {
        return None;
      }
      var p := source.value;
      if position[p] >= |log[p]| {
        return None;
      }
      r := Some(Record(Offset(p, position[p]), log[p][position[p]]));
      position := position[p := position[p] + 1];
    }

    /** Commits past one message. */
    method CommitMessage(record: Record, commit: Commit) returns (raised: bool)
      requires Valid() && record.at.partition < |log|
      modifies this`committed
      ensures Valid() && raised == commit.Raised?
      ensures committed == if commit == Acknowledged || commit == Raised(true)
                           then old(committed)[record.at.partition := record.at.index + 1]
                           else old(committed)
    {
      if commit.Stores() {
        committed := committed[record.at.partition := record.at.index + 1];
      }
      raised := commit.Raised?;
    }

    /** Commits the position of every partition. */
    method CommitPositions(commit: Commit) returns (raised: bool)
      requires Valid()
      modifies this`committed
      ensures Valid() && raised == commit.Raised?
      ensures committed == if commit == Acknowledged || commit == Raised(true) then position else old(committed)
    {
      if commit.Stores() {
        committed := position;
      }
      raised := commit.Raised?;
    }
  }

  /** A row of url_stats: the time of the click is not passed on. */
  datatype StatsRow = StatsRow(urlId: int, userAgent: string, ipAddress: string)

  function RowOf(c: Click): StatsRow {
    StatsRow(c.event.urlId, c.event.userAgent, c.event.ipAddress)
  }

  function RowsOf(cs: seq<Click>): (rows: seq<StatsRow>)
    ensures |rows| == |cs| && forall i :: 0 <= i < |cs| ==> rows[i] == RowOf(cs[i])
  {
    seq(|cs|, i requires 0 <= i < |cs| => RowOf(cs[i]))
  }

  /** The url_stats table and its bulk insert, and the inserts of ended processes that still run. */
  class UrlStatsBulkRepository {
    var rows: seq<StatsRow>
    var orphans: seq<seq<Click>>
    ghost var clicks: seq<Click>

    ghost predicate Valid()
      reads this
    {
      rows == RowsOf(clicks)
    }

    constructor ()
      ensures Valid() && clicks == [] && orphans == []
    {
      rows, orphans, clicks := [], [], [];
    }

    /** One transaction: all the rows are inserted, or none is. */
    method InsertMany(events: seq<Click>, succeeds: bool)
      requires Valid()
      modifies `rows, `clicks
      ensures Valid()
      ensures clicks == if succeeds then old(clicks) + events else old(clicks)
      ensures !succeeds ==> rows == old(rows)
      ensures succeeds ==> |rows| == |old(rows)| + |events| && rows[..|old(rows)|] == old(rows)
      ensures succeeds ==> forall i :: 0 <= i < |events| ==>
        var row := rows[|old(rows)| + i];
        && row.urlId == events[i].event.urlId
        && row.userAgent == events[i].event.userAgent
        && row.ipAddress == events[i].event.ipAddress
    {
      if events == [] {
        assert clicks + events == clicks;
        return;
      }
      var values: seq<StatsRow> := [];
      for i := 0 to |events|
        invariant values == RowsOf(events[..i])
      {
        values := values + [RowOf(events[i])];
        assert events[..i + 1] == events[..i] + [events[i]];
      }
      if succeeds {
        rows, clicks := rows + values, clicks + events;
        assert events[..|events|] == events;
      }
    }
  }

  /** The worker's consumer: the poll loop over a batcher, a consumer client and a repository. */
  class ClickConsumer {
    const limits: Limits
    const consumer: KafkaConsumer
    const repository: UrlStatsBulkRepository
    const batcher: Batcher<Click>
    var consumed: nat
    var malformed: nat
    var inserted: nat
    var timedOut: seq<seq<Click>>
    ghost var failed: seq<Click>
    ghost var polled: seq<Click>
    ghost var submitted: seq<seq<Click>>
    ghost const restarts: nat

    ghost predicate Valid()
      reads this, consumer, repository, batcher
    {
      consumer.Valid() && repository.Valid() && batcher.Valid() && batcher.limits == limits
    }

    /** The worker's state when its poll thread is in the given phase. */
    ghost function View(phase: Phase): Worker
      reads this, consumer, repository, batcher
    {
      Worker(phase, consumer.position, consumer.committed, batcher.View(), repository.clicks, timedOut,
             repository.orphans, consumed, malformed, inserted, failed, polled, submitted, restarts)
    }

    constructor (consumer: KafkaConsumer, repository: UrlStatsBulkRepository, limits: Limits, ghost restarts: nat)
      requires consumer.Valid() && repository.Valid()
      ensures Valid() && fresh(batcher) && this.restarts == restarts
      ensures this.consumer == consumer && this.repository == repository && this.limits == limits
      ensures View(Polling) == Worker(Polling, consumer.position, consumer.committed, Empty(), repository.clicks,
                                      [], repository.orphans, 0, 0, 0, [], [], [], restarts)
    {
      this.consumer, this.repository, this.limits, this.restarts := consumer, repository, limits, restarts;
      this.batcher := new Batcher(limits);
      consumed, malformed, inserted, timedOut := 0, 0, 0, [];
      failed, polled, submitted := [], [], [];
    }

    /** Decodes a message; a malformed one is committed past and skipped. */
    method DecodeOrSkip(record: Record, commit: Commit) returns (click: Option<Click>, raised: bool)
      requires Valid() && record.at.partition < |consumer.log|
      modifies this`malformed, consumer`committed
      ensures Valid()
      ensures record.message.Good? ==>
        !raised && click == Some(Click(record.at, record.message.event))
        && malformed == old(malformed) && consumer.committed == old(consumer.committed)
      ensures record.message.Malformed? ==>
        && click == None && raised == commit.Raised? && malformed == old(malformed) + 1
        && consumer.committed == if commit.Stores()
                                 then old(consumer.committed)[record.at.partition := record.at.index + 1]
                                 else old(consumer.committed)
    {
      match record.message
      case Good(event) => click, raised := Some(Click(record.at, event)), false;
      case Malformed =>
        malformed := malformed + 1;
        raised := consumer.CommitMessage(record, commit);
        click := None;
    }

    /** Inserts a batch and, only if the insert was seen to succeed, commits. */
    method SubmitFlush(batch: seq<Click>, ghost draining: bool, outcome: Outcome) returns (raised: bool)
      requires Valid()
      modifies this, consumer`committed, repository
      ensures Valid()
      ensures raised == (outcome.Inserted? && outcome.commit.Raised?)
      ensures View(if raised || draining then Closed else Polling)
           == CompleteStep(old(View(Flushing(batch, draining))), outcome)
      ensures outcome.Inserted? ==>
        && repository.clicks == old(repository.clicks) + batch && inserted == old(inserted) + |batch|
        && timedOut == old(timedOut) && failed == old(failed)
      ensures !outcome.Inserted? ==>
        && repository.clicks == old(repository.clicks) && inserted == old(inserted)
        && timedOut == old(timedOut) + (if outcome.TimedOut? then [batch] else [])
        && failed == old(failed) + (if outcome.Failed? then batch else [])
      ensures consumer.committed == if outcome == Inserted(Acknowledged) || outcome == Inserted(Raised(true))
                                    then consumer.position else old(consumer.committed)
    {
      raised := false;
      match outcome
      case TimedOut => timedOut := timedOut + [batch];
      case Failed =>
        repository.InsertMany(batch, false);
        failed := failed + batch;
      case Inserted(commit) =>
        repository.InsertMany(batch, true);
        inserted := inserted + |batch|;
        raised := consumer.CommitPositions(commit);
    }

    /** An insert that had timed out ends on the event loop, wherever the poll thread is. */
    method FinishTimedOut(i: nat, landed: bool, ghost phase: Phase)
      requires Valid() && i < |timedOut|
      modifies this, repository
      ensures Valid()
      ensures View(phase) == Apply(consumer.log, limits, old(View(phase)), FinishLate(i, landed))
      ensures timedOut == old(timedOut)[..i] + old(timedOut)[i + 1..]
      ensures landed ==>
        && repository.clicks == old(repository.clicks) + old(timedOut)[i]
        && inserted == old(inserted) + |old(timedOut)[i]| && failed == old(failed)
      ensures !landed ==>
        && repository.clicks == old(repository.clicks)
        && inserted == old(inserted) && failed == old(failed) + old(timedOut)[i]
    {
      var batch := timedOut[i];
      repository.InsertMany(batch, landed);
      if landed {
        inserted := inserted + |batch|;
      } else {
        failed := failed + batch;
      }
      timedOut := timedOut[..i] + timedOut[i + 1..];
    }

    /** An insert that an earlier process had left running ends. */
    method FinishOrphaned(i: nat, landed: bool, ghost phase: Phase)
      requires Valid() && i < |repository.orphans|
      modifies repository
      ensures Valid()
      ensures View(phase) == Apply(consumer.log, limits, old(View(phase)), FinishOrphan(i, landed))
      ensures repository.orphans == old(repository.orphans)[..i] + old(repository.orphans)[i + 1..]
      ensures repository.clicks == old(repository.clicks) + (if landed then old(repository.orphans)[i] else [])
    {
      repository.InsertMany(repository.orphans[i], landed);
      repository.orphans := repository.orphans[..i] + repository.orphans[i + 1..];
    }

    /** Inserts that were left running end while the poll thread is in the given phase. */
    method FinishAll(es: seq<Late>, ghost phase: Phase)
      requires Valid()
      modifies this, repository
      ensures Valid()
      ensures View(phase) == LateSteps(consumer.log, limits, old(View(phase)), es)
    {
      hide Apply;
      ghost var result := LateSteps(consumer.log, limits, View(phase), es);
      for k := 0 to |es|
        invariant Valid()
        invariant LateSteps(consumer.log, limits, View(phase), es[k..]) == result
      {
        assert es[k..][0] == es[k] && es[k..][1..] == es[k + 1..];
        if es[k].orphan {
          if es[k].i < |repository.orphans| {
            FinishOrphaned(es[k].i, es[k].landed, phase);
          }
        } else if es[k].i < |timedOut| {
          FinishTimedOut(es[k].i, es[k].landed, phase);
        }
      }
    }

    /** Poll, decode, and buffer the click. */
    method PollOnce(turn: Turn) returns (raised: bool)
      requires Valid()
      modifies `consumed, `malformed, `polled, consumer, batcher
      ensures Valid()
      ensures View(if raised then Closed else Checking)
           == Apply(consumer.log, limits, old(View(Polling)), PollAction(consumer.log, old(View(Polling)), turn))
      ensures var p := turn.source;
              if p.Some? && p.value < |consumer.log| && old(consumer.position)[p.value] < |consumer.log[p.value]| then
                var index := old(consumer.position)[p.value];
                var message := consumer.log[p.value][index];
                && consumer.position == old(consumer.position)[p.value := index + 1] && consumed == old(consumed) + 1
                && (message.Good? ==>
                     && !raised && malformed == old(malformed)
                     && batcher.buffer == old(batcher.buffer) + [Click(Offset(p.value, index), message.event)]
                     && batcher.firstAddedAt == if old(batcher.buffer) == [] then Some(turn.addedAt)
                                                else old(batcher.firstAddedAt))
                && (message.Malformed? ==>
                     && raised == turn.commit.Raised? && malformed == old(malformed) + 1
                     && batcher.buffer == old(batcher.buffer))
              else
                && !raised && consumer.position == old(consumer.position) && consumed == old(consumed)
                && malformed == old(malformed) && batcher.buffer == old(batcher.buffer)
    {
      hide RowsOf, CompleteStep, RestartStep, Without, Submit, Due;
      raised := false;
      var record := consumer.Poll(turn.source);
      if record.Some? {
        consumed := consumed + 1;
        var click;
        click, raised := DecodeOrSkip(record.value, turn.commit);
        if click.Some? {
          batcher.Add(click.value, turn.addedAt);
          polled := polled + [click.value];
        }
      }
    }

    /** Drains the batcher and flushes what it held. */
    method DrainAndFlush(ghost draining: bool, during: seq<Late>, outcome: Outcome, ghost phase: Phase)
      returns (raised: bool)
      requires Valid()
      modifies this, consumer`committed, repository, batcher
      ensures Valid()
      ensures raised == (outcome.Inserted? && outcome.commit.Raised?)
      ensures View(if raised || draining then Closed else Polling)
           == FlushStep(consumer.log, limits, old(View(phase)), draining, during, outcome)
    {
      hide CompleteStep, LateSteps;
      var batch := batcher.Drain();
      submitted := submitted + [batch];
      FinishAll(during, Flushing(batch, draining));
      raised := SubmitFlush(batch, draining, outcome);
    }

    /** One iteration of the loop. */
    method Iteration(turn: Turn) returns (raised: bool)
      requires Valid()
      modifies this, consumer, repository, batcher
      ensures Valid()
      ensures View(if raised then Closed else Polling) == TurnStep(consumer.log, limits, old(View(Polling)), turn)
    {
      hide LateSteps, FlushStep, Apply, PollAction;
      FinishAll(turn.before, Polling);
      raised := PollOnce(turn);
      if raised {
        return;
      }
      FinishAll(turn.between, Checking);
      var due := batcher.ShouldFlush(turn.checkedAt);
      if due {
        raised := DrainAndFlush(false, turn.during, turn.outcome, Checking);
      }
    }

    /** The poll loop: it ends when the stop flag is seen, after the script, or with an exception. */
    method RunPollLoop(script: seq<Turn>, ending: Ending)
      requires Valid()
      modifies this, consumer, repository, batcher
      ensures Valid()
      ensures View(Closed) == LoopResult(consumer.log, limits, old(View(Polling)), script, ending)
    {
      hide TurnStep, FlushStep, LateSteps;
      ghost var result := LoopResult(consumer.log, limits, View(Polling), script, ending);
      var i := 0;
      while i < |script|
        invariant 0 <= i <= |script| && Valid()
        invariant LoopResult(consumer.log, limits, View(Polling), script[i..], ending) == result
      {
        assert script[i..][0] == script[i] && script[i..][1..] == script[i + 1..];
        var raised := Iteration(script[i]);
        if raised {
          return;
        }
        i := i + 1;
      }
      FinishAll(ending.before, Polling);
      if |batcher.buffer| > 0 {
        var _ := DrainAndFlush(true, ending.during, ending.outcome, Polling);
      }
    }
  }

  /** A new process takes over from one whose loop has ended: it starts at the committed offsets. */
  method StartAfter(previous: ClickConsumer) returns (next: ClickConsumer)
    requires previous.Valid()
    modifies previous.repository
    ensures next.Valid() && fresh(next) && fresh(next.consumer) && fresh(next.batcher)
    ensures next.repository == previous.repository
    ensures next.consumer.log == previous.consumer.log && next.limits == previous.limits
    ensures next.View(Polling) == RestartStep(old(previous.View(Closed)))
    ensures next.consumer.position == next.consumer.committed == previous.consumer.committed
    ensures next.batcher.buffer == [] && next.repository.clicks == old(previous.repository.clicks)
    ensures next.repository.orphans == old(previous.repository.orphans) + previous.timedOut
  {
    previous.repository.orphans := previous.repository.orphans + previous.timedOut;
    var consumer := new KafkaConsumer(previous.consumer.log, previous.consumer.committed);
    next := new ClickConsumer(consumer, previous.repository, previous.limits, previous.restarts + 1);
  }

  /** The message at the offset is well formed. */
  ghost predicate IsGood(log: Log, o: Offset) {
    o.partition < |log| && o.index < |log[o.partition]| && log[o.partition][o.index].Good?
  }

  /** The columns of the row are those of the event. */
  ghost predicate RowIs(row: StatsRow, event: ClickEvent) {
    row.urlId == event.urlId && row.userAgent == event.userAgent && row.ipAddress == event.ipAddress
  }

  /** Row `i` has the columns of the message at offset `at[i]`. */
  ghost predicate RowsAreAt(log: Log, rows: seq<StatsRow>, at: seq<Offset>) {
    && |at| == |rows|
    && forall i :: 0 <= i < |rows| ==> IsGood(log, at[i]) && RowIs(rows[i], log[at[i].partition][at[i].index].event)
  }

  /** The rows are, one to one, the well-formed messages of the log below `upTo`. */
  ghost predicate HoldsEachOnce(log: Log, upTo: seq<nat>, rows: seq<StatsRow>) {
    exists at: seq<Offset> ::
      && RowsAreAt(log, rows, at)
      && (forall i, j :: 0 <= i < j < |at| ==> at[i] != at[j])
      && (forall o: Offset :: o in at <==> IsGood(log, o) && o.partition < |upTo| && o.index < upTo[o.partition])
  }

  function OffsetsOf(clicks: seq<Click>): (at: seq<Offset>)
    ensures |at| == |clicks| && forall i :: 0 <= i < |clicks| ==> at[i] == clicks[i].at
  {
    seq(|clicks|, i requires 0 <= i < |clicks| => clicks[i].at)
  }

  lemma {:induction false} ClicksAreRows(log: Log, clicks: seq<Click>)
    requires forall c :: c in clicks ==> IsClick(log, c)
    ensures RowsAreAt(log, RowsOf(clicks), OffsetsOf(clicks))
  {
    forall i | 0 <= i < |clicks|
      ensures IsClick(log, clicks[i])
    {
      assert clicks[i] in clicks;
    }
  }

  lemma {:induction false} TwiceIsTwo(clicks: seq<Click>, i: nat, j: nat)
    requires i < j < |clicks| && clicks[i] == clicks[j]
    ensures multiset(clicks)[clicks[i]] >= 2
  {
    assert clicks == clicks[..j] + clicks[j..];
    assert clicks[..j][i] == clicks[i] && clicks[j..][0] == clicks[i];
    assert multiset(clicks) == multiset(clicks[..j]) + multiset(clicks[j..]);
    assert clicks[i] in clicks[..j] && clicks[i] in clicks[j..];
  }

  lemma {:induction false} OnceEach(log: Log, upTo: seq<nat>, clicks: seq<Click>)
    requires forall c :: multiset(clicks)[c] == if IsClick(log, c) && Below(upTo, c) then 1 else 0
    ensures HoldsEachOnce(log, upTo, RowsOf(clicks))
  {
    var at := OffsetsOf(clicks);
    forall c
      ensures c in clicks <==> IsClick(log, c) && Below(upTo, c)
    {
      assert c in clicks <==> multiset(clicks)[c] > 0;
    }
    ClicksAreRows(log, clicks);
    forall i, j | 0 <= i < j < |at|
      ensures at[i] != at[j]
    {
      assert clicks[i] in clicks && clicks[j] in clicks;
      if clicks[i] == clicks[j] {
        TwiceIsTwo(clicks, i, j);
      }
    }
    forall o: Offset
      ensures o in at <==> IsGood(log, o) && o.partition < |upTo| && o.index < upTo[o.partition]
    {
      OffsetOnce(log, upTo, clicks, o);
    }
  }

  lemma {:induction false} OffsetOnce(log: Log, upTo: seq<nat>, clicks: seq<Click>, o: Offset)
    requires forall c :: c in clicks <==> IsClick(log, c) && Below(upTo, c)
    ensures o in OffsetsOf(clicks) <==> IsGood(log, o) && o.partition < |upTo| && o.index < upTo[o.partition]
  {
    if o in OffsetsOf(clicks) {
      var i :| 0 <= i < |clicks| && clicks[i].at == o;
      assert clicks[i] in clicks;
    }
    if IsGood(log, o) && o.partition < |upTo| && o.index < upTo[o.partition] {
      var c := Click(o, log[o.partition][o.index].event);
      assert c in clicks;
      var i :| 0 <= i < |clicks| && clicks[i] == c;
      assert OffsetsOf(clicks)[i] == o;
    }
  }

  lemma {:induction false} LivesFacts(log: Log, l: Limits, lives: seq<Lifetime>)
    requires lives != []
    ensures var w := LivesResult(log, l, lives);
            && OffsetsInv(log, w)
            && w.malformed + w.inserted <= w.consumed
            && (exists at :: RowsAreAt(log, RowsOf(w.rows), at))
            && (AllSmooth(lives) ==>
                 w.committed == w.position && HoldsEachOnce(log, w.position, RowsOf(w.rows))
                 && w.consumed == w.malformed + w.inserted)
  {
    hide Legal, Exec, AllClean, LivesResult, AllSmooth, HoldsEachOnce, RowsAreAt, CopiesInv, BatchesInv;
    var run := LivesAreRun(log, l, lives);
    var w := LivesResult(log, l, lives);
    InvInit(log, l);
    InvRun(log, l, Init(log), run);
    RowsRun(log, l, Init(log), run);
    ClicksAreRows(log, w.rows);
    if AllSmooth(lives) {
      OnceRun(log, l, Init(log), run);
      ExactlyOnce(log, l, run);
      OnceEach(log, w.position, w.rows);
    }
  }

  /**
   * The worker over any number of lifetimes, each from its first poll to the close of its consumer:
   * the rows, the offsets and the last lifetime's counters. Every row has the columns of a message
   * of the log. If nothing fails, each poll of a partition has read its next message, and the rows
   * are, one to one, the well-formed messages read.
   */
  method RunWorker(log: Log, limits: Limits, lives: seq<Lifetime>)
    returns (rows: seq<StatsRow>, position: seq<nat>, committed: seq<nat>, consumed: nat, malformed: nat, inserted: nat)
    requires lives != []
    ensures var w := LivesResult(log, limits, lives);
            && rows == RowsOf(w.rows) && position == w.position && committed == w.committed
            && consumed == w.consumed && malformed == w.malformed && inserted == w.inserted
    ensures |committed| == |position| == |log|
    ensures forall p :: 0 <= p < |log| ==> committed[p] <= position[p] <= |log[p]|
    ensures malformed + inserted <= consumed
    ensures exists at :: RowsAreAt(log, rows, at)
    ensures AllSmooth(lives) ==>
      committed == position && HoldsEachOnce(log, position, rows) && consumed == malformed + inserted
    ensures AllSmooth(lives) ==> forall p: nat :: p < |log| ==> position[p] == Min(|log[p]|, PollsOfAll(lives, p))
  {
    hide LoopResult, RestartStep, AllSmooth, HoldsEachOnce, RowsAreAt, PollsOfAll;
    LivesFacts(log, limits, lives);
    if AllSmooth(lives) {
      forall p: nat | p < |log| {
        SmoothPosition(log, limits, lives, p);
      }
    }
    var consumer := new KafkaConsumer(log, Zeros(|log|));
    var repository := new UrlStatsBulkRepository();
    var worker := new ClickConsumer(consumer, repository, limits, 0);
    worker.RunPollLoop(lives[0].script, lives[0].ending);
    for i := 1 to |lives|
      invariant worker.Valid() && worker.consumer.log == log && worker.limits == limits
      invariant fresh(worker) && fresh(worker.consumer) && fresh(worker.repository) && fresh(worker.batcher)
      invariant LaterLives(log, limits, worker.View(Closed), lives[i..]) == LivesResult(log, limits, lives)
    {
      assert lives[i..][0] == lives[i] && lives[i..][1..] == lives[i + 1..];
      worker := StartAfter(worker);
      worker.RunPollLoop(lives[i].script, lives[i].ending);
    }
    rows, position, committed := worker.repository.rows, worker.consumer.position, worker.consumer.committed;
    consumed, malformed, inserted := worker.consumed, worker.malformed, worker.inserted;
  }
}
