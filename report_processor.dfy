/**
 * The background processor: each iteration claims the oldest pending job,
 * moves it to Processing, saves and broadcasts, does the work, moves it to
 * Completed, saves and broadcasts. An exception anywhere ends the iteration
 * without rollback and the loop goes round again.
 */
module Processor {
  import opened Wrappers
  import opened ReportJobs
  import opened Store

  /** The step at which an iteration throws, in the order the steps run. */
  datatype FailurePoint =
    | FailQuery        // the oldest-pending query
    | FailFirstSave    // saving the Processing status
    | FailFirstSend    // broadcasting the Processing snapshot
    | FailWork         // the simulated work
    | FailSecondSave   // saving the Completed status
    | FailSecondSend   // broadcasting the Completed snapshot
    | NoFailure

  /** How one iteration ended. */
  datatype Outcome = Processed(id: nat) | Idle | Failed(at: FailurePoint)

  /** The table, the snapshots broadcast and the outcome after one iteration. */
  datatype Effect = Effect(rows: seq<ReportJob>, sent: seq<ReportJob>, outcome: Outcome)

  /** The same after a run of iterations; `sent` and `outcomes` are in order. */
  datatype RunResult = RunResult(rows: seq<ReportJob>, sent: seq<ReportJob>, outcomes: seq<Outcome>)

  predicate HasPending(rows: seq<ReportJob>) {
    exists k :: 0 <= k < |rows| && rows[k].status == Pending
  }

  predicate NoneProcessing(rows: seq<ReportJob>) {
    forall k :: 0 <= k < |rows| ==> rows[k].status != Processing
  }

  /** The number of rows whose status is `s`. */
  function Count(rows: seq<ReportJob>, s: ReportStatus): (n: nat)
    ensures n <= |rows|
  {
    if rows == [] then 0
    else Count(rows[..|rows| - 1], s) + (if rows[|rows| - 1].status == s then 1 else 0)
  }

  /**
   * The query for the oldest pending job: a Pending row with no Pending row
   * created strictly earlier. Among equal `createdAt` the earliest row wins.
   */
  function OldestPending(rows: seq<ReportJob>): (r: Option<nat>)
    ensures r.None? <==> !HasPending(rows)
    ensures r.Some? ==> r.value < |rows| && rows[r.value].status == Pending
    ensures r.Some? ==> forall k :: 0 <= k < |rows| && rows[k].status == Pending ==>
                          rows[r.value].createdAt <= rows[k].createdAt
  {
    if rows == [] then None
    else
      var rest := OldestPending(rows[..|rows| - 1]);
      var last := rows[|rows| - 1];
      if last.status == Pending && (rest.None? || last.createdAt < rows[rest.value].createdAt)
      then Some(|rows| - 1)
      else rest
  }

  /** The number of broadcasts an iteration that claimed a job completes before `fail`. */
  function SendsBefore(fail: FailurePoint): nat {
    match fail
    case FailQuery => 0
    case FailFirstSave => 0
    case FailFirstSend => 0
    case FailWork => 1
    case FailSecondSave => 1
    case FailSecondSend => 1
    case NoFailure => 2
  }

  /** The failures that leave the claimed job stranded in Processing. */
  predicate Strands(fail: FailurePoint) {
    fail == FailFirstSend || fail == FailWork || fail == FailSecondSave
  }

  /**
   * One iteration of the processor loop, as a function of the table: the
   * table afterwards, the snapshots broadcast, and the outcome. Its
   * properties are the lemmas Iterate* below.
   */
  function Iterate(rows: seq<ReportJob>, fail: FailurePoint): (e: Effect)
    ensures |e.rows| == |rows|
  {
    if fail == FailQuery then Effect(rows, [], Failed(FailQuery))
    else match OldestPending(rows)
      case None => Effect(rows, [], Idle)
      case Some(i) =>
        var processing := WithStatus(rows[i], Processing);
        var completed := WithStatus(processing, Completed);
        // the table holds the last status whose save succeeded
        var stored :=
          if fail == FailFirstSave then rows
          else if Strands(fail) then rows[i := processing]
          else rows[i := completed];
        // the snapshots whose sends succeeded, in the order they were sent
        var sent := [processing, completed][..SendsBefore(fail)];
        Effect(stored, sent, if fail == NoFailure then Processed(rows[i].id) else Failed(fail))
  }

  /**
   * An iteration changes only statuses, only forward, and only that of the
   * oldest pending job; a job that is not Pending is never touched.
   */
  lemma IterateFrame(rows: seq<ReportJob>, fail: FailurePoint)
    ensures var e := Iterate(rows, fail);
            forall k :: 0 <= k < |rows| ==>
              SameExceptStatus(rows[k], e.rows[k]) && AdvancesTo(rows[k].status, e.rows[k].status)
    ensures var e := Iterate(rows, fail);
            forall k :: 0 <= k < |rows| && e.rows[k] != rows[k] ==>
              rows[k].status == Pending && OldestPending(rows) == Some(k)
  {
    if fail != FailQuery && HasPending(rows) {
      var i := OldestPending(rows).value;
      var e := Iterate(rows, fail);
      assert e.rows == rows || e.rows == rows[i := WithStatus(rows[i], e.rows[i].status)];
      assert e.rows[i].status == Pending || e.rows[i].status == Processing || e.rows[i].status == Completed;
    }
  }

  /** Processed exactly when nothing fails and a job is pending; Idle exactly when the query finds none. */
  lemma IterateOutcome(rows: seq<ReportJob>, fail: FailurePoint)
    ensures var e := Iterate(rows, fail);
            && (e.outcome.Idle? <==> fail != FailQuery && !HasPending(rows))
            && (e.outcome.Processed? <==> fail == NoFailure && HasPending(rows))
            && (e.outcome.Failed? <==> fail != NoFailure && (fail == FailQuery || HasPending(rows)))
            && (e.outcome.Failed? ==> e.outcome.at == fail)
            && (e.outcome.Processed? ==> e.outcome.id == rows[OldestPending(rows).value].id)
  {
  }

  /** No claim, or a claim whose Processing save failed: no change and no broadcast. */
  lemma IterateWithoutClaim(rows: seq<ReportJob>, fail: FailurePoint)
    requires fail == FailQuery || fail == FailFirstSave || !HasPending(rows)
    ensures Iterate(rows, fail).rows == rows && Iterate(rows, fail).sent == []
  {
  }

  /**
   * A claim: the oldest pending job ends in Processing when a failure strands
   * it and in Completed otherwise, and the broadcasts are its Processing and
   * then its Completed snapshot, cut off at the failure; no broadcast
   * announces a status that is not yet saved.
   */
  lemma IterateClaim(rows: seq<ReportJob>, fail: FailurePoint)
    requires fail != FailQuery && fail != FailFirstSave && HasPending(rows)
    ensures var i := OldestPending(rows).value;
            var e := Iterate(rows, fail);
            && e.rows == rows[i := WithStatus(rows[i], if Strands(fail) then Processing else Completed)]
            && e.sent == [WithStatus(rows[i], Processing), WithStatus(rows[i], Completed)][..SendsBefore(fail)]
            && (forall m :: 0 <= m < |e.sent| ==> AdvancesTo(e.sent[m].status, e.rows[i].status))
            && (|e.sent| > 0 ==> IsTransition(rows[i].status, e.sent[0].status))
            && (forall m :: 0 < m < |e.sent| ==> IsTransition(e.sent[m - 1].status, e.sent[m].status))
  {
    var i := OldestPending(rows).value;
    var e := Iterate(rows, fail);
    var both := [WithStatus(rows[i], Processing), WithStatus(rows[i], Completed)];
    assert e.rows[i] == WithStatus(rows[i], if Strands(fail) then Processing else Completed);
    if SendsBefore(fail) == 0 {
      assert e.sent == [];
    } else if SendsBefore(fail) == 1 {
      assert e.sent == [both[0]];
    } else {
      assert e.sent == both && !Strands(fail);
    }
    assert |e.sent| > 0 ==> e.sent[0].status == Processing;
    assert |e.sent| > 1 ==> e.sent[1].status == Completed;
  }

  /** The iterations of a run, one per entry of `schedule`, the failure each one meets. */
  function Run(rows: seq<ReportJob>, schedule: seq<FailurePoint>): (r: RunResult)
    ensures |r.rows| == |rows|
    ensures |r.outcomes| == |schedule|
  {
    if schedule == [] then RunResult(rows, [], [])
    else Step(Run(rows, schedule[..|schedule| - 1]), schedule[|schedule| - 1])
  }

  /** A run extended by one more iteration. */
  function Step(prev: RunResult, fail: FailurePoint): (r: RunResult)
    ensures |r.rows| == |prev.rows| && |r.outcomes| == |prev.outcomes| + 1
  {
    var e := Iterate(prev.rows, fail);
    RunResult(e.rows, prev.sent + e.sent, prev.outcomes + [e.outcome])
  }

  /** A run extended by one iteration. */
  lemma RunAppend(rows: seq<ReportJob>, schedule: seq<FailurePoint>, fail: FailurePoint)
    ensures var prev := Run(rows, schedule);
            var e := Iterate(prev.rows, fail);
            Run(rows, schedule + [fail]) == RunResult(e.rows, prev.sent + e.sent, prev.outcomes + [e.outcome])
  {
    assert (schedule + [fail])[..|schedule|] == schedule;
  }

  /** The run over the first `i + 1` scheduled iterations extends the run over the first `i`. */
  lemma RunStep(rows: seq<ReportJob>, schedule: seq<FailurePoint>, i: nat)
    requires i < |schedule|
    ensures Run(rows, schedule[..i + 1]) == Step(Run(rows, schedule[..i]), schedule[i])
  {
    assert schedule[..i + 1] == schedule[..i] + [schedule[i]];
    RunAppend(rows, schedule[..i], schedule[i]);
  }

  /** One iteration of the loop body, against the table and the hub. */
  method RunIteration(db: Database, hub: Hub, fail: FailurePoint) returns (outcome: Outcome)
    requires db.Valid()
    modifies db, hub
    ensures db.Valid()
    ensures var e := Iterate(old(db.rows), fail);
            db.rows == e.rows && hub.sent == old(hub.sent) + e.sent && outcome == e.outcome
  {
    if fail == FailQuery {
      return Failed(fail);
    }
    var found := OldestPending(db.rows);
    if found.None? {
      return Idle;
    }
    var i := found.value;
    var job := db.rows[i];
    var ok;

    job := WithStatus(job, Processing);
    ok := db.SaveRow(i, job, fail == FailFirstSave);
    if !ok {
      return Failed(fail);
    }
    ok := hub.SendToAll(job, fail == FailFirstSend);
    if !ok {
      return Failed(fail);
    }

    if fail == FailWork {
      return Failed(fail);
    }

    ghost var processing := job;
    job := WithStatus(job, Completed);
    ok := db.SaveRow(i, job, fail == FailSecondSave);
    if !ok {
      return Failed(fail);
    }
    AppendAssociative(old(hub.sent), [processing], [job]);
    ok := hub.SendToAll(job, fail == FailSecondSend);
    if !ok {
      return Failed(fail);
    }
    outcome := Processed(job.id);
  }

  /**
   * The processor loop: one iteration per entry of `schedule`, whatever the
   * previous iteration's outcome. The end of the schedule stands for cancellation.
   */
  method ExecuteAsync(db: Database, hub: Hub, schedule: seq<FailurePoint>) returns (outcomes: seq<Outcome>)
    requires db.Valid()
    modifies db, hub
    ensures db.Valid()
    ensures var r := Run(old(db.rows), schedule);
            db.rows == r.rows && hub.sent == old(hub.sent) + r.sent && outcomes == r.outcomes
  {
    ghost var rows0, sent0 := db.rows, hub.sent;
    ghost var run := RunResult(rows0, [], []);
    outcomes := [];
    var i := 0;
    while i < |schedule|
      invariant 0 <= i <= |schedule|
      invariant db.Valid()
      invariant run == Run(rows0, schedule[..i])
      invariant db.rows == run.rows && hub.sent == sent0 + run.sent && outcomes == run.outcomes
    {
      RunStep(rows0, schedule, i);
      var outcome := RunIteration(db, hub, schedule[i]);
      AppendAssociative(sent0, run.sent, Iterate(run.rows, schedule[i]).sent);
      outcomes := outcomes + [outcome];
      run := Step(run, schedule[i]);
      i := i + 1;
    }
    assert schedule[..|schedule|] == schedule;
  }

  /** Broadcasts appended one iteration at a time extend the log the same as all at once. */
  lemma AppendAssociative(a: seq<ReportJob>, b: seq<ReportJob>, c: seq<ReportJob>)
    ensures (a + b) + c == a + (b + c)
  {
    assert |(a + b) + c| == |a + (b + c)|;
  }

  // ---------------------------------------------------------------------
  // Properties of runs

  /**
   * Over any run, every job keeps its identity and data and its status only
   * moves forward; a job already in Processing or Completed is never touched
   * again, so a stranded job stays in Processing for good.
   */
  lemma {:induction false} RunOnlyAdvancesStatus(rows: seq<ReportJob>, schedule: seq<FailurePoint>)
    ensures var r := Run(rows, schedule);
            forall k :: 0 <= k < |rows| ==>
              SameExceptStatus(rows[k], r.rows[k]) && AdvancesTo(rows[k].status, r.rows[k].status)
    ensures var r := Run(rows, schedule);
            forall k :: 0 <= k < |rows| && rows[k].status != Pending ==> r.rows[k] == rows[k]
  {
    if schedule != [] {
      var n := |schedule| - 1;
      RunOnlyAdvancesStatus(rows, schedule[..n]);
      IterateFrame(Run(rows, schedule[..n]).rows, schedule[n]);
    }
  }

  /** A failure-free run that starts with no job in Processing ends with none, and never fails. */
  lemma {:induction false} FailureFreeRunStrandsNothing(rows: seq<ReportJob>, schedule: seq<FailurePoint>)
    requires NoneProcessing(rows)
    requires forall m :: 0 <= m < |schedule| ==> schedule[m] == NoFailure
    ensures NoneProcessing(Run(rows, schedule).rows)
    ensures forall m :: 0 <= m < |schedule| ==> !Run(rows, schedule).outcomes[m].Failed?
  {
    if schedule != [] {
      var n := |schedule| - 1;
      FailureFreeRunStrandsNothing(rows, schedule[..n]);
      var prev := Run(rows, schedule[..n]).rows;
      IterateOutcome(prev, NoFailure);
      if HasPending(prev) {
        IterateClaim(prev, NoFailure);
      } else {
        IterateWithoutClaim(prev, NoFailure);
      }
    }
  }

  /**
   * Only the failures between the Processing save and the Completed save
   * strand a job: a run without them that starts with no job in Processing
   * ends with none.
   */
  lemma {:induction false} RunWithoutStrandingKeepsNoneProcessing(rows: seq<ReportJob>, schedule: seq<FailurePoint>)
    requires NoneProcessing(rows)
    requires forall m :: 0 <= m < |schedule| ==> !Strands(schedule[m])
    ensures NoneProcessing(Run(rows, schedule).rows)
  {
    if schedule != [] {
      var n := |schedule| - 1;
      RunWithoutStrandingKeepsNoneProcessing(rows, schedule[..n]);
      var prev := Run(rows, schedule[..n]).rows;
      if schedule[n] != FailQuery && schedule[n] != FailFirstSave && HasPending(prev) {
        IterateClaim(prev, schedule[n]);
      } else {
        IterateWithoutClaim(prev, schedule[n]);
      }
    }
  }

  /** Changing row `i` to `x` changes each status count by what left and what arrived. */
  lemma {:induction false} CountUpdate(rows: seq<ReportJob>, i: nat, x: ReportJob, s: ReportStatus)
    requires i < |rows|
    ensures Count(rows[i := x], s) ==
            Count(rows, s) - (if rows[i].status == s then 1 else 0) + (if x.status == s then 1 else 0)
  {
    var n := |rows| - 1;
    if i < n {
      assert rows[i := x][..n] == rows[..n][i := x];
      CountUpdate(rows[..n], i, x, s);
    } else {
      assert rows[i := x][..n] == rows[..n];
    }
  }

  /** Some row has status `s` exactly when the count of `s` is positive. */
  lemma {:induction false} CountPositive(rows: seq<ReportJob>, s: ReportStatus)
    ensures Count(rows, s) > 0 <==> exists k :: 0 <= k < |rows| && rows[k].status == s
  {
    if rows != [] {
      var n := |rows| - 1;
      CountPositive(rows[..n], s);
      if exists k :: 0 <= k < n && rows[..n][k].status == s {
        var k :| 0 <= k < n && rows[..n][k].status == s;
        assert rows[k].status == s;
      }
      if exists k :: 0 <= k < |rows| && rows[k].status == s {
        var k :| 0 <= k < |rows| && rows[k].status == s;
        if k < n {
          assert rows[..n][k].status == s;
        }
      }
    }
  }

  /** An iteration that fails after the Processing save strands exactly one more job. */
  lemma StrandingIterationAddsOne(rows: seq<ReportJob>, fail: FailurePoint)
    requires Strands(fail) && HasPending(rows)
    ensures Count(Iterate(rows, fail).rows, Processing) == Count(rows, Processing) + 1
    ensures Count(Iterate(rows, fail).rows, Pending) == Count(rows, Pending) - 1
  {
    var i := OldestPending(rows).value;
    var e := Iterate(rows, fail);
    assert e.rows == rows[i := e.rows[i]];
    CountUpdate(rows, i, e.rows[i], Processing);
    CountUpdate(rows, i, e.rows[i], Pending);
  }

  /**
   * Stranded jobs accumulate: while pending jobs remain, every iteration that
   * fails after its Processing save leaves one more job in Processing.
   */
  lemma {:induction false} StrandedJobsAccumulate(rows: seq<ReportJob>, schedule: seq<FailurePoint>)
    requires forall m :: 0 <= m < |schedule| ==> Strands(schedule[m])
    requires |schedule| <= Count(rows, Pending)
    ensures Count(Run(rows, schedule).rows, Processing) == Count(rows, Processing) + |schedule|
    ensures Count(Run(rows, schedule).rows, Pending) == Count(rows, Pending) - |schedule|
  {
    if schedule != [] {
      var n := |schedule| - 1;
      StrandedJobsAccumulate(rows, schedule[..n]);
      var prev := Run(rows, schedule[..n]).rows;
      CountPositive(prev, Pending);
      StrandingIterationAddsOne(prev, schedule[n]);
    }
  }

  /**
   * Claims follow creation order: a job claimed by the next iteration was
   * created no earlier than the one claimed before it, and once the claim's
   * Processing save succeeded the same job is not claimed again.
   */
  lemma ConsecutiveClaimsInCreationOrder(rows: seq<ReportJob>, first: FailurePoint)
    requires first != FailQuery && HasPending(rows)
    requires HasPending(Iterate(rows, first).rows)
    ensures var i := OldestPending(rows).value;
            var after := Iterate(rows, first).rows;
            var j := OldestPending(after).value;
            && rows[i].createdAt <= after[j].createdAt
            && (first != FailFirstSave ==> j != i)
  {
    var i := OldestPending(rows).value;
    var after := Iterate(rows, first).rows;
    var j := OldestPending(after).value;
    assert rows[j].status == Pending;
  }

  /** A failed query does not stop the loop: the next iteration processes the oldest pending job. */
  lemma QueryFailureRecovers(rows: seq<ReportJob>)
    requires HasPending(rows)
    ensures Run(rows, [FailQuery, NoFailure]).outcomes ==
            [Failed(FailQuery), Processed(rows[OldestPending(rows).value].id)]
  {
    RunAppend(rows, [], FailQuery);
    assert [] + [FailQuery] == [FailQuery];
    RunAppend(rows, [FailQuery], NoFailure);
    assert [FailQuery] + [NoFailure] == [FailQuery, NoFailure];
  }

  /**
   * Two pending jobs, `a` created before `b`, and two failure-free iterations:
   * `a` is claimed and completed before `b` is claimed, and the broadcasts are
   * a's Processing and Completed snapshots followed by b's.
   */
  lemma TwoJobsServedInOrder(a: ReportJob, b: ReportJob)
    requires a.status == Pending && b.status == Pending && a.createdAt < b.createdAt
    ensures var r := Run([a, b], [NoFailure, NoFailure]);
            && r.outcomes == [Processed(a.id), Processed(b.id)]
            && r.rows == [WithStatus(a, Completed), WithStatus(b, Completed)]
            && r.sent == [WithStatus(a, Processing), WithStatus(a, Completed),
                          WithStatus(b, Processing), WithStatus(b, Completed)]
  {
    FirstOfTwoServed(a, b);
    RunAppend([a, b], [NoFailure], NoFailure);
    assert [NoFailure] + [NoFailure] == [NoFailure, NoFailure];
    var mid := [WithStatus(a, Completed), b];
    var r1 := RunResult(mid, [WithStatus(a, Processing), WithStatus(a, Completed)], [Processed(a.id)]);
    // the second iteration claims and completes `b`
    assert mid[..1] == [WithStatus(a, Completed)];
    assert OldestPending(mid) == Some(1);
    ServeOldest(r1);
  }

  /** The first of two failure-free iterations completes the older of two pending jobs. */
  lemma FirstOfTwoServed(a: ReportJob, b: ReportJob)
    requires a.status == Pending && b.status == Pending && a.createdAt < b.createdAt
    ensures Run([a, b], [NoFailure]) ==
            RunResult([WithStatus(a, Completed), b],
                      [WithStatus(a, Processing), WithStatus(a, Completed)], [Processed(a.id)])
  {
    RunAppend([a, b], [], NoFailure);
    assert [] + [NoFailure] == [NoFailure];
    assert [a, b][..1] == [a];
    assert OldestPending([a, b]) == Some(0);
    ServeOldest(RunResult([a, b], [], []));
    assert [a, b][0 := WithStatus(a, Completed)] == [WithStatus(a, Completed), b];
  }

  /** A failure-free iteration completes the oldest pending job and broadcasts it twice. */
  lemma ServeOldest(prev: RunResult)
    requires HasPending(prev.rows)
    ensures var i := OldestPending(prev.rows).value;
            var job := prev.rows[i];
            Step(prev, NoFailure) ==
              RunResult(prev.rows[i := WithStatus(job, Completed)],
                        prev.sent + [WithStatus(job, Processing), WithStatus(job, Completed)],
                        prev.outcomes + [Processed(job.id)])
  {
    IterateClaim(prev.rows, NoFailure);
    IterateOutcome(prev.rows, NoFailure);
  }
}
