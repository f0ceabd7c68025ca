/**
 * How the two halves meet: a job the create handler stores is picked up
 * by the processor's query in its turn.
 */
module Pipeline {
  import opened Wrappers
  import opened ReportJobs
  import opened Endpoints
  import opened Processor

  /**
   * A job created strictly later than every stored job joins the queue
   * behind every pending job already there: the next claim is unchanged if
   * some job was pending, and is the new job if none was.
   */
  lemma {:induction false} CreatedJobJoinsQueueLast(rows: seq<ReportJob>, dto: CreateReportDto, id: nat, now: int)
    requires !IsNullOrEmpty(dto.reportType)
    requires forall k :: 0 <= k < |rows| ==> rows[k].createdAt < now
    ensures HasPending(rows + [NewJob(dto, id, now)])
    ensures OldestPending(rows + [NewJob(dto, id, now)]) ==
            if HasPending(rows) then OldestPending(rows) else Some(|rows|)
  {
    var all := rows + [NewJob(dto, id, now)];
    assert all[..|all| - 1] == rows;
    assert all[|rows|].status == Pending;
  }
}
