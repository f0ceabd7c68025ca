/**
 * The report job record and its status enum.
 *
 * `DateTime` values are modelled as ticks (`int`) and the `Guid` identifier
 * as a `nat`, with 0 standing for `Guid.Empty`.
 */
module ReportJobs {
  import opened Wrappers

  /** The status enum, in declaration order; the first member is the enum's default. */
  datatype ReportStatus = Pending | Processing | Completed

  /** One row of the report-job table. Every field has a public setter in the source. */
  datatype ReportJob = ReportJob(
    id: nat,
    reportType: string,
    startDate: int,
    endDate: int,
    status: ReportStatus,
    createdAt: int)

  /** The enum's underlying integer value. */
  function Ordinal(s: ReportStatus): (n: nat)
    ensures n < 3
    ensures FromOrdinal(n) == Some(s)
  {
    match s
    case Pending => 0
    case Processing => 1
    case Completed => 2
  }

  /** The inverse of `Ordinal`: exactly 0, 1 and 2 name a status. */
  function FromOrdinal(n: int): (r: Option<ReportStatus>)
    ensures r.Some? <==> 0 <= n < 3
    ensures r.Some? ==> r.value.Pending? == (n == 0) && r.value.Completed? == (n == 2)
  {
    if n == 0 then Some(Pending)
    else if n == 1 then Some(Processing)
    else if n == 2 then Some(Completed)
    else None
  }

  /** Status `to` is `from` or lies further along Pending, Processing, Completed. */
  predicate AdvancesTo(from: ReportStatus, to: ReportStatus) {
    Ordinal(from) <= Ordinal(to)
  }

  /** The two transitions the processor performs: one step forward. */
  predicate IsTransition(from: ReportStatus, to: ReportStatus) {
    Ordinal(to) == Ordinal(from) + 1
  }

  /** Two snapshots of the same job that differ at most in `status`. */
  predicate SameExceptStatus(a: ReportJob, b: ReportJob) {
    && a.id == b.id
    && a.reportType == b.reportType
    && a.startDate == b.startDate
    && a.endDate == b.endDate
    && a.createdAt == b.createdAt
  }

  /** The transitions form the chain Pending -> Processing -> Completed; Completed has no successor. */
  lemma TransitionsAreTheChain(from: ReportStatus, to: ReportStatus)
    ensures IsTransition(from, to) <==> (from == Pending && to == Processing) || (from == Processing && to == Completed)
    ensures IsTransition(from, to) ==> AdvancesTo(from, to) && from != to
  {
  }

  /** A freshly constructed record: every field holds its type's default. */
  function DefaultJob(): (j: ReportJob)
    ensures j.reportType == ""
    ensures Ordinal(j.status) == 0 && j.status == Pending
    ensures j.id == 0
  {
    ReportJob(0, "", 0, 0, Pending, 0)
  }

  /** The `Status` setter: assigns the status and leaves every other field as it was. */
  function WithStatus(j: ReportJob, s: ReportStatus): (r: ReportJob)
    ensures r.status == s
    ensures SameExceptStatus(j, r)
  {
    j.(status := s)
  }

  /**
   * The setter does not enforce forward-only progress: a Completed job can be
   * set back to Pending. Forward-only progress is a property of the callers.
   */
  lemma SetterAllowsRegression(j: ReportJob)
    requires j.status == Completed
    ensures !AdvancesTo(j.status, WithStatus(j, Pending).status)
  {
  }
}
