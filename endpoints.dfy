/**
 * The two HTTP handlers on `/reports`: creating a job (validate, build a
 * Pending job, add, save, broadcast) and listing every job newest first.
 * The fresh identifier and the current time are parameters, as is whether
 * each collaborator throws.
 */
module Endpoints {
  import opened Wrappers
  import opened ReportJobs
  import opened Store

  /** The request body; `None` stands for a null `ReportType`. */
  datatype CreateReportDto = CreateReportDto(reportType: Option<string>, startDate: int, endDate: int)

  /** The HTTP results the handlers return. */
  datatype HttpResult =
    | Ok(jobs: seq<ReportJob>)
    | Created(job: ReportJob)
    | BadRequest(message: string)
    | Problem(statusCode: int)

  const ReportTypeRequired: string := "ReportType is required."
  const InternalServerError: int := 500

  /** `string.IsNullOrEmpty`. */
  predicate IsNullOrEmpty(s: Option<string>) {
    s.None? || s.value == ""
  }

  /**
   * The job the create handler builds: Pending, stamped with `now`, and with
   * the request's type and dates copied unchanged; nothing relates the two dates.
   */
  function NewJob(dto: CreateReportDto, id: nat, now: int): (j: ReportJob)
    requires !IsNullOrEmpty(dto.reportType)
    ensures j.status == Pending
    ensures j.id == id && j.createdAt == now
    ensures Some(j.reportType) == dto.reportType && j.reportType != ""
    ensures j.startDate == dto.startDate && j.endDate == dto.endDate
  {
    ReportJob(id, dto.reportType.value, dto.startDate, dto.endDate, Pending, now)
  }

  /** What one call of the create handler stores, broadcasts and returns. */
  datatype CreateEffect = CreateEffect(stored: seq<ReportJob>, sent: seq<ReportJob>, result: HttpResult)

  /**
   * POST /reports. A missing type is a 400 with nothing stored or sent.
   * Otherwise one Pending job is built under the fresh id. If the save throws,
   * the caller gets a 500 and nothing is stored or sent. If the broadcast
   * throws, the job stays stored and the caller still gets a 500. Otherwise
   * the job is broadcast and returned.
   */
  function Create(dto: CreateReportDto, id: nat, now: int, saveFails: bool, sendFails: bool): (e: CreateEffect)
    ensures e.result.BadRequest? <==> IsNullOrEmpty(dto.reportType)
    ensures e.result.BadRequest? ==> e.result.message == ReportTypeRequired && e.stored == [] && e.sent == []
    ensures e.result.Created? <==> !IsNullOrEmpty(dto.reportType) && !saveFails && !sendFails
    ensures e.result.Created? ==> e.stored == e.sent == [e.result.job] && e.result.job.id == id
    ensures e.result.Problem? <==> !IsNullOrEmpty(dto.reportType) && (saveFails || sendFails)
    ensures e.result.Problem? ==> e.result.statusCode == InternalServerError && e.sent == []
    // at most one record, and only a saved record is ever broadcast
    ensures |e.stored| <= 1 && (e.sent != [] ==> e.sent == e.stored)
    ensures e.stored != [] <==> !IsNullOrEmpty(dto.reportType) && !saveFails
    ensures e.stored != [] ==> e.stored[0] == NewJob(dto, id, now)
  {
    if IsNullOrEmpty(dto.reportType) then CreateEffect([], [], BadRequest(ReportTypeRequired))
    else
      var job := NewJob(dto, id, now);
      if saveFails then CreateEffect([], [], Problem(InternalServerError))
      else if sendFails then CreateEffect([job], [], Problem(InternalServerError))
      else CreateEffect([job], [job], Created(job))
  }

  /** The request body as constructed without a payload: its `ReportType` is the empty string. */
  function DefaultDto(): (dto: CreateReportDto)
    ensures dto.reportType == Some("")
  {
    CreateReportDto(Some(""), 0, 0)
  }

  /** A request whose `ReportType` was left at its default is rejected with nothing stored or sent. */
  lemma DefaultDtoIsRejected(id: nat, now: int, saveFails: bool, sendFails: bool)
    ensures Create(DefaultDto(), id, now, saveFails, sendFails) == CreateEffect([], [], BadRequest(ReportTypeRequired))
  {
  }

  /** The create handler against the table and the hub: exactly the effect `Create` describes. */
  method CreateReport(db: Database, hub: Hub, dto: CreateReportDto, id: nat, now: int,
                      saveFails: bool, sendFails: bool) returns (result: HttpResult)
    requires db.Valid() && IsFreshId(db.rows, id)
    modifies db, hub
    ensures db.Valid()
    ensures var e := Create(dto, id, now, saveFails, sendFails);
            db.rows == old(db.rows) + e.stored && hub.sent == old(hub.sent) + e.sent && result == e.result
  {
    if IsNullOrEmpty(dto.reportType) {
      return BadRequest(ReportTypeRequired);
    }
    var job := NewJob(dto, id, now);
    var ok := db.AddAndSave(job, saveFails);
    if !ok {
      return Problem(InternalServerError);
    }
    ok := hub.SendToAll(job, sendFails);
    if !ok {
      return Problem(InternalServerError);
    }
    result := Created(job);
  }

  // ---------------------------------------------------------------------
  // GET /reports

  /** Ordered by `createdAt`, newest first. */
  predicate NewestFirst(s: seq<ReportJob>) {
    forall i, j :: 0 <= i < j < |s| ==> s[i].createdAt >= s[j].createdAt
  }

  /** Inserts `x` into a newest-first sequence, ahead of every job created no later than it. */
  function InsertNewestFirst(x: ReportJob, s: seq<ReportJob>): (r: seq<ReportJob>)
    requires NewestFirst(s)
    ensures NewestFirst(r)
    ensures multiset(r) == multiset(s) + multiset{x}
    ensures |r| == |s| + 1 && (r[0] == x || (s != [] && r[0] == s[0]))
  {
    if s == [] || x.createdAt >= s[0].createdAt then
      PrependKeepsNewestFirst(x, s);
      [x] + s
    else
      TailKeepsNewestFirst(s);
      var rest := InsertNewestFirst(x, s[1..]);
      PrependKeepsNewestFirst(s[0], rest);
      KeepHeadMultiset(s, rest, x);
      [s[0]] + rest
  }

  /** Dropping the newest job keeps a sequence newest-first, and the head is no older than the rest. */
  lemma TailKeepsNewestFirst(s: seq<ReportJob>)
    requires NewestFirst(s) && s != []
    ensures NewestFirst(s[1..])
    ensures forall j :: 1 <= j < |s| ==> s[0].createdAt >= s[j].createdAt
  {
    forall i, j | 0 <= i < j < |s| - 1 ensures s[1..][i].createdAt >= s[1..][j].createdAt {
      assert s[1..][i] == s[i + 1] && s[1..][j] == s[j + 1];
    }
  }

  /** Putting the head back in front of `rest` restores the multiset of `s` plus `x`. */
  lemma KeepHeadMultiset(s: seq<ReportJob>, rest: seq<ReportJob>, x: ReportJob)
    requires s != [] && multiset(rest) == multiset(s[1..]) + multiset{x}
    ensures multiset([s[0]] + rest) == multiset(s) + multiset{x}
  {
    assert s == [s[0]] + s[1..];
  }

  /** A job no older than the head of a newest-first sequence can go in front of it. */
  lemma PrependKeepsNewestFirst(h: ReportJob, s: seq<ReportJob>)
    requires NewestFirst(s)
    requires s != [] ==> h.createdAt >= s[0].createdAt
    ensures NewestFirst([h] + s)
  {
    var t := [h] + s;
    forall i, j | 0 <= i < j < |t| ensures t[i].createdAt >= t[j].createdAt {
      assert t[j] == s[j - 1];
      if i == 0 {
        assert s[0].createdAt >= s[j - 1].createdAt;
      } else {
        assert t[i] == s[i - 1];
      }
    }
  }

  /** `OrderByDescending(x => x.CreatedAt)`: the same jobs, newest first. */
  function OrderByCreatedDescending(s: seq<ReportJob>): (r: seq<ReportJob>)
    ensures NewestFirst(r)
    ensures multiset(r) == multiset(s)
  {
    if s == [] then []
    else
      assert s == [s[0]] + s[1..];
      InsertNewestFirst(s[0], OrderByCreatedDescending(s[1..]))
  }

  /** GET /reports: every stored job exactly once, newest first, or a 500 when the query throws. */
  function GetReports(db: Database, queryFails: bool): (result: HttpResult)
    reads db
    ensures result.Ok? <==> !queryFails
    ensures !queryFails ==> NewestFirst(result.jobs) && multiset(result.jobs) == multiset(db.rows)
    ensures queryFails ==> result == Problem(InternalServerError)
  {
    if queryFails then Problem(InternalServerError)
    else Ok(OrderByCreatedDescending(db.rows))
  }
}
