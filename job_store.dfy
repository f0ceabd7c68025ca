/**
 * In-memory stand-ins for the two collaborators the core talks to: the job
 * table behind the database context and the hub that broadcasts snapshots
 * to every connected client. Each operation takes a flag that says whether
 * it throws; a throwing operation changes nothing.
 */
module Store {
  import opened ReportJobs

  /** No two rows share an identifier. */
  predicate IdsUnique(rows: seq<ReportJob>) {
    forall i, j :: 0 <= i < j < |rows| ==> rows[i].id != rows[j].id
  }

  /** No row carries identifier `id`. */
  predicate IsFreshId(rows: seq<ReportJob>, id: nat) {
    forall k :: 0 <= k < |rows| ==> rows[k].id != id
  }

  /** The persisted report-job table. */
  class Database {
    var rows: seq<ReportJob>

    ghost predicate Valid()
      reads this
    {
      IdsUnique(rows)
    }

    constructor (initial: seq<ReportJob>)
      requires IdsUnique(initial)
      ensures Valid() && rows == initial
    {
      rows := initial;
    }

    /** Tracks `job` as added and saves: one new row, or nothing when the save throws. */
    method AddAndSave(job: ReportJob, fails: bool) returns (ok: bool)
      requires Valid() && IsFreshId(rows, job.id)
      modifies this
      ensures Valid()
      ensures ok == !fails
      ensures rows == if ok then old(rows) + [job] else old(rows)
    {
      ok := !fails;
      if ok {
        rows := rows + [job];
      }
    }

    /** Saves the tracked, modified row `i`: overwritten by `job`, or untouched when the save throws. */
    method SaveRow(i: nat, job: ReportJob, fails: bool) returns (ok: bool)
      requires Valid() && i < |rows| && job.id == rows[i].id
      modifies this
      ensures Valid()
      ensures ok == !fails
      ensures rows == if ok then old(rows)[i := job] else old(rows)
    {
      ok := !fails;
      if ok {
        rows := rows[i := job];
      }
    }
  }

  /** The broadcast channel; `sent` is every snapshot sent so far, oldest first. */
  class Hub {
    var sent: seq<ReportJob>

    constructor ()
      ensures sent == []
    {
      sent := [];
    }

    /** Sends a snapshot of `job` to all clients, or throws without sending. */
    method SendToAll(job: ReportJob, fails: bool) returns (ok: bool)
      modifies this
      ensures ok == !fails
      ensures sent == if ok then old(sent) + [job] else old(sent)
    {
      ok := !fails;
      if ok {
        sent := sent + [job];
      }
    }
  }
}
