/**
 The attachment pipeline: a row in the database, a job in the queue under an id derived from
 the row, and a worker whose writes to the row come one at a time and may stop after any of
 them. Executions, retries, crashes, queue loss and sweeps interleave freely; one execution
 per attachment is live at a time.
 */
module Attachments {
  import opened Prelude

  datatype Status = Pending | Processing | Completed | Failed

  datatype Row = Row(owner: nat, createdAt: nat, mime: string, hasMessageId: bool, hasAccount: bool,
                     status: Status, processingError: Option<string>,
                     storagePath: Option<string>, processedAt: Option<nat>,
                     text: Option<string>, parsedAt: Option<nat>, parsingError: Option<string>)

  /** The MIME types the parser registry handles. */
  type Registry = set<string>

  // --------------------------------------------------------------- row updates

  datatype Write =
    | MarkProcessing
    | MarkCompleted(storagePath: string, processedAt: nat)
    | MarkFailed(reason: string)
    | SaveParsed(text: string, parsedAt: nat)
    | MarkParsingFailed(reason: string)

  function Put(r: Row, w: Write): Row {
    match w
    case MarkProcessing => r.(status := Processing, processingError := None)
    case MarkCompleted(path, at) =>
      r.(status := Completed, storagePath := Some(path), processedAt := Some(at), processingError := None)
    case MarkFailed(reason) => r.(status := Failed, processingError := Some(reason))
    case SaveParsed(text, at) => r.(text := Some(text), parsedAt := Some(at), parsingError := None)
    case MarkParsingFailed(reason) => r.(parsingError := Some(reason))
  }

  function PutAll(r: Row, ws: seq<Write>): Row
    decreases |ws|
  {
    if ws == [] then r else PutAll(Put(r, ws[0]), ws[1..])
  }

  // ----------------------------------------------------------------- execution

  /** Download done, and neither parse outcome owed. */
  predicate Settled(reg: Registry, r: Row) {
    && r.status.Completed?
    && (r.parsedAt.Some? || r.parsingError.Some? || r.mime !in reg)
  }

  /** What the outside world does to one execution. */
  datatype World =
    | DownloadFails(message: string)
    | ParseFails(path: string, at: nat, message: string)
    | AllSucceeds(path: string, at: nat, text: string, parsedAt: nat)

  const NO_MESSAGE_ID := "Originating email has no gmailMessageId"
  const NO_ACCOUNT := "Originating email has no associated Gmail account"

  /** The writes of one execution, in order. */
  function Program(reg: Registry, r: Row, x: World): seq<Write> {
    if Settled(reg, r) then []
    else if !r.hasMessageId then [MarkFailed(NO_MESSAGE_ID)]
    else if !r.hasAccount then [MarkFailed(NO_ACCOUNT)]
    else if x.DownloadFails? then [MarkProcessing, MarkFailed(x.message)]
    else
      [MarkProcessing, MarkCompleted(x.path, x.at)] +
      if r.mime !in reg then []
      else if x.ParseFails? then [MarkParsingFailed(x.message)]
      else [SaveParsed(x.text, x.parsedAt)]
  }

  /** Only a failed download is thrown to the queue. */
  predicate Throws(reg: Registry, r: Row, x: World) {
    !Settled(reg, r) && r.hasMessageId && r.hasAccount && x.DownloadFails?
  }

  // --------------------------------------------------------------------- sweep

  /** The recovery query's predicate, age aside: pending, processing, or completed with no parse outcome. */
  predicate Unfinished(r: Row) {
    || r.status.Pending? || r.status.Processing?
    || (r.status.Completed? && r.parsedAt.None? && r.parsingError.None?)
  }

  predicate Matches(r: Row, olderThan: nat) {
    r.createdAt < olderThan && Unfinished(r)
  }

  /** The bounded query, oldest first. Rows are kept in creation order; an id is a position. */
  function StaleFrom(rows: seq<Row>, from: nat, olderThan: nat, take: nat): seq<nat>
    requires from <= |rows|
    decreases |rows| - from
  {
    if from == |rows| || take == 0 then []
    else if Matches(rows[from], olderThan) then [from] + StaleFrom(rows, from + 1, olderThan, take - 1)
    else StaleFrom(rows, from + 1, olderThan, take)
  }

  function Stale(rows: seq<Row>, olderThan: nat, take: nat): seq<nat> {
    StaleFrom(rows, 0, olderThan, take)
  }

  // --------------------------------------------------------------------- queue

  const MAX_ATTEMPTS: nat := 3

  /** A job waiting or running after some failed attempts, or kept forever after the last one. */
  datatype Job = Waiting(attempts: nat) | Active(attempts: nat) | Dead

  /** `add` under a deterministic id: a no-op while any job of that id exists. */
  function Added(jobs: map<nat, Job>, id: nat): map<nat, Job> {
    if id in jobs then jobs else jobs[id := Waiting(0)]
  }

  /** The job after its execution ended: gone, retried, or kept as failed. */
  function Ended(jobs: map<nat, Job>, id: nat, threw: bool): map<nat, Job> {
    if id !in jobs || !jobs[id].Active? then jobs
    else if !threw then jobs - {id}
    else if jobs[id].attempts + 1 < MAX_ATTEMPTS then jobs[id := Waiting(jobs[id].attempts + 1)]
    else jobs[id := Dead]
  }

  /** The ids a sweep hands to the queue: the candidates that have a parser and whose enqueue succeeds. */
  function Enqueued(reg: Registry, rows: seq<Row>, candidates: seq<nat>, down: set<nat>): (r: seq<nat>)
    requires forall k | 0 <= k < |candidates| :: candidates[k] < |rows|
    ensures forall id :: id in r <==> id in candidates && rows[id].mime in reg && id !in down
  {
    if candidates == [] then []
    else
      var last := candidates[|candidates| - 1];
      var rest := Enqueued(reg, rows, candidates[..|candidates| - 1], down);
      assert forall id :: id in candidates <==> id in candidates[..|candidates| - 1] || id == last;
      if rows[last].mime in reg && last !in down then rest + [last] else rest
  }

  function AddedAll(jobs: map<nat, Job>, ids: seq<nat>): map<nat, Job> {
    if ids == [] then jobs else Added(AddedAll(jobs, ids[..|ids| - 1]), ids[|ids| - 1])
  }

  lemma {:induction false} StaleSound(rows: seq<Row>, from: nat, olderThan: nat, take: nat)
    requires from <= |rows|
    ensures var ids := StaleFrom(rows, from, olderThan, take);
            && |ids| <= take
            && (forall k | 0 <= k < |ids| :: from <= ids[k] < |rows| && Matches(rows[ids[k]], olderThan))
            && (forall j, k | 0 <= j < k < |ids| :: ids[j] < ids[k])
    ensures forall i | from <= i < |rows| && Matches(rows[i], olderThan) && i !in StaleFrom(rows, from, olderThan, take) ::
              |StaleFrom(rows, from, olderThan, take)| == take &&
              forall k | 0 <= k < take :: StaleFrom(rows, from, olderThan, take)[k] < i
    decreases |rows| - from
  {
    if from < |rows| && take > 0 {
      if Matches(rows[from], olderThan) {
        StaleSound(rows, from + 1, olderThan, take - 1);
      } else {
        StaleSound(rows, from + 1, olderThan, take);
      }
    }
  }

  /** Adding a batch: what was there stays, the rest of the batch waits. */
  lemma {:induction false} AddedAllIs(jobs: map<nat, Job>, ids: seq<nat>)
    ensures AddedAll(jobs, ids) == map id | id in jobs.Keys + (set k | k in ids) :: if id in jobs then jobs[id] else Waiting(0)
  {
    if ids != [] {
      var n := |ids| - 1;
      AddedAllIs(jobs, ids[..n]);
      assert forall id :: id in ids <==> id in ids[..n] || id == ids[n];
    }
  }

  /**
   The sweep enqueues exactly the work it can finish. A row old enough and with a parser
   satisfies the query precisely when it is neither settled nor failed; so with enqueues
   succeeding no settled row is ever enqueued, and a row the bounded query leaves out comes
   after `take` rows it returned.
   */
  lemma SweepIsExact(reg: Registry, rows: seq<Row>, olderThan: nat, take: nat, id: nat)
    requires id < |rows| && rows[id].createdAt < olderThan
    ensures var ids := Stale(rows, olderThan, take);
            (forall k | 0 <= k < |ids| :: ids[k] < |rows|) &&
            (id in Enqueued(reg, rows, ids, {}) ==>
               !Settled(reg, rows[id]) && !rows[id].status.Failed? && rows[id].mime in reg) &&
            (!Settled(reg, rows[id]) && !rows[id].status.Failed? && rows[id].mime in reg ==>
               id in Enqueued(reg, rows, ids, {}) || (|ids| == take && forall k | 0 <= k < take :: ids[k] < id))
  {
    StaleSound(rows, 0, olderThan, take);
  }

  // -------------------------------------------------------------- in the row's terms

  /** Nothing is left to do: the download is done, and there is a parse outcome or nothing to parse it. */
  predicate AllDone(reg: Registry, r: Row) {
    r.status == Completed && (r.parsedAt != None || r.parsingError != None || r.mime !in reg)
  }

  /** The execution got as far as the download, and that failed. */
  predicate DownloadFailed(reg: Registry, r: Row, x: World) {
    !AllDone(reg, r) && r.hasMessageId && r.hasAccount && x.DownloadFails?
  }

  lemma ThrowsIs(reg: Registry, r: Row, x: World)
    ensures Throws(reg, r, x) <==> DownloadFailed(reg, r, x)
    ensures Settled(reg, r) <==> AllDone(reg, r)
  {
  }

  /** Before a download is tried the row says that it is being processed, and no error any more. */
  lemma DownloadIsAnnounced(reg: Registry, r: Row, x: World)
    requires !AllDone(reg, r) && r.hasMessageId && r.hasAccount
    ensures var ws := Program(reg, r, x);
            |ws| > 1 && Put(r, ws[0]) == r.(status := Processing, processingError := None)
  {
  }

  /** An email without its link to the mailbox fails the row for good, with the reason. */
  lemma UnlinkedIsRecorded(reg: Registry, r: Row, x: World)
    requires !AllDone(reg, r) && (!r.hasMessageId || !r.hasAccount)
    ensures PutAll(r, Program(reg, r, x)) ==
              r.(status := Failed,
                 processingError := Some(if !r.hasMessageId then "Originating email has no gmailMessageId"
                                         else "Originating email has no associated Gmail account"))
  {
    var ws := Program(reg, r, x);
    assert |ws| == 1 && PutAll(r, ws) == PutAll(Put(r, ws[0]), ws[1..]) && ws[1..] == [];
  }

  /** What the recovery query asks of a row. */
  predicate Awaited(r: Row, olderThan: nat) {
    r.createdAt < olderThan &&
    (r.status == Pending || r.status == Processing || (r.status == Completed && r.parsedAt == None && r.parsingError == None))
  }

  /** The query returns, oldest first, the first `take` rows it asks for and no others. */
  lemma StaleIs(rows: seq<Row>, olderThan: nat, take: nat)
    ensures var ids := Stale(rows, olderThan, take);
            && |ids| <= take
            && (forall k | 0 <= k < |ids| :: ids[k] < |rows| && Awaited(rows[ids[k]], olderThan))
            && (forall j, k | 0 <= j < k < |ids| :: ids[j] < ids[k])
            && forall i | 0 <= i < |rows| && Awaited(rows[i], olderThan) && i !in ids ::
                 |ids| == take && forall k | 0 <= k < take :: ids[k] < i
  {
    StaleSound(rows, 0, olderThan, take);
    assert forall i | 0 <= i < |rows| :: Matches(rows[i], olderThan) <==> Awaited(rows[i], olderThan);
  }

  /**
   How a job ends: gone unless its execution threw; after a throw it waits for its second and third
   attempt, and is kept as failed after the third. Other jobs are as they were.
   */
  lemma EndedIs(jobs: map<nat, Job>, id: nat, threw: bool)
    requires id in jobs && jobs[id].Active?
    ensures var t := Ended(jobs, id, threw);
            && t - {id} == jobs - {id}
            && (id in t <==> threw)
            && (threw && jobs[id].attempts == 0 ==> t[id] == Waiting(1))
            && (threw && jobs[id].attempts == 1 ==> t[id] == Waiting(2))
            && (threw && jobs[id].attempts >= 2 ==> t[id] == Dead)
  {
  }
}
