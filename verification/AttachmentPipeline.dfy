/**
 The attachment modules as they run: tenant-scoped writers over the table, the processing
 service that calls them one after the other, the producer and the reconciler's loop. Each is
 proved to do what Attachments.dfy says, write for write and in order, so the results about
 interrupted and interleaved executions are about this code.
 */
module AttachmentPipeline {
  import opened Attachments

  datatype Outcome = Done | Thrown(message: string)

  const NOT_FOUND := "Attachment not found"

  /** `updateMany` where id and owner match: the write, or nothing. */
  function Scoped(rows: seq<Row>, owner: nat, id: nat, w: Write): seq<Row> {
    if id < |rows| && rows[id].owner == owner then rows[id := Put(rows[id], w)] else rows
  }

  /** The row of that id and owner is written, and nothing else is touched. */
  lemma ScopedIs(rows: seq<Row>, owner: nat, id: nat, w: Write)
    ensures var after := Scoped(rows, owner, id, w);
            |after| == |rows| && forall i | 0 <= i < |rows| ::
              after[i] == if i == id && rows[i].owner == owner then Put(rows[i], w) else rows[i]
  {
  }

  function Tagged(id: nat, ws: seq<Write>): seq<(nat, Write)> {
    seq(|ws|, k requires 0 <= k < |ws| => (id, ws[k]))
  }

  lemma {:induction false} PutAllAppend(r: Row, ws: seq<Write>, w: Write)
    ensures PutAll(r, ws + [w]) == Put(PutAll(r, ws), w)
    decreases |ws|
  {
    if ws == [] {
      assert PutAll(r, [w]) == PutAll(Put(r, w), [w][1..]);
    } else {
      assert (ws + [w])[1..] == ws[1..] + [w];
      PutAllAppend(Put(r, ws[0]), ws[1..], w);
    }
  }

  lemma EnqueuedAppend(reg: Registry, rows: seq<Row>, candidates: seq<nat>, id: nat, down: set<nat>)
    requires id < |rows| && forall k | 0 <= k < |candidates| :: candidates[k] < |rows|
    ensures Enqueued(reg, rows, candidates + [id], down) ==
              if rows[id].mime in reg && id !in down then Enqueued(reg, rows, candidates, down) + [id]
              else Enqueued(reg, rows, candidates, down)
  {
    assert (candidates + [id])[..|candidates|] == candidates;
  }

  lemma AddedAllAppend(jobs: map<nat, Job>, ids: seq<nat>, id: nat)
    ensures AddedAll(jobs, ids + [id]) == Added(AddedAll(jobs, ids), id)
  {
    assert (ids + [id])[..|ids|] == ids;
  }

  /** What the next candidate of a sweep adds to the queue and to the count. */
  lemma OneCandidate(reg: Registry, rows: seq<Row>, jobs: map<nat, Job>, candidates: seq<nat>, k: nat, down: set<nat>)
    requires k < |candidates| && forall i | 0 <= i < |candidates| :: candidates[i] < |rows|
    ensures var before, after := Enqueued(reg, rows, candidates[..k], down), Enqueued(reg, rows, candidates[..k + 1], down);
            var starts := rows[candidates[k]].mime in reg && candidates[k] !in down;
            && |after| == (if starts then |before| + 1 else |before|)
            && AddedAll(jobs, after) == (if starts then Added(AddedAll(jobs, before), candidates[k]) else AddedAll(jobs, before))
  {
    assert candidates[..k + 1] == candidates[..k] + [candidates[k]];
    EnqueuedAppend(reg, rows, candidates[..k], candidates[k], down);
    AddedAllAppend(jobs, Enqueued(reg, rows, candidates[..k], down), candidates[k]);
  }

  /** The write that records a parse. */
  function Parsed(x: World): Write
    requires !x.DownloadFails?
  {
    if x.ParseFails? then MarkParsingFailed(x.message) else SaveParsed(x.text, x.parsedAt)
  }

  /** How the program of a downloaded row is put together. */
  lemma ProgramEnds(reg: Registry, r: Row, x: World)
    requires !Settled(reg, r) && r.hasMessageId && r.hasAccount && !x.DownloadFails?
    ensures var stored := [MarkProcessing, MarkCompleted(x.path, x.at)];
            [MarkProcessing] + [MarkCompleted(x.path, x.at)] == stored &&
            Program(reg, r, x) == if r.mime in reg then stored + [Parsed(x)] else stored
  {
  }

  class Pipeline {
    const reg: Registry
    var rows: seq<Row>
    var jobs: map<nat, Job>
    /** Every write issued, with the row it was issued for. */
    ghost var issued: seq<(nat, Write)>

    constructor (reg: Registry, rows: seq<Row>)
      ensures this.reg == reg && this.rows == rows && jobs == map[] && issued == []
    {
      this.reg, this.rows, jobs, issued := reg, rows, map[], [];
    }

    // -------------------------------------------------------------- repository

    /** A refused write reports a count of zero and changes nothing. */
    method UpdateMany(owner: nat, id: nat, w: Write) returns (count: nat)
      modifies `rows, `issued
      ensures rows == Scoped(old(rows), owner, id, w)
      ensures issued == old(issued) + [(id, w)]
      ensures count == if id < |old(rows)| && old(rows)[id].owner == owner then 1 else 0
    {
      issued := issued + [(id, w)];
      if id < |rows| && rows[id].owner == owner {
        rows := rows[id := Put(rows[id], w)];
        count := 1;
      } else {
        count := 0;
      }
    }

    // ----------------------------------------------------------------- service

    /** Parse, and record whichever outcome it had. Never throws. */
    method ParseAndPersist(owner: nat, id: nat, x: World)
      requires !x.DownloadFails?
      modifies `rows, `issued
      ensures rows == Scoped(old(rows), owner, id, Parsed(x)) && issued == old(issued) + [(id, Parsed(x))]
    {
      if x.ParseFails? {
        var _ := UpdateMany(owner, id, MarkParsingFailed(x.message));
        return;
      }
      var _ := UpdateMany(owner, id, SaveParsed(x.text, x.parsedAt));
    }

    /**
     One processing job. The writes issued are exactly the program of the row as loaded, in its
     order, all to this row, and only a missing row or a failed download is thrown to the queue.
     */
    method Process(id: nat, x: World) returns (outcome: Outcome)
      modifies `rows, `issued
      ensures id >= |old(rows)| ==> rows == old(rows) && issued == old(issued) && outcome == Thrown(NOT_FOUND)
      ensures id < |old(rows)| ==>
                var r := old(rows)[id];
                issued == old(issued) + Tagged(id, Program(reg, r, x)) &&
                rows == old(rows)[id := PutAll(r, Program(reg, r, x))] &&
                (outcome.Thrown? <==> DownloadFailed(reg, r, x)) && (outcome.Thrown? ==> outcome.message == x.message)
    {
      if id >= |rows| {
        return Thrown(NOT_FOUND);
      }
      var attachment := rows[id];
      if Settled(reg, attachment) {
        return Done;
      }
      var owner := attachment.owner;
      if !attachment.hasMessageId {
        var _ := UpdateMany(owner, id, MarkFailed(NO_MESSAGE_ID));
        PutAllAppend(attachment, [], MarkFailed(NO_MESSAGE_ID));
        return Done;
      }
      if !attachment.hasAccount {
        var _ := UpdateMany(owner, id, MarkFailed(NO_ACCOUNT));
        PutAllAppend(attachment, [], MarkFailed(NO_ACCOUNT));
        return Done;
      }
      var _ := UpdateMany(owner, id, MarkProcessing);
      PutAllAppend(attachment, [], MarkProcessing);
      if x.DownloadFails? {
        var _ := UpdateMany(owner, id, MarkFailed(x.message));
        PutAllAppend(attachment, [MarkProcessing], MarkFailed(x.message));
        return Thrown(x.message);
      }
      var _ := UpdateMany(owner, id, MarkCompleted(x.path, x.at));
      PutAllAppend(attachment, [MarkProcessing], MarkCompleted(x.path, x.at));
      ProgramEnds(reg, attachment, x);
      if attachment.mime in reg {
        ParseAndPersist(owner, id, x);
        PutAllAppend(attachment, [MarkProcessing, MarkCompleted(x.path, x.at)], Parsed(x));
      }
      return Done;
    }

    // ------------------------------------------------------------------- queue

    /** `add` under the row's id: no second job while one is kept, or a failure that leaves the queue alone. */
    method EnqueueAttachmentProcessing(id: nat, down: set<nat>) returns (ok: bool)
      modifies `jobs
      ensures ok <==> id !in down
      ensures jobs == if ok then Added(old(jobs), id) else old(jobs)
      ensures jobs == if id in down || id in old(jobs) then old(jobs) else old(jobs)[id := Waiting(0)]
    {
      if id in down {
        return false;
      }
      if id !in jobs {
        jobs := jobs[id := Waiting(0)];
      }
      return true;
    }

    // -------------------------------------------------------------- reconciler

    /** The bounded query: the oldest matching rows, at most `take`. */
    method GetStaleUnfinishedAttachments(olderThan: nat, take: nat) returns (ids: seq<nat>)
      ensures ids == Stale(rows, olderThan, take)
    {
      ids := [];
      var i := 0;
      while i < |rows| && |ids| < take
        invariant 0 <= i <= |rows| && |ids| <= take
        invariant Stale(rows, olderThan, take) == ids + StaleFrom(rows, i, olderThan, take - |ids|)
      {
        if Matches(rows[i], olderThan) {
          assert StaleFrom(rows, i, olderThan, take - |ids|) == [i] + StaleFrom(rows, i + 1, olderThan, take - |ids| - 1);
          ids := ids + [i];
        }
        i := i + 1;
      }
    }

    /**
     One sweep. No row is written; the queue gains a job for each candidate with a parser that
     has none and could be reached, and one row's failure does not stop the rest.
     */
    method ReconcileOrphanedAttachments(olderThan: nat, batchSize: nat, down: set<nat>) returns (enqueued: nat)
      modifies `jobs
      ensures var candidates := Stale(rows, olderThan, batchSize);
              (forall k | 0 <= k < |candidates| :: candidates[k] < |rows|) &&
              jobs == AddedAll(old(jobs), Enqueued(reg, rows, candidates, down)) &&
              enqueued == |Enqueued(reg, rows, candidates, down)|
    {
      var candidates := GetStaleUnfinishedAttachments(olderThan, batchSize);
      StaleSound(rows, 0, olderThan, batchSize);
      enqueued := 0;
      var k := 0;
      while k < |candidates|
        invariant 0 <= k <= |candidates|
        invariant jobs == AddedAll(old(jobs), Enqueued(reg, rows, candidates[..k], down))
        invariant enqueued == |Enqueued(reg, rows, candidates[..k], down)|
      {
        var id := candidates[k];
        OneCandidate(reg, rows, old(jobs), candidates, k, down);
        k := k + 1;
        if rows[id].mime !in reg {
          continue;
        }
        var ok := EnqueueAttachmentProcessing(id, down);
        if ok {
          enqueued := enqueued + 1;
        }
      }
      assert candidates[..k] == candidates;
    }
  }
}
