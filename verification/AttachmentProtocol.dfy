/**
 Safety of the attachment pipeline over every run: arrivals, enqueues, executions that stop
 after any write, retries, stalls, queue loss and sweeps, in any order. The one assumption is
 a single live execution per attachment.
 */
module AttachmentProtocol {
  import opened Prelude
  import opened Attachments

  /** An execution under way: the writes still to come, and whether it will throw. */
  datatype Live = Live(rest: seq<Write>, throws: bool)

  datatype State = State(rows: seq<Row>, jobs: map<nat, Job>, live: map<nat, Live>)

  datatype Action =
    | Arrive(owner: nat, createdAt: nat, mime: string, hasMessageId: bool, hasAccount: bool)
    | Enqueue(id: nat)
    | Begin(id: nat, x: World)
    | Advance(id: nat)
    | End(id: nat)
    | Crash(id: nat, stalledOut: bool)
    | QueueLoss
    | Sweep(olderThan: nat, take: nat, down: set<nat>)

  function Fresh(a: Action): Row
    requires a.Arrive?
  {
    Row(a.owner, a.createdAt, a.mime, a.hasMessageId, a.hasAccount, Pending, None, None, None, None, None, None)
  }

  /** The job once its worker is gone: back in line, or failed for good at the stall limit. */
  function Stalled(jobs: map<nat, Job>, id: nat, stalledOut: bool): map<nat, Job> {
    if id !in jobs || !jobs[id].Active? then jobs
    else jobs[id := if stalledOut then Dead else Waiting(jobs[id].attempts)]
  }

  /** The jobs after a sweep. */
  function Swept(reg: Registry, s: State, olderThan: nat, take: nat, down: set<nat>): map<nat, Job> {
    StaleSound(s.rows, 0, olderThan, take);
    AddedAll(s.jobs, Enqueued(reg, s.rows, Stale(s.rows, olderThan, take), down))
  }

  /** An execution from its start. A job whose row does not exist throws before any write. */
  function Begun(reg: Registry, rows: seq<Row>, id: nat, x: World): Live {
    if id < |rows| then Live(Program(reg, rows[id], x), Throws(reg, rows[id], x)) else Live([], true)
  }

  /** One step. An action that is not possible now changes nothing. */
  function Next(reg: Registry, s: State, a: Action): State {
    match a
    case Arrive(_, createdAt, _, _, _) =>
      if s.rows == [] || s.rows[|s.rows| - 1].createdAt <= createdAt then s.(rows := s.rows + [Fresh(a)]) else s
    case Enqueue(id) => s.(jobs := Added(s.jobs, id))
    case Begin(id, x) =>
      if id in s.jobs && s.jobs[id].Waiting? && id !in s.live then
        s.(jobs := s.jobs[id := Active(s.jobs[id].attempts)], live := s.live[id := Begun(reg, s.rows, id, x)])
      else s
    case Advance(id) =>
      if id in s.live && id < |s.rows| && s.live[id].rest != [] then
        s.(rows := s.rows[id := Put(s.rows[id], s.live[id].rest[0])],
           live := s.live[id := s.live[id].(rest := s.live[id].rest[1..])])
      else s
    case End(id) =>
      if id in s.live && s.live[id].rest == [] then
        s.(jobs := Ended(s.jobs, id, s.live[id].throws), live := s.live - {id})
      else s
    case Crash(id, stalledOut) =>
      if id in s.live then s.(jobs := Stalled(s.jobs, id, stalledOut), live := s.live - {id}) else s
    case QueueLoss => s.(jobs := map[])
    case Sweep(olderThan, take, down) => s.(jobs := Swept(reg, s, olderThan, take, down))
  }

  function RunAll(reg: Registry, s: State, actions: seq<Action>): State {
    if actions == [] then s else Next(reg, RunAll(reg, s, actions[..|actions| - 1]), actions[|actions| - 1])
  }

  const EMPTY: State := State([], map[], map[])

  // ------------------------------------------------------------------ invariant

  predicate RowSafe(reg: Registry, r: Row) {
    && (r.status.Completed? ==> r.storagePath.Some? && r.processedAt.Some?)
    && (r.parsedAt.Some? || r.parsingError.Some? ==> r.status.Completed? && r.mime in reg)
    && (r.text.Some? <==> r.parsedAt.Some?)
    && !(r.parsedAt.Some? && r.parsingError.Some?)
    && (r.processingError.Some? <==> r.status.Failed?)
  }

  /** Every row on the way is safe, and no write meets a settled row. */
  predicate SafeProgram(reg: Registry, r: Row, ws: seq<Write>)
    decreases |ws|
  {
    RowSafe(reg, r) && (ws != [] ==> !Settled(reg, r) && SafeProgram(reg, Put(r, ws[0]), ws[1..]))
  }

  ghost predicate Inv(reg: Registry, s: State) {
    && (forall i | 0 <= i < |s.rows| :: RowSafe(reg, s.rows[i]))
    && (forall i, j | 0 <= i < j < |s.rows| :: s.rows[i].createdAt <= s.rows[j].createdAt)
    && (forall id | id in s.live ::
          if id < |s.rows| then SafeProgram(reg, s.rows[id], s.live[id].rest) else s.live[id].rest == [])
  }

  /** Wherever it starts, an execution's writes are safe one by one. */
  lemma ProgramIsSafe(reg: Registry, r: Row, x: World)
    requires RowSafe(reg, r)
    ensures SafeProgram(reg, r, Program(reg, r, x))
  {
    var ws := Program(reg, r, x);
    if ws != [] {
      var r1, ws1 := Put(r, ws[0]), ws[1..];
      if ws1 != [] {
        var r2, ws2 := Put(r1, ws1[0]), ws1[1..];
        if ws2 != [] {
          assert ws2[1..] == [];
          assert SafeProgram(reg, r2, ws2);
        }
        assert SafeProgram(reg, r1, ws1);
      }
    }
  }

  lemma HeadIsSafe(reg: Registry, r: Row, ws: seq<Write>)
    requires SafeProgram(reg, r, ws) && ws != []
    ensures !Settled(reg, r) && Put(r, ws[0]).createdAt == r.createdAt
    ensures RowSafe(reg, Put(r, ws[0])) && SafeProgram(reg, Put(r, ws[0]), ws[1..])
  {
    assert SafeProgram(reg, Put(r, ws[0]), ws[1..]);
  }

  lemma AdvanceInv(reg: Registry, s: State, id: nat)
    requires Inv(reg, s) && id in s.live && s.live[id].rest != []
    ensures Inv(reg, Next(reg, s, Advance(id)))
  {
    HeadIsSafe(reg, s.rows[id], s.live[id].rest);
    var t := Next(reg, s, Advance(id));
    assert forall i | 0 <= i < |s.rows| && i != id :: t.rows[i] == s.rows[i];
    assert forall i | 0 <= i < |s.rows| :: t.rows[i].createdAt == s.rows[i].createdAt;
  }

  lemma ArriveInv(reg: Registry, s: State, a: Action)
    requires Inv(reg, s) && a.Arrive?
    ensures Inv(reg, Next(reg, s, a))
  {
  }

  lemma BeginInv(reg: Registry, s: State, id: nat, x: World)
    requires Inv(reg, s)
    ensures Inv(reg, Next(reg, s, Begin(id, x)))
  {
    if id < |s.rows| {
      ProgramIsSafe(reg, s.rows[id], x);
    }
  }

  lemma NextInv(reg: Registry, s: State, a: Action)
    requires Inv(reg, s)
    ensures Inv(reg, Next(reg, s, a))
  {
    match a
    case Arrive(_, _, _, _, _) => ArriveInv(reg, s, a);
    case Begin(id, x) => BeginInv(reg, s, id, x);
    case Advance(id) =>
      if id in s.live && s.live[id].rest != [] {
        AdvanceInv(reg, s, id);
      }
    case _ =>
  }

  /** A settled row is never written again. */
  lemma SettledIsFinal(reg: Registry, s: State, a: Action, i: nat)
    requires Inv(reg, s) && i < |s.rows| && Settled(reg, s.rows[i])
    ensures i < |Next(reg, s, a).rows| && Next(reg, s, a).rows[i] == s.rows[i]
  {
    if a.Advance? && a.id in s.live && s.live[a.id].rest != [] {
      HeadIsSafe(reg, s.rows[a.id], s.live[a.id].rest);
    }
  }

  /** What was settled is as it was. */
  ghost predicate SettledKept(reg: Registry, s: State, t: State) {
    |s.rows| <= |t.rows| && forall i | 0 <= i < |s.rows| && Settled(reg, s.rows[i]) :: t.rows[i] == s.rows[i]
  }

  lemma StepKeepsSettled(reg: Registry, s: State, u: State, a: Action)
    requires Inv(reg, u) && SettledKept(reg, s, u)
    ensures SettledKept(reg, s, Next(reg, u, a))
  {
    forall i | 0 <= i < |s.rows| && Settled(reg, s.rows[i])
      ensures i < |Next(reg, u, a).rows| && Next(reg, u, a).rows[i] == s.rows[i]
    {
      SettledIsFinal(reg, u, a, i);
    }
    RowsOnlyGrow(reg, u, a);
  }

  lemma RowsOnlyGrow(reg: Registry, s: State, a: Action)
    ensures |s.rows| <= |Next(reg, s, a).rows|
  {
  }

  lemma {:induction false} RunKeepsSettled(reg: Registry, s: State, actions: seq<Action>)
    requires Inv(reg, s)
    ensures Inv(reg, RunAll(reg, s, actions)) && SettledKept(reg, s, RunAll(reg, s, actions))
    decreases |actions|
  {
    if actions != [] {
      var n := |actions| - 1;
      RunKeepsSettled(reg, s, actions[..n]);
      NextInv(reg, RunAll(reg, s, actions[..n]), actions[n]);
      StepKeepsSettled(reg, s, RunAll(reg, s, actions[..n]), actions[n]);
    }
  }

  /**
   Safety on every run from the empty system: completed implies a stored path, a parse outcome
   only on completed rows, never success and failure both, and whatever was settled after some
   prefix of the run is untouched at its end.
   */
  lemma EveryRunIsSafe(reg: Registry, before: seq<Action>, after: seq<Action>)
    ensures Inv(reg, RunAll(reg, EMPTY, before))
    ensures var s := RunAll(reg, EMPTY, before);
            var t := RunAll(reg, s, after);
            Inv(reg, t) && |s.rows| <= |t.rows| &&
            forall i | 0 <= i < |s.rows| && Settled(reg, s.rows[i]) :: t.rows[i] == s.rows[i]
  {
    RunKeepsSettled(reg, EMPTY, before);
    RunKeepsSettled(reg, RunAll(reg, EMPTY, before), after);
  }

  // ------------------------------------------------------------- whole execution

  /** Nothing is owed: finished, or failed and recorded as such. */
  predicate Finished(reg: Registry, r: Row) {
    Settled(reg, r) || r.status.Failed?
  }

  /**
   An execution that is not interrupted finishes its row. It ends failed exactly when the
   download could not even be tried or did not succeed, and is thrown exactly in the latter case.
   */
  lemma WholeExecutionFinishes(reg: Registry, r: Row, x: World)
    requires RowSafe(reg, r)
    ensures Finished(reg, PutAll(r, Program(reg, r, x)))
    ensures PutAll(r, Program(reg, r, x)).status.Failed? <==>
              !AllDone(reg, r) && (!r.hasMessageId || !r.hasAccount || x.DownloadFails?)
    ensures Throws(reg, r, x) <==> DownloadFailed(reg, r, x)
  {
    ThrowsIs(reg, r, x);
    var ws := Program(reg, r, x);
    if ws != [] {
      var r1, ws1 := Put(r, ws[0]), ws[1..];
      assert PutAll(r, ws) == PutAll(r1, ws1);
      if ws1 != [] {
        var r2, ws2 := Put(r1, ws1[0]), ws1[1..];
        assert PutAll(r1, ws1) == PutAll(r2, ws2);
        if ws2 != [] {
          var r3 := Put(r2, ws2[0]);
          assert ws2[1..] == [];
          assert PutAll(r2, ws2) == PutAll(r3, []);
        }
      }
    }
  }

  /** What a whole execution of an unsettled, downloadable row records, and that it touches nothing else. */
  lemma ResultIsRecorded(reg: Registry, r: Row, x: World)
    requires RowSafe(reg, r) && !Settled(reg, r) && r.hasMessageId && r.hasAccount
    ensures var t := PutAll(r, Program(reg, r, x));
            if x.DownloadFails? then t == r.(status := Failed, processingError := Some(x.message))
            else
              t == r.(status := Completed, processingError := None, storagePath := Some(x.path), processedAt := Some(x.at),
                      text := if r.mime in reg && x.AllSucceeds? then Some(x.text) else None,
                      parsedAt := if r.mime in reg && x.AllSucceeds? then Some(x.parsedAt) else None,
                      parsingError := if r.mime in reg && x.ParseFails? then Some(x.message) else None)
  {
    var ws := Program(reg, r, x);
    var r1, ws1 := Put(r, ws[0]), ws[1..];
    assert PutAll(r, ws) == PutAll(r1, ws1);
    var r2, ws2 := Put(r1, ws1[0]), ws1[1..];
    assert PutAll(r1, ws1) == PutAll(r2, ws2);
    if ws2 != [] {
      assert ws2[1..] == [];
      assert PutAll(r2, ws2) == PutAll(Put(r2, ws2[0]), []);
    }
  }

  /**
   Wherever an execution of a row with a parser is cut off, what it leaves is either finished
   or again what the recovery query selects: no crash window hides the row.
   */
  lemma {:induction false} NoCrashHidesTheRow(reg: Registry, s: State, id: nat, olderThan: nat)
    requires Inv(reg, s) && id < |s.rows| && s.rows[id].mime in reg && s.rows[id].createdAt < olderThan
    ensures Finished(reg, s.rows[id]) <==> !Matches(s.rows[id], olderThan)
  {
    assert RowSafe(reg, s.rows[id]);
  }

  /** A job that begins keeps its count of attempts, and will throw exactly if there is no row or the download fails. */
  lemma BeginIs(reg: Registry, s: State, id: nat, x: World)
    requires id in s.jobs && s.jobs[id].Waiting? && id !in s.live
    ensures var t := Next(reg, s, Begin(id, x));
            && t.rows == s.rows && t.jobs == s.jobs[id := Active(s.jobs[id].attempts)] && id in t.live
            && (t.live[id].throws <==> id >= |s.rows| || DownloadFailed(reg, s.rows[id], x))
  {
    if id < |s.rows| {
      ThrowsIs(reg, s.rows[id], x);
    }
  }

  /** An enqueue adds a job unless one is kept under the id; a loss of the queue leaves none; rows and workers stay. */
  lemma QueueIs(reg: Registry, s: State, id: nat)
    ensures Next(reg, s, Enqueue(id)) == (if id in s.jobs then s else State(s.rows, s.jobs[id := Waiting(0)], s.live))
    ensures Next(reg, s, QueueLoss) == State(s.rows, map[], s.live)
  {
  }

  /** A row arrives pending, with nothing stored, read or failed, behind those that came before. */
  lemma ArrivalIs(reg: Registry, s: State, a: Action)
    requires a.Arrive? && forall i | 0 <= i < |s.rows| :: s.rows[i].createdAt <= a.createdAt
    ensures var t, n := Next(reg, s, a), |s.rows|;
            t.jobs == s.jobs && t.live == s.live && |t.rows| == n + 1 && t.rows[..n] == s.rows &&
            var r := t.rows[n];
            && (r.owner, r.createdAt, r.mime, r.hasMessageId, r.hasAccount) ==
                 (a.owner, a.createdAt, a.mime, a.hasMessageId, a.hasAccount)
            && r.status == Pending && r.processingError == None && r.storagePath == None && r.processedAt == None
            && r.text == None && r.parsedAt == None && r.parsingError == None
  {
  }
}
