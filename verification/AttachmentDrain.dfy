/**
 Draining is always possible: from any state without a live execution, some schedule of whole
 executions leaves no job runnable, so the rounds of a recovery exist.
 */
module AttachmentDrain {
  import opened Attachments
  import opened AttachmentProtocol
  import opened AttachmentRecovery

  lemma {:induction false} RunAllJoins(reg: Registry, s: State, a: seq<Action>, b: seq<Action>)
    ensures RunAll(reg, s, a + b) == RunAll(reg, RunAll(reg, s, a), b)
    decreases |b|
  {
    if b == [] {
      assert a + b == a;
    } else {
      var n := |b| - 1;
      assert (a + b)[..|a + b| - 1] == a + b[..n];
      RunAllJoins(reg, s, a, b[..n]);
    }
  }

  lemma RunOne(reg: Registry, s: State, a: Action)
    ensures RunAll(reg, s, [a]) == Next(reg, s, a)
  {
    assert [a][..0] == [];
  }

  /** A live execution writes to its end. */
  lemma {:induction false} Complete(reg: Registry, s: State, id: nat) returns (actions: seq<Action>)
    requires Inv(reg, s) && id in s.live
    ensures AllWork(actions) && Inv(reg, RunAll(reg, s, actions))
    ensures var t := RunAll(reg, s, actions);
            id in t.live && t.live[id].rest == [] && t.live[id].throws == s.live[id].throws &&
            t.jobs == s.jobs && t.live - {id} == s.live - {id}
    decreases |s.live[id].rest|
  {
    if s.live[id].rest == [] {
      actions := [];
    } else {
      var u := Next(reg, s, Advance(id));
      NextInv(reg, s, Advance(id));
      assert u.live - {id} == s.live - {id};
      var more := Complete(reg, u, id);
      actions := [Advance(id)] + more;
      RunOne(reg, s, Advance(id));
      RunAllJoins(reg, s, [Advance(id)], more);
    }
  }

  lemma PutAllSplits(r: Row, ws: seq<Write>, k: nat)
    requires 0 < k <= |ws|
    ensures PutAll(r, ws[..k]) == PutAll(Put(r, ws[0]), ws[1..][..k - 1])
  {
    assert ws[..k][1..] == ws[1..][..k - 1];
  }

  /** A live execution issues its next `k` writes. */
  lemma {:induction false} Writes(reg: Registry, s: State, id: nat, k: nat) returns (actions: seq<Action>)
    requires id in s.live && id < |s.rows| && k <= |s.live[id].rest|
    ensures var t, e := RunAll(reg, s, actions), s.live[id];
            t.rows == s.rows[id := PutAll(s.rows[id], e.rest[..k])] && t.jobs == s.jobs &&
            id in t.live && t.live - {id} == s.live - {id}
    decreases k
  {
    if k == 0 {
      actions := [];
    } else {
      var u := Next(reg, s, Advance(id));
      assert u.live - {id} == s.live - {id};
      PutAllSplits(s.rows[id], s.live[id].rest, k);
      var more := Writes(reg, u, id, k - 1);
      actions := [Advance(id)] + more;
      RunOne(reg, s, Advance(id));
      RunAllJoins(reg, s, [Advance(id)], more);
    }
  }

  /**
   An execution can be cut off after any number of its writes. The row stays as they left it, the
   worker is gone, and the job waits again with its count, or is kept as failed at the stall limit.
   */
  lemma CutAnywhere(reg: Registry, s: State, id: nat, x: World, k: nat, stalledOut: bool) returns (actions: seq<Action>)
    requires id in s.jobs && s.jobs[id].Waiting? && id !in s.live && id < |s.rows|
    requires k <= |Program(reg, s.rows[id], x)|
    ensures RunAll(reg, s, actions) ==
              State(s.rows[id := PutAll(s.rows[id], Program(reg, s.rows[id], x)[..k])],
                    s.jobs[id := if stalledOut then Dead else s.jobs[id]], s.live)
  {
    var u := Next(reg, s, Begin(id, x));
    RunOne(reg, s, Begin(id, x));
    assert u.live - {id} == s.live;
    var writes := Writes(reg, u, id, k);
    RunAllJoins(reg, s, [Begin(id, x)], writes);
    var v := RunAll(reg, u, writes);
    RunOne(reg, v, Crash(id, stalledOut));
    RunAllJoins(reg, s, [Begin(id, x)] + writes, [Crash(id, stalledOut)]);
    actions := [Begin(id, x)] + writes + [Crash(id, stalledOut)];
  }

  lemma Start(reg: Registry, s: State, id: nat, x: World) returns (actions: seq<Action>)
    requires Inv(reg, s) && s.live == map[] && id in s.jobs && s.jobs[id].Waiting?
    ensures AllWork(actions) && Inv(reg, RunAll(reg, s, actions))
    ensures var t := RunAll(reg, s, actions);
            id in t.live && t.live[id].rest == [] && t.live - {id} == map[] &&
            (t.live[id].throws <==> id >= |s.rows| || DownloadFailed(reg, s.rows[id], x)) &&
            t.jobs == s.jobs[id := Active(s.jobs[id].attempts)]
  {
    BeginIs(reg, s, id, x);
    var u := Next(reg, s, Begin(id, x));
    NextInv(reg, s, Begin(id, x));
    RunOne(reg, s, Begin(id, x));
    assert u.live - {id} == map[];
    var writes := Complete(reg, u, id);
    RunAllJoins(reg, s, [Begin(id, x)], writes);
    actions := [Begin(id, x)] + writes;
  }

  /**
   What becomes of a job after an attempt: gone if that was not thrown, else waiting with one attempt
   more on its count, or kept as failed after the third.
   */
  ghost predicate Judged(attempts: nat, threw: bool, jobs: map<nat, Job>, id: nat) {
    if !threw then id !in jobs
    else id in jobs && jobs[id] == if attempts == 0 then Waiting(1) else if attempts == 1 then Waiting(2) else Dead
  }

  /** One attempt at a job, from its beginning to its end. */
  lemma Attempt(reg: Registry, s: State, id: nat, x: World) returns (actions: seq<Action>)
    requires Inv(reg, s) && s.live == map[] && id in s.jobs && s.jobs[id].Waiting?
    ensures AllWork(actions) && Inv(reg, RunAll(reg, s, actions)) && RunAll(reg, s, actions).live == map[]
    ensures var t := RunAll(reg, s, actions);
            t.jobs - {id} == s.jobs - {id} &&
            (id in t.jobs && !t.jobs[id].Dead? ==>
               t.jobs[id] == Waiting(s.jobs[id].attempts + 1) && s.jobs[id].attempts + 1 < MAX_ATTEMPTS) &&
            Judged(s.jobs[id].attempts, id >= |s.rows| || DownloadFailed(reg, s.rows[id], x), t.jobs, id)
  {
    var first := Start(reg, s, id, x);
    var v := RunAll(reg, s, first);
    NextInv(reg, v, End(id));
    RunOne(reg, v, End(id));
    RunAllJoins(reg, s, first, [End(id)]);
    EndedIs(v.jobs, id, v.live[id].throws);
    assert Next(reg, v, End(id)).jobs - {id} == s.jobs - {id};
    actions := first + [End(id)];
  }

  /** One job runs through its attempts until it is gone or dead. */
  lemma {:induction false} FinishJob(reg: Registry, s: State, id: nat) returns (actions: seq<Action>)
    requires Inv(reg, s) && s.live == map[] && id in s.jobs && s.jobs[id].Waiting?
    ensures AllWork(actions) && Inv(reg, RunAll(reg, s, actions)) && RunAll(reg, s, actions).live == map[]
    ensures var t := RunAll(reg, s, actions);
            t.jobs - {id} == s.jobs - {id} && (id in t.jobs ==> t.jobs[id].Dead?)
    decreases if s.jobs[id].attempts < MAX_ATTEMPTS then MAX_ATTEMPTS - s.jobs[id].attempts else 0
  {
    actions := Attempt(reg, s, id, DownloadFails(""));
    var w := RunAll(reg, s, actions);
    if id in w.jobs && w.jobs[id].Waiting? {
      var again := FinishJob(reg, w, id);
      RunAllJoins(reg, s, actions, again);
      actions := actions + again;
    }
  }

  ghost function Runnable(s: State): set<nat> {
    set id | id in s.jobs && !s.jobs[id].Dead?
  }

  /** A full drain exists from every state whose jobs wait or are dead and where nothing is live. */
  lemma {:induction false} DrainExists(reg: Registry, s: State) returns (actions: seq<Action>)
    requires Inv(reg, s) && s.live == map[] && forall id | id in s.jobs :: !s.jobs[id].Active?
    ensures AllWork(actions) && Quiescent(RunAll(reg, s, actions))
    decreases |Runnable(s)|
  {
    if Runnable(s) == {} {
      assert forall id | id in s.jobs :: !s.jobs[id].Dead? ==> id in Runnable(s);
      actions := [];
    } else {
      var id :| id in Runnable(s);
      var first := FinishJob(reg, s, id);
      var t := RunAll(reg, s, first);
      OthersKeepTheirJob(s, t, id);
      SmallerWithout(Runnable(t), Runnable(s), id);
      var rest := DrainExists(reg, t);
      RunAllJoins(reg, s, first, rest);
      actions := first + rest;
    }
  }

  lemma OthersKeepTheirJob(s: State, t: State, id: nat)
    requires t.jobs - {id} == s.jobs - {id} && (id in t.jobs ==> t.jobs[id].Dead?) && id in Runnable(s)
    requires forall k | k in s.jobs :: !s.jobs[k].Active?
    ensures forall k | k in t.jobs :: !t.jobs[k].Active?
    ensures Runnable(t) <= Runnable(s) && id !in Runnable(t)
  {
    forall k | k in t.jobs && k != id
      ensures k in s.jobs && t.jobs[k] == s.jobs[k]
    {
      assert k in t.jobs - {id} && (t.jobs - {id})[k] == t.jobs[k];
      assert (s.jobs - {id})[k] == s.jobs[k];
    }
  }

  /** A moment past the age of every row. */
  ghost function PastAll(s: State): nat {
    if s.rows == [] then 0 else s.rows[|s.rows| - 1].createdAt + 1
  }

  lemma AllAreOlder(reg: Registry, s: State)
    requires Inv(reg, s)
    ensures AllOlder(s, PastAll(s))
  {
  }

  /** After a sweep of a rested state every job waits or is dead, and nothing is live. */
  lemma SweptIsAtRest(reg: Registry, take: nat, s: State, olderThan: nat)
    requires Inv(reg, s) && Quiescent(s)
    ensures var u := Next(reg, s, Sweep(olderThan, take, {}));
            Inv(reg, u) && u.live == map[] && forall id | id in u.jobs :: !u.jobs[id].Active?
  {
    NextInv(reg, s, Sweep(olderThan, take, {}));
    StaleSound(s.rows, 0, olderThan, take);
    AddedAllIs(s.jobs, Enqueued(reg, s.rows, Stale(s.rows, olderThan, take), {}));
  }

  /** So from every rested state the next round exists. */
  lemma RoundExists(reg: Registry, take: nat, s: State) returns (t: State)
    requires Inv(reg, s) && Quiescent(s)
    ensures Round(reg, take, s, t)
  {
    var olderThan := PastAll(s);
    AllAreOlder(reg, s);
    SweptIsAtRest(reg, take, s, olderThan);
    var u := Next(reg, s, Sweep(olderThan, take, {}));
    var actions := DrainExists(reg, u);
    t := RunAll(reg, u, actions);
  }
}
