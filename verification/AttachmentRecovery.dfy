/**
 Recovery. Sweeps alternate with full drains of the queue, where a drain is any schedule of
 executions, retries and crashes that leaves no job runnable. Which unfinished rows this
 brings to an end, and after how many rounds, is decided exactly.
 */
module AttachmentRecovery {
  import opened Prelude
  import opened Attachments
  import opened AttachmentProtocol

  /** What workers do between sweeps: executions, interrupted or not, that stay within the stall limit. */
  predicate IsWork(a: Action) {
    a.Begin? || a.Advance? || a.End? || (a.Crash? && !a.stalledOut)
  }

  ghost predicate AllWork(actions: seq<Action>) {
    forall k | 0 <= k < |actions| :: IsWork(actions[k])
  }

  /** No execution is live and only failed jobs are left. */
  ghost predicate Quiescent(s: State) {
    s.live == map[] && forall id | id in s.jobs :: s.jobs[id].Dead?
  }

  ghost predicate Idle(s: State, id: nat) {
    id !in s.live && (id in s.jobs ==> s.jobs[id].Dead?)
  }

  /** A live execution of `id` will finish its row, and an idle row is finished already. */
  ghost predicate InHand(reg: Registry, s: State, id: nat) {
    && id < |s.rows|
    && (id in s.live ==> id in s.jobs && s.jobs[id].Active? && Finished(reg, PutAll(s.rows[id], s.live[id].rest)))
    && (Idle(s, id) ==> Finished(reg, s.rows[id]))
  }

  // ------------------------------------------------------------------ one drain

  /**
   A row in hand stays in hand through everything but the loss of its job: executions, crashes,
   retries, arrivals, enqueues and sweeps of this and every other row.
   */
  lemma StepKeepsInHand(reg: Registry, s: State, a: Action, id: nat)
    requires Inv(reg, s) && InHand(reg, s, id)
    requires !a.QueueLoss? && !(a.Crash? && a.stalledOut)
    ensures InHand(reg, Next(reg, s, a), id)
  {
    match a
    case Begin(b, x) =>
      if b == id {
        WholeExecutionFinishes(reg, s.rows[id], x);
      }
    case Sweep(olderThan, take, down) =>
      StaleSound(s.rows, 0, olderThan, take);
      AddedAllIs(s.jobs, Enqueued(reg, s.rows, Stale(s.rows, olderThan, take), down));
    case _ =>
  }

  /** Work on other rows leaves an idle one as it is. */
  lemma StepSkipsIdle(reg: Registry, s: State, a: Action, id: nat)
    requires id < |s.rows| && Idle(s, id) && IsWork(a)
    ensures var t := Next(reg, s, a);
            |t.rows| == |s.rows| && Idle(t, id) && t.rows[id] == s.rows[id] && (id in t.jobs <==> id in s.jobs)
  {
  }

  lemma {:induction false} WorkFinishes(reg: Registry, s: State, actions: seq<Action>, id: nat)
    requires Inv(reg, s) && AllWork(actions) && InHand(reg, s, id)
    ensures InHand(reg, RunAll(reg, s, actions), id)
    ensures Inv(reg, RunAll(reg, s, actions))
    decreases |actions|
  {
    if actions != [] {
      var n := |actions| - 1;
      WorkFinishes(reg, s, actions[..n], id);
      var u := RunAll(reg, s, actions[..n]);
      assert IsWork(actions[n]);
      NextInv(reg, u, actions[n]);
      StepKeepsInHand(reg, u, actions[n], id);
    }
  }

  lemma {:induction false} WorkSkipsIdle(reg: Registry, s: State, actions: seq<Action>, id: nat)
    requires AllWork(actions) && id < |s.rows| && Idle(s, id)
    ensures var t := RunAll(reg, s, actions);
            |t.rows| == |s.rows| && Idle(t, id) && t.rows[id] == s.rows[id] && (id in t.jobs <==> id in s.jobs)
    decreases |actions|
  {
    if actions != [] {
      var n := |actions| - 1;
      WorkSkipsIdle(reg, s, actions[..n], id);
      StepSkipsIdle(reg, RunAll(reg, s, actions[..n]), actions[n], id);
    }
  }

  ghost predicate SameFiles(s: State, t: State) {
    && |t.rows| == |s.rows|
    && forall i | 0 <= i < |s.rows| :: t.rows[i].mime == s.rows[i].mime && t.rows[i].createdAt == s.rows[i].createdAt
  }

  lemma StepKeepsFiles(reg: Registry, s: State, a: Action)
    requires IsWork(a)
    ensures SameFiles(s, Next(reg, s, a))
  {
    var t := Next(reg, s, a);
    if t.rows != s.rows {
      assert forall i | 0 <= i < |s.rows| && i != a.id :: t.rows[i] == s.rows[i];
    }
  }

  lemma FilesChain(s: State, t: State, u: State)
    requires SameFiles(s, t) && SameFiles(t, u)
    ensures SameFiles(s, u)
  {
  }

  lemma {:induction false} WorkKeepsFiles(reg: Registry, s: State, actions: seq<Action>)
    requires Inv(reg, s) && AllWork(actions)
    ensures Inv(reg, RunAll(reg, s, actions)) && SameFiles(s, RunAll(reg, s, actions))
    decreases |actions|
  {
    if actions != [] {
      var n := |actions| - 1;
      WorkKeepsFiles(reg, s, actions[..n]);
      var u := RunAll(reg, s, actions[..n]);
      assert IsWork(actions[n]);
      NextInv(reg, u, actions[n]);
      StepKeepsFiles(reg, u, actions[n]);
      FilesChain(s, u, Next(reg, u, actions[n]));
    }
  }

  // ------------------------------------------------------------------ one round

  ghost predicate AllOlder(s: State, olderThan: nat) {
    forall i | 0 <= i < |s.rows| :: s.rows[i].createdAt < olderThan
  }

  /** One sweep past every row's age, with the queue reachable, and then a full drain. */
  ghost predicate Round(reg: Registry, take: nat, s: State, t: State) {
    exists olderThan: nat, actions: seq<Action> ::
      AllOlder(s, olderThan) && AllWork(actions) && Quiescent(t) &&
      t == RunAll(reg, Next(reg, s, Sweep(olderThan, take, {})), actions)
  }

  /** The rows a sweep actually starts a job for. */
  ghost predicate Picked(reg: Registry, take: nat, s: State, olderThan: nat, id: nat) {
    id < |s.rows| && id in Stale(s.rows, olderThan, take) && s.rows[id].mime in reg && id !in s.jobs
  }

  lemma SweepPicks(reg: Registry, take: nat, s: State, olderThan: nat, id: nat)
    requires Inv(reg, s) && Quiescent(s) && id < |s.rows|
    ensures var u := Next(reg, s, Sweep(olderThan, take, {}));
            u.rows == s.rows && u.live == s.live &&
            if Picked(reg, take, s, olderThan, id) then id in u.jobs && u.jobs[id] == Waiting(0)
            else Idle(u, id) && (id in u.jobs <==> id in s.jobs)
  {
    StaleSound(s.rows, 0, olderThan, take);
    AddedAllIs(s.jobs, Enqueued(reg, s.rows, Stale(s.rows, olderThan, take), {}));
  }

  /** A round finishes what its sweep picked and leaves every other row alone. */
  lemma RoundEffect(reg: Registry, take: nat, s: State, t: State, olderThan: nat, actions: seq<Action>, id: nat)
    requires Inv(reg, s) && Quiescent(s) && id < |s.rows| && AllWork(actions) && Quiescent(t)
    requires t == RunAll(reg, Next(reg, s, Sweep(olderThan, take, {})), actions)
    ensures Inv(reg, t) && SameFiles(s, t)
    ensures if Picked(reg, take, s, olderThan, id) then Finished(reg, t.rows[id])
            else t.rows[id] == s.rows[id] && (id in t.jobs <==> id in s.jobs)
  {
    var u := Next(reg, s, Sweep(olderThan, take, {}));
    NextInv(reg, s, Sweep(olderThan, take, {}));
    SweepPicks(reg, take, s, olderThan, id);
    WorkKeepsFiles(reg, u, actions);
    if Picked(reg, take, s, olderThan, id) {
      WorkFinishes(reg, u, actions, id);
    } else {
      WorkSkipsIdle(reg, u, actions, id);
    }
  }

  // ---------------------------------------------------------------- who is stuck

  /** Selected by the query, yet no sweep can start a job for it: no parser, or a failed job keeps its id. */
  ghost predicate Stuck(reg: Registry, s: State, i: nat) {
    i < |s.rows| && Unfinished(s.rows[i]) && (s.rows[i].mime !in reg || i in s.jobs)
  }

  ghost predicate Recoverable(reg: Registry, s: State, i: nat) {
    i < |s.rows| && Unfinished(s.rows[i]) && s.rows[i].mime in reg && i !in s.jobs
  }

  ghost function StuckBefore(reg: Registry, s: State, i: nat): set<nat> {
    set k | 0 <= k < i && Stuck(reg, s, k)
  }

  ghost function WorkUpTo(reg: Registry, s: State, i: nat): set<nat> {
    set k | 0 <= k <= i && Recoverable(reg, s, k)
  }

  lemma RoundStuck(reg: Registry, take: nat, s: State, t: State, olderThan: nat, actions: seq<Action>, k: nat)
    requires Inv(reg, s) && Quiescent(s) && AllWork(actions) && Quiescent(t)
    requires t == RunAll(reg, Next(reg, s, Sweep(olderThan, take, {})), actions)
    ensures Stuck(reg, t, k) <==> Stuck(reg, s, k)
    ensures Recoverable(reg, t, k) <==> Recoverable(reg, s, k) && !Picked(reg, take, s, olderThan, k)
  {
    if k < |s.rows| {
      RoundEffect(reg, take, s, t, olderThan, actions, k);
      assert RowSafe(reg, t.rows[k]);
    } else if |s.rows| > 0 {
      RoundEffect(reg, take, s, t, olderThan, actions, 0);
    } else {
      NextInv(reg, s, Sweep(olderThan, take, {}));
      WorkKeepsFiles(reg, Next(reg, s, Sweep(olderThan, take, {})), actions);
    }
  }

  lemma {:induction false} AscendingWithin(ids: seq<nat>, within: set<nat>)
    requires forall j, k | 0 <= j < k < |ids| :: ids[j] < ids[k]
    requires forall k | 0 <= k < |ids| :: ids[k] in within
    ensures |ids| <= |within|
    decreases |ids|
  {
    if ids != [] {
      var n := |ids| - 1;
      AscendingWithin(ids[..n], within - {ids[n]});
    }
  }

  lemma {:induction false} WithinAscending(within: set<nat>, ids: seq<nat>)
    requires forall i | i in within :: i in ids
    ensures |within| <= |ids|
    decreases |ids|
  {
    if ids == [] {
      assert within == {};
    } else {
      var n := |ids| - 1;
      assert forall i | i in within - {ids[n]} :: i in ids[..n];
      WithinAscending(within - {ids[n]}, ids[..n]);
      assert within <= (within - {ids[n]}) + {ids[n]};
    }
  }

  /** The recoverable rows up to and including `i` that a sweep picks. */
  ghost function PickedUpTo(reg: Registry, take: nat, s: State, olderThan: nat, i: nat): set<nat> {
    set k | 0 <= k <= i && Recoverable(reg, s, k) && Picked(reg, take, s, olderThan, k)
  }

  /** If a recoverable row is not picked, the stuck rows and the picked ones before it fill the batch. */
  lemma EnoughArePicked(reg: Registry, take: nat, s: State, olderThan: nat, i: nat)
    requires Recoverable(reg, s, i) && AllOlder(s, olderThan) && !Picked(reg, take, s, olderThan, i)
    ensures take <= |StuckBefore(reg, s, i)| + |PickedUpTo(reg, take, s, olderThan, i)|
  {
    var ids := Stale(s.rows, olderThan, take);
    StaleSound(s.rows, 0, olderThan, take);
    assert i !in ids && |ids| == take;
    var batch := StuckBefore(reg, s, i) + PickedUpTo(reg, take, s, olderThan, i);
    forall j | 0 <= j < |ids| ensures ids[j] in batch {
      assert ids[j] in ids;
      assert Stuck(reg, s, ids[j]) || Recoverable(reg, s, ids[j]);
    }
    AscendingWithin(ids, batch);
  }

  /** A row with a full batch of stuck rows before it is not picked. */
  lemma CrowdedOut(reg: Registry, take: nat, s: State, olderThan: nat, i: nat)
    requires i < |s.rows| && AllOlder(s, olderThan) && |StuckBefore(reg, s, i)| >= take
    ensures !Picked(reg, take, s, olderThan, i)
  {
    var ids := Stale(s.rows, olderThan, take);
    StaleSound(s.rows, 0, olderThan, take);
    if i in ids {
      var before := StuckBefore(reg, s, i);
      forall k | k in before ensures k in ids {
        assert Matches(s.rows[k], olderThan);
      }
      WithinAscending(before + {i}, ids);
    }
  }

  // ------------------------------------------------------------------- all rounds

  /** The states between the rounds of a recovery, in order. */
  ghost predicate Rounds(reg: Registry, take: nat, trace: seq<State>) {
    trace != [] && forall j, k | 0 <= j < k < |trace| && k == j + 1 :: Round(reg, take, trace[j], trace[k])
  }

  /** A round does not change who is stuck, and finishes a recoverable row or a batch's worth of the work before it. */
  lemma RoundProgress(reg: Registry, take: nat, s: State, t: State, i: nat)
    requires Inv(reg, s) && Quiescent(s) && i < |s.rows| && Round(reg, take, s, t)
    ensures Inv(reg, t) && Quiescent(t) && SameFiles(s, t)
    ensures StuckBefore(reg, t, i) == StuckBefore(reg, s, i)
    ensures Recoverable(reg, s, i) && |StuckBefore(reg, s, i)| < take ==>
              || Finished(reg, t.rows[i])
              || (Recoverable(reg, t, i) && |WorkUpTo(reg, t, i)| + (take - |StuckBefore(reg, s, i)|) <= |WorkUpTo(reg, s, i)|)
    ensures Finished(reg, s.rows[i]) && s.rows[i].mime in reg ==> t.rows[i] == s.rows[i]
    ensures Stuck(reg, s, i) || |StuckBefore(reg, s, i)| >= take ==>
              t.rows[i] == s.rows[i] && (i in t.jobs <==> i in s.jobs)
  {
    var olderThan: nat, actions: seq<Action> :|
      AllOlder(s, olderThan) && AllWork(actions) && Quiescent(t) &&
      t == RunAll(reg, Next(reg, s, Sweep(olderThan, take, {})), actions);
    RoundEffect(reg, take, s, t, olderThan, actions, i);
    forall k: nat
      ensures Stuck(reg, t, k) <==> Stuck(reg, s, k)
      ensures Recoverable(reg, t, k) <==> Recoverable(reg, s, k) && !Picked(reg, take, s, olderThan, k)
    {
      RoundStuck(reg, take, s, t, olderThan, actions, k);
    }
    StaleSound(s.rows, 0, olderThan, take);
    assert RowSafe(reg, s.rows[i]);
    if Recoverable(reg, s, i) && |StuckBefore(reg, s, i)| < take {
      if !Picked(reg, take, s, olderThan, i) {
        EnoughArePicked(reg, take, s, olderThan, i);
        WorkLeft(WorkUpTo(reg, s, i), WorkUpTo(reg, t, i), PickedUpTo(reg, take, s, olderThan, i));
      }
    } else if |StuckBefore(reg, s, i)| >= take {
      CrowdedOut(reg, take, s, olderThan, i);
    }
  }

  lemma WorkLeft(before: set<nat>, after: set<nat>, done: set<nat>)
    requires done <= before && after == before - done
    ensures |after| == |before| - |done|
  {
  }

  lemma SmallerWithout(a: set<nat>, b: set<nat>, k: nat)
    requires a <= b && k in b && k !in a
    ensures |a| < |b|
  {
    assert a <= b - {k};
    SubsetSize(a, b - {k});
  }

  /** What holds at the start of every round. */
  ghost predicate Rested(reg: Registry, s: State, i: nat) {
    Inv(reg, s) && Quiescent(s) && i < |s.rows|
  }

  /** A row on its way: finished, or recoverable with less work before it every round. */
  ghost predicate OnItsWay(reg: Registry, take: nat, s: State, i: nat, roundsLeft: int)
    requires i < |s.rows|
  {
    && s.rows[i].mime in reg
    && (|| Finished(reg, s.rows[i])
        || (Recoverable(reg, s, i) && |StuckBefore(reg, s, i)| < take
            && |WorkUpTo(reg, s, i)| <= roundsLeft * (take - |StuckBefore(reg, s, i)|)))
  }

  lemma OneRoundOnItsWay(reg: Registry, take: nat, s: State, t: State, i: nat, roundsLeft: int)
    requires Rested(reg, s, i) && Round(reg, take, s, t) && OnItsWay(reg, take, s, i, roundsLeft)
    ensures Rested(reg, t, i) && OnItsWay(reg, take, t, i, roundsLeft - 1)
  {
    RoundProgress(reg, take, s, t, i);
    if Recoverable(reg, t, i) && !Finished(reg, t.rows[i]) {
      OneRoundLess(|WorkUpTo(reg, t, i)|, |WorkUpTo(reg, s, i)|, roundsLeft, take - |StuckBefore(reg, s, i)|);
    }
  }

  lemma OneRoundLess(after: int, before: int, rounds: int, share: int)
    requires after + share <= before <= rounds * share
    ensures after <= (rounds - 1) * share
  {
    assert (rounds - 1) * share == rounds * share - share;
  }

  /** A row the sweeps never reach. */
  ghost predicate Starved(reg: Registry, take: nat, s: State, i: nat) {
    Stuck(reg, s, i) || |StuckBefore(reg, s, i)| >= take
  }

  lemma OneRoundStarved(reg: Registry, take: nat, s: State, t: State, i: nat)
    requires Rested(reg, s, i) && Round(reg, take, s, t) && Starved(reg, take, s, i)
    ensures Rested(reg, t, i) && Starved(reg, take, t, i) && t.rows[i] == s.rows[i]
  {
    RoundProgress(reg, take, s, t, i);
  }

  /** Where a row stands before round `n` of a recovery that had `rounds` to go at its start. */
  ghost predicate StandsAt(reg: Registry, take: nat, trace: seq<State>, i: nat, n: nat, rounds: int) {
    n < |trace| && Rested(reg, trace[n], i) && OnItsWay(reg, take, trace[n], i, rounds - n)
  }

  lemma StandsNext(reg: Registry, take: nat, trace: seq<State>, i: nat, n: nat, rounds: int)
    requires Rounds(reg, take, trace) && n + 1 < |trace| && StandsAt(reg, take, trace, i, n, rounds)
    ensures StandsAt(reg, take, trace, i, n + 1, rounds)
  {
    OneRoundOnItsWay(reg, take, trace[n], trace[n + 1], i, rounds - n);
  }

  lemma {:induction false} RecoveredWithin(reg: Registry, take: nat, trace: seq<State>, i: nat, n: nat, rounds: int)
    requires Rounds(reg, take, trace) && n < |trace| && StandsAt(reg, take, trace, i, 0, rounds)
    ensures StandsAt(reg, take, trace, i, n, rounds)
  {
    if n > 0 {
      RecoveredWithin(reg, take, trace, i, n - 1, rounds);
      StandsNext(reg, take, trace, i, n - 1, rounds);
    }
  }

  /** A starved row is as it was, however many rounds follow. */
  lemma {:induction false} StarvedForever(reg: Registry, take: nat, trace: seq<State>, i: nat, n: nat)
    requires Rounds(reg, take, trace) && n < |trace| && Rested(reg, trace[0], i) && Starved(reg, take, trace[0], i)
    ensures Rested(reg, trace[n], i) && Starved(reg, take, trace[n], i) && trace[n].rows[i] == trace[0].rows[i]
  {
    if n > 0 {
      StarvedForever(reg, take, trace, i, n - 1);
      OneRoundStarved(reg, take, trace[n - 1], trace[n], i);
    }
  }

  /**
   Exactly which unfinished rows recovery completes, and by when. A batch less the stuck rows
   before it is what each round can do towards a row. After rounds enough for the recoverable rows
   up to and including it at that rate, a row with a parser that is neither settled nor failed has
   been finished if and only if no failed job keeps its id and fewer rows before it are stuck than
   one batch holds. Otherwise it is exactly as it was.
   */
  lemma RecoveryIff(reg: Registry, take: nat, trace: seq<State>, i: nat)
    requires Rounds(reg, take, trace) && Rested(reg, trace[0], i)
    requires trace[0].rows[i].mime in reg && !Finished(reg, trace[0].rows[i])
    requires |StuckBefore(reg, trace[0], i)| < take ==>
               |WorkUpTo(reg, trace[0], i)| <= (|trace| - 1) * (take - |StuckBefore(reg, trace[0], i)|)
    ensures var s, t := trace[0], trace[|trace| - 1];
            i < |t.rows| &&
            (Finished(reg, t.rows[i]) <==> i !in s.jobs && |StuckBefore(reg, s, i)| < take) &&
            (!Finished(reg, t.rows[i]) ==> t.rows[i] == s.rows[i])
  {
    var s, n := trace[0], |trace| - 1;
    assert RowSafe(reg, s.rows[i]);
    if i !in s.jobs && |StuckBefore(reg, s, i)| < take {
      assert StandsAt(reg, take, trace, i, 0, n);
      RecoveredWithin(reg, take, trace, i, n, n);
      assert StandsAt(reg, take, trace, i, n, n);
      assert (n - n) * (take - |StuckBefore(reg, trace[n], i)|) == 0;
      assert Recoverable(reg, trace[n], i) ==> i in WorkUpTo(reg, trace[n], i);
    } else {
      StarvedForever(reg, take, trace, i, n);
    }
  }

  /** A batch of one, a first row without a parser, a second one with: the second is never reached. */
  lemma OneParserlessRowStarvesTheRest(reg: Registry, odd: string, pdf: string, trace: seq<State>)
    requires odd !in reg && pdf in reg && Rounds(reg, 1, trace)
    requires trace[0] == State([Fresh(Arrive(0, 0, odd, true, true)), Fresh(Arrive(0, 0, pdf, true, true))], map[], map[])
    ensures var t := trace[|trace| - 1]; |t.rows| > 1 && t.rows[1].status.Pending?
  {
    var s := trace[0];
    assert RowSafe(reg, s.rows[0]) && RowSafe(reg, s.rows[1]);
    assert Rested(reg, s, 1);
    assert 0 in StuckBefore(reg, s, 1);
    AscendingWithin([0], StuckBefore(reg, s, 1));
    StarvedForever(reg, 1, trace, 1, |trace| - 1);
  }
}
