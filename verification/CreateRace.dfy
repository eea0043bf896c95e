/**
 Concurrent creation. `createEvent` is a lookup, an insert and, after a conflict, a recovery
 read: three statements with windows between them. Any number of executions interleave here
 over one table whose unique constraint on (owner, key) is the only arbiter.
 */
module CreateRace {

  datatype Row = Row(id: nat, owner: nat, key: string)

  datatype Phase = Start | Missed | Conflicted | Returned(id: nat) | Failed

  /** One execution, and how far it has come. */
  datatype Execution = Execution(owner: nat, key: string, phase: Phase)

  datatype World = World(rows: seq<Row>, executions: seq<Execution>)

  /** The statement execution `p` performs next, or a foreign update of a row's key. */
  datatype Action =
    | Lookup(p: nat)
    | Insert(p: nat, newId: nat)
    | Recover(p: nat)
    | Rekey(row: nat, key: string)

  function Find(rows: seq<Row>, owner: nat, key: string): (i: int)
    ensures i == -1 <==> forall j | 0 <= j < |rows| :: rows[j].owner != owner || rows[j].key != key
    ensures i != -1 ==> 0 <= i < |rows| && rows[i].owner == owner && rows[i].key == key
  {
    if rows == [] then -1
    else
      var last := rows[|rows| - 1];
      if last.owner == owner && last.key == key then |rows| - 1 else Find(rows[..|rows| - 1], owner, key)
  }

  function Moved(w: World, p: nat, phase: Phase): World
    requires p < |w.executions|
  {
    w.(executions := w.executions[p := w.executions[p].(phase := phase)])
  }

  /** An action whose turn has not come does nothing. */
  function Next(w: World, a: Action): World {
    match a
    case Lookup(p) =>
      if p < |w.executions| && w.executions[p].phase.Start? then
        var e := w.executions[p];
        var i := Find(w.rows, e.owner, e.key);
        Moved(w, p, if i != -1 then Returned(w.rows[i].id) else Missed)
      else w
    case Insert(p, newId) =>
      if p < |w.executions| && w.executions[p].phase.Missed? then
        var e := w.executions[p];
        if Find(w.rows, e.owner, e.key) != -1 then Moved(w, p, Conflicted)
        else Moved(w.(rows := w.rows + [Row(newId, e.owner, e.key)]), p, Returned(newId))
      else w
    case Recover(p) =>
      if p < |w.executions| && w.executions[p].phase.Conflicted? then
        var e := w.executions[p];
        var i := Find(w.rows, e.owner, e.key);
        Moved(w, p, if i != -1 then Returned(w.rows[i].id) else Failed)
      else w
    case Rekey(row, key) =>
      if row < |w.rows| && Find(w.rows, w.rows[row].owner, key) == -1
      then w.(rows := w.rows[row := w.rows[row].(key := key)]) else w
  }

  /** The world before action `k` of a run. */
  function At(w: World, actions: seq<Action>, k: nat): World
    requires k <= |actions|
  {
    if k == 0 then w else Next(At(w, actions, k - 1), actions[k - 1])
  }

  function RunAll(w: World, actions: seq<Action>): World {
    At(w, actions, |actions|)
  }

  ghost predicate KeysUnique(rows: seq<Row>) {
    forall i, j | 0 <= i < |rows| && 0 <= j < |rows| && rows[i].owner == rows[j].owner && rows[i].key == rows[j].key :: i == j
  }

  /** Some row carries the key. */
  predicate Held(rows: seq<Row>, owner: nat, key: string) {
    Find(rows, owner, key) != -1
  }

  /** An update that gives the row now carrying the key another one. */
  predicate Takes(w: World, a: Action, owner: nat, key: string) {
    && a.Rekey? && a.row < |w.rows| && w.rows[a.row].owner == owner && w.rows[a.row].key == key
    && !Held(w.rows, owner, a.key)
  }

  // ------------------------------------------------------------------- one key

  /** The row an execution is about exists. */
  ghost predicate Stored(rows: seq<Row>, e: Execution, id: nat) {
    exists i | 0 <= i < |rows| :: rows[i] == Row(id, e.owner, e.key)
  }

  ghost predicate Sound(rows: seq<Row>, e: Execution) {
    match e.phase
    case Start => true
    case Missed => true
    case Conflicted => Held(rows, e.owner, e.key)
    case Returned(id) => Stored(rows, e, id)
    case Failed => false
  }

  /** Keys are unique, and every execution for this owner and key is sound. */
  ghost predicate Inv(w: World, owner: nat, key: string) {
    && KeysUnique(w.rows)
    && forall p | 0 <= p < |w.executions| && w.executions[p].owner == owner && w.executions[p].key == key ::
         Sound(w.rows, w.executions[p])
  }

  lemma UniqueStays(w: World, a: Action)
    requires KeysUnique(w.rows)
    ensures KeysUnique(Next(w, a).rows)
  {
    var v := Next(w, a);
    if a.Rekey? && v != w {
      assert forall j | 0 <= j < |w.rows| && j != a.row :: v.rows[j] == w.rows[j];
    }
  }

  /** A row that carries the key keeps it through everything that does not take it. */
  lemma RowStays(w: World, a: Action, i: nat)
    requires i < |w.rows| && !Takes(w, a, w.rows[i].owner, w.rows[i].key)
    ensures i < |Next(w, a).rows| && Next(w, a).rows[i] == w.rows[i]
  {
  }

  lemma FoundIsHeld(rows: seq<Row>, i: nat)
    requires i < |rows|
    ensures Held(rows, rows[i].owner, rows[i].key)
  {
  }

  /** What is sound stays sound. */
  lemma SoundStays(w: World, a: Action, e: Execution)
    requires Sound(w.rows, e) && !Takes(w, a, e.owner, e.key)
    ensures Sound(Next(w, a).rows, e)
  {
    if e.phase.Conflicted? {
      var i := Find(w.rows, e.owner, e.key);
      RowStays(w, a, i);
      FoundIsHeld(Next(w, a).rows, i);
    } else if e.phase.Returned? {
      var i :| 0 <= i < |w.rows| && w.rows[i] == Row(e.phase.id, e.owner, e.key);
      RowStays(w, a, i);
    }
  }

  /** The statement an execution performs leaves it sound. */
  lemma OwnStep(w: World, a: Action)
    requires !a.Rekey? && a.p < |w.executions| && Sound(w.rows, w.executions[a.p])
    ensures Sound(Next(w, a).rows, Next(w, a).executions[a.p])
  {
    var v := Next(w, a);
    if v != w {
      var e := w.executions[a.p];
      var i := Find(w.rows, e.owner, e.key);
      if i == -1 && a.Insert? {
        assert v.rows[|w.rows|] == Row(a.newId, e.owner, e.key);
      }
    }
  }

  /** Everything that does not take the key keeps the invariant of the key. */
  lemma NextInv(w: World, a: Action, owner: nat, key: string)
    requires Inv(w, owner, key) && !Takes(w, a, owner, key)
    ensures Inv(Next(w, a), owner, key)
  {
    var v := Next(w, a);
    UniqueStays(w, a);
    forall p | 0 <= p < |v.executions| && v.executions[p].owner == owner && v.executions[p].key == key
      ensures Sound(v.rows, v.executions[p])
    {
      if !a.Rekey? && p == a.p {
        OwnStep(w, a);
      } else {
        SoundStays(w, a, w.executions[p]);
      }
    }
  }

  // --------------------------------------------------------------------- whole runs

  /** No update of the run takes the key; every other update of every row is allowed. */
  ghost predicate NeverTaken(w: World, actions: seq<Action>, owner: nat, key: string) {
    forall k | 0 <= k < |actions| :: !Takes(At(w, actions, k), actions[k], owner, key)
  }

  lemma {:induction false} RunInv(w: World, actions: seq<Action>, k: nat, owner: nat, key: string)
    requires Inv(w, owner, key) && NeverTaken(w, actions, owner, key) && k <= |actions|
    ensures Inv(At(w, actions, k), owner, key)
  {
    if k > 0 {
      RunInv(w, actions, k - 1, owner, key);
      NextInv(At(w, actions, k - 1), actions[k - 1], owner, key);
    }
  }

  /** An execution keeps its place and what it is about. */
  lemma {:induction false} SameExecution(w: World, actions: seq<Action>, k: nat, p: nat)
    requires p < |w.executions| && k <= |actions|
    ensures |At(w, actions, k).executions| == |w.executions|
    ensures At(w, actions, k).executions[p].owner == w.executions[p].owner
    ensures At(w, actions, k).executions[p].key == w.executions[p].key
  {
    if k > 0 {
      SameExecution(w, actions, k - 1, p);
    }
  }

  ghost predicate AllStarting(w: World) {
    KeysUnique(w.rows) && forall p | 0 <= p < |w.executions| :: w.executions[p].phase.Start?
  }

  /**
   Under every interleaving of any number of executions with any updates, as long as none takes the
   key of `p` from the row that carries it: `p` does not fail, it and any other execution for the
   same owner and key return one and the same row, and no other row carries that key.
   */
  lemma EveryoneGetsTheOneRow(w: World, actions: seq<Action>, p: nat, q: nat)
    requires AllStarting(w) && p < |w.executions| && q < |w.executions|
    requires w.executions[q].owner == w.executions[p].owner && w.executions[q].key == w.executions[p].key
    requires NeverTaken(w, actions, w.executions[p].owner, w.executions[p].key)
    ensures var v := RunAll(w, actions);
            && KeysUnique(v.rows) && |v.executions| == |w.executions|
            && !v.executions[p].phase.Failed?
            && (v.executions[p].phase.Returned? ==> Stored(v.rows, v.executions[p], v.executions[p].phase.id))
            && (v.executions[p].phase.Returned? && v.executions[q].phase.Returned? ==>
                  v.executions[p].phase.id == v.executions[q].phase.id)
  {
    var n := |actions|;
    RunInv(w, actions, n, w.executions[p].owner, w.executions[p].key);
    SameExecution(w, actions, n, p);
    SameExecution(w, actions, n, q);
    var v := RunAll(w, actions);
    assert Sound(v.rows, v.executions[p]) && Sound(v.rows, v.executions[q]);
  }

  /** The race is real: over any table without the key, two executions may both miss it, and both end with the one row. */
  lemma TwoCreatorsMeet(rows: seq<Row>, owner: nat, key: string, n: nat, m: nat)
    requires forall i, j | 0 <= i < j < |rows| :: rows[i].owner != rows[j].owner || rows[i].key != rows[j].key
    requires forall i | 0 <= i < |rows| :: rows[i].owner != owner || rows[i].key != key
    ensures var w := World(rows, [Execution(owner, key, Start), Execution(owner, key, Start)]);
            var actions := [Lookup(0), Lookup(1), Insert(0, n), Insert(1, m), Recover(1)];
            && AllStarting(w) && NeverTaken(w, actions, owner, key)
            && RunAll(w, actions) ==
                 World(rows + [Row(n, owner, key)],
                       [Execution(owner, key, Returned(n)), Execution(owner, key, Returned(n))])
  {
    var w := World(rows, [Execution(owner, key, Start), Execution(owner, key, Start)]);
    var actions := [Lookup(0), Lookup(1), Insert(0, n), Insert(1, m), Recover(1)];
    var more := rows + [Row(n, owner, key)];
    assert At(w, actions, 1) == World(rows, [Execution(owner, key, Missed), Execution(owner, key, Start)]);
    assert At(w, actions, 2) == World(rows, [Execution(owner, key, Missed), Execution(owner, key, Missed)]);
    assert At(w, actions, 3) == World(more, [Execution(owner, key, Returned(n)), Execution(owner, key, Missed)]);
    assert more[|rows|] == Row(n, owner, key);
    assert At(w, actions, 4) == World(more, [Execution(owner, key, Returned(n)), Execution(owner, key, Conflicted)]);
    assert At(w, actions, 5) == World(more, [Execution(owner, key, Returned(n)), Execution(owner, key, Returned(n))]);
  }

  // ------------------------------------------------------------- when one fails

  /** What concerns one execution at one moment: how far it has come, and whether its key is carried. */
  datatype Moment = Moment(phase: Phase, held: bool)

  function MomentOf(w: World, e: Execution, p: nat): Moment {
    Moment(if p < |w.executions| then w.executions[p].phase else e.phase, Held(w.rows, e.owner, e.key))
  }

  /** The moments of a run, before its first action to after its last. */
  function Moments(w: World, actions: seq<Action>, p: nat): (r: seq<Moment>)
    requires p < |w.executions|
    ensures |r| == |actions| + 1
  {
    seq(|actions| + 1, k requires 0 <= k <= |actions| => MomentOf(At(w, actions, k), w.executions[p], p))
  }

  /** Which actions of a run take the key of `p` away. */
  function Takings(w: World, actions: seq<Action>, p: nat): (r: seq<bool>)
    requires p < |w.executions|
    ensures |r| == |actions|
  {
    seq(|actions|, k requires 0 <= k < |actions| =>
      Takes(At(w, actions, k), actions[k], w.executions[p].owner, w.executions[p].key))
  }

  /**
   The execution was robbed: its insert was refused at `i`, at `j` an update took the key away, it
   was not carried again by anyone until `n`, and there came the first recovery read since the
   refusal.
   */
  ghost predicate Robbed(ms: seq<Moment>, takings: seq<bool>, actions: seq<Action>, p: nat, i: nat, j: nat, n: nat)
    requires |ms| == |actions| + 1 && |takings| == |actions|
  {
    && i < j < n < |actions|
    && ms[i] == Moment(Missed, true) && actions[i].Insert? && actions[i].p == p
    && takings[j] && (forall t | j < t <= n :: !ms[t].held)
    && actions[n] == Recover(p) && forall t | i < t < n :: actions[t] != Recover(p)
  }

  /** From one moment of an execution to the next. */
  predicate Law(m: Moment, next: Moment, a: Action, taking: bool, p: nat) {
    && (m.held && !next.held ==> taking)
    && (taking ==> a.Rekey?)
    && (m.phase.Failed? ==> next.phase.Failed?)
    && (next.phase.Failed? ==> m.phase.Failed? || (m.phase.Conflicted? && a == Recover(p) && !m.held))
    && (m.phase.Conflicted? ==> if a == Recover(p) then next.phase.Failed? <==> !m.held else next.phase.Conflicted?)
    && (m == Moment(Missed, true) && a.Insert? && a.p == p ==> next.phase.Conflicted?)
    && (next.phase.Conflicted? ==>
          (m.phase.Conflicted? && a != Recover(p)) || (m == Moment(Missed, true) && a.Insert? && a.p == p))
  }

  predicate LawAt(ms: seq<Moment>, takings: seq<bool>, actions: seq<Action>, p: nat, k: nat)
    requires |ms| == |actions| + 1 && |takings| == |actions| && k < |actions|
  {
    Law(ms[k], ms[k + 1], actions[k], takings[k], p)
  }

  ghost predicate Lawful(ms: seq<Moment>, takings: seq<bool>, actions: seq<Action>, p: nat) {
    |ms| == |actions| + 1 && |takings| == |actions| && forall k | 0 <= k < |actions| :: LawAt(ms, takings, actions, p, k)
  }

  /** A key that one action frees was taken by it. */
  lemma OnlyTakingFrees(w: World, a: Action, owner: nat, key: string)
    requires Held(w.rows, owner, key) && !Held(Next(w, a).rows, owner, key)
    ensures Takes(w, a, owner, key)
  {
    var i := Find(w.rows, owner, key);
    if !Takes(w, a, owner, key) {
      RowStays(w, a, i);
      FoundIsHeld(Next(w, a).rows, i);
    }
  }

  lemma OneLaw(w: World, a: Action, p: nat)
    requires p < |w.executions|
    ensures var e := w.executions[p];
            Law(MomentOf(w, e, p), MomentOf(Next(w, a), e, p), a, Takes(w, a, e.owner, e.key), p)
  {
    var e := w.executions[p];
    if Held(w.rows, e.owner, e.key) && !Held(Next(w, a).rows, e.owner, e.key) {
      OnlyTakingFrees(w, a, e.owner, e.key);
    }
  }

  /** Whose moment it is does not depend on the phase the execution had. */
  lemma SameMoment(w: World, e: Execution, f: Execution, p: nat)
    requires p < |w.executions| && e.owner == f.owner && e.key == f.key
    ensures MomentOf(w, e, p) == MomentOf(w, f, p)
  {
  }

  lemma StepIsLawful(w: World, actions: seq<Action>, p: nat, k: nat)
    requires p < |w.executions| && k < |actions|
    ensures LawAt(Moments(w, actions, p), Takings(w, actions, p), actions, p, k)
  {
    var u := At(w, actions, k);
    SameExecution(w, actions, k, p);
    SameExecution(w, actions, k + 1, p);
    OneLaw(u, actions[k], p);
    SameMoment(u, w.executions[p], u.executions[p], p);
    SameMoment(At(w, actions, k + 1), w.executions[p], u.executions[p], p);
  }

  lemma RunIsLawful(w: World, actions: seq<Action>, p: nat)
    requires p < |w.executions|
    ensures Lawful(Moments(w, actions, p), Takings(w, actions, p), actions, p)
  {
    forall k | 0 <= k < |actions| ensures LawAt(Moments(w, actions, p), Takings(w, actions, p), actions, p, k) {
      StepIsLawful(w, actions, p, k);
    }
  }

  /** Until its recovery read an execution in conflict stays where it is. */
  lemma {:induction false} StaysConflicted(ms: seq<Moment>, takings: seq<bool>, actions: seq<Action>, p: nat, i: nat, k: nat)
    requires Lawful(ms, takings, actions, p) && i <= k <= |actions| && ms[i].phase.Conflicted?
    requires forall t | i <= t < k :: actions[t] != Recover(p)
    ensures ms[k].phase.Conflicted?
    decreases k
  {
    if k > i {
      StaysConflicted(ms, takings, actions, p, i, k - 1);
      assert LawAt(ms, takings, actions, p, k - 1);
    }
  }

  /** A failed execution stays failed. */
  lemma {:induction false} StaysFailed(ms: seq<Moment>, takings: seq<bool>, actions: seq<Action>, p: nat, n: nat, k: nat)
    requires Lawful(ms, takings, actions, p) && n <= k <= |actions| && ms[n].phase.Failed?
    ensures ms[k].phase.Failed?
    decreases k
  {
    if k > n {
      StaysFailed(ms, takings, actions, p, n, k - 1);
      assert LawAt(ms, takings, actions, p, k - 1);
    }
  }

  lemma RobbedFails(ms: seq<Moment>, takings: seq<bool>, actions: seq<Action>, p: nat, i: nat, j: nat, n: nat)
    requires Lawful(ms, takings, actions, p) && Robbed(ms, takings, actions, p, i, j, n)
    ensures ms[|actions|].phase.Failed?
  {
    assert LawAt(ms, takings, actions, p, i);
    StaysConflicted(ms, takings, actions, p, i + 1, n);
    assert LawAt(ms, takings, actions, p, n);
    StaysFailed(ms, takings, actions, p, n + 1, |actions|);
  }

  /** Where a failed execution failed: a recovery read that found nothing. */
  lemma {:induction false} FailurePoint(ms: seq<Moment>, takings: seq<bool>, actions: seq<Action>, p: nat, k: nat) returns (n: nat)
    requires Lawful(ms, takings, actions, p) && ms[0].phase.Start? && k <= |actions| && ms[k].phase.Failed?
    ensures n < k && actions[n] == Recover(p) && ms[n].phase.Conflicted? && !ms[n].held
  {
    n := k - 1;
    assert LawAt(ms, takings, actions, p, n);
    if ms[n].phase.Failed? {
      n := FailurePoint(ms, takings, actions, p, n);
    }
  }

  /** Where an execution in conflict came into it: an insert that was refused, and no recovery read since. */
  lemma {:induction false} RefusalPoint(ms: seq<Moment>, takings: seq<bool>, actions: seq<Action>, p: nat, n: nat) returns (i: nat)
    requires Lawful(ms, takings, actions, p) && ms[0].phase.Start? && n <= |actions| && ms[n].phase.Conflicted?
    ensures i < n && actions[i].Insert? && actions[i].p == p && ms[i] == Moment(Missed, true)
    ensures forall t | i < t < n :: actions[t] != Recover(p)
  {
    i := n - 1;
    assert LawAt(ms, takings, actions, p, i);
    if ms[n - 1].phase.Conflicted? {
      i := RefusalPoint(ms, takings, actions, p, n - 1);
    }
  }

  /** Carried then and by no one now: somewhere between, the key was taken and not taken up again. */
  lemma {:induction false} TakingPoint(ms: seq<Moment>, takings: seq<bool>, actions: seq<Action>, p: nat, i: nat, n: nat)
    returns (j: nat)
    requires Lawful(ms, takings, actions, p) && i < n <= |actions| && ms[i].held && !ms[n].held
    ensures i <= j < n && takings[j] && forall t | j < t <= n :: !ms[t].held
    decreases n
  {
    j := n - 1;
    if ms[j].held {
      assert LawAt(ms, takings, actions, p, j);
    } else {
      j := TakingPoint(ms, takings, actions, p, i, n - 1);
    }
  }

  lemma FailedWasRobbed(ms: seq<Moment>, takings: seq<bool>, actions: seq<Action>, p: nat) returns (i: nat, j: nat, n: nat)
    requires Lawful(ms, takings, actions, p) && ms[0].phase.Start? && ms[|actions|].phase.Failed?
    ensures Robbed(ms, takings, actions, p, i, j, n)
  {
    n := FailurePoint(ms, takings, actions, p, |actions|);
    i := RefusalPoint(ms, takings, actions, p, n);
    j := TakingPoint(ms, takings, actions, p, i, n);
    assert LawAt(ms, takings, actions, p, i);
  }

  /**
   Exactly when a creation fails. Over any run of any number of executions and updates, an execution
   ends failed if and only if it was robbed.
   */
  lemma FailsIff(w: World, actions: seq<Action>, p: nat)
    requires p < |w.executions| && w.executions[p].phase.Start?
    ensures p < |RunAll(w, actions).executions|
    ensures RunAll(w, actions).executions[p].phase.Failed? <==>
              exists i, j, n :: Robbed(Moments(w, actions, p), Takings(w, actions, p), actions, p, i, j, n)
  {
    var ms, takings := Moments(w, actions, p), Takings(w, actions, p);
    RunIsLawful(w, actions, p);
    SameExecution(w, actions, |actions|, p);
    assert ms[|actions|].phase == RunAll(w, actions).executions[p].phase;
    assert ms[0].phase.Start?;
    if ms[|actions|].phase.Failed? {
      var i, j, n := FailedWasRobbed(ms, takings, actions, p);
    }
    forall i, j, n | Robbed(ms, takings, actions, p, i, j, n) ensures ms[|actions|].phase.Failed? {
      RobbedFails(ms, takings, actions, p, i, j, n);
    }
  }

  // -------------------------------------------------------------------- progress

  /** How many statements an execution still needs at most. */
  function Remaining(phase: Phase): nat {
    match phase
    case Start => 3
    case Missed => 2
    case Conflicted => 1
    case Returned(_) => 0
    case Failed => 0
  }

  /** Whatever the others do, an unfinished execution's own next statement brings it closer to its end, and only that moves it. */
  lemma OwnStatementProgresses(w: World, p: nat, newId: nat, other: Action)
    requires p < |w.executions| && Remaining(w.executions[p].phase) > 0
    ensures exists a | a in {Lookup(p), Insert(p, newId), Recover(p)} ::
              p < |Next(w, a).executions| && Remaining(Next(w, a).executions[p].phase) < Remaining(w.executions[p].phase)
    ensures other.Rekey? || other.p != p ==>
              p < |Next(w, other).executions| && Next(w, other).executions[p] == w.executions[p]
  {
    var phase := w.executions[p].phase;
    var a := if phase.Start? then Lookup(p) else if phase.Missed? then Insert(p, newId) else Recover(p);
    assert Remaining(Next(w, a).executions[p].phase) < Remaining(phase);
  }

  /** Row `i` carries the key. */
  ghost predicate Carries(rows: seq<Row>, i: int, owner: nat, key: string) {
    0 <= i < |rows| && rows[i].owner == owner && rows[i].key == key
  }

  ghost predicate Carried(rows: seq<Row>, owner: nat, key: string) {
    exists i: int :: Carries(rows, i, owner, key)
  }

  /** The execution returns the row that carries its key, and nothing is written. */
  ghost predicate ReturnsCarrier(w: World, v: World, p: nat)
    requires p < |w.executions|
  {
    var e := w.executions[p];
    v.rows == w.rows && p < |v.executions| &&
    forall i: int | Carries(w.rows, i, e.owner, e.key) :: v.executions[p].phase == Returned(w.rows[i].id)
  }

  /**
   What each statement does, where its turn has come. The lookup and the recovery read return the row
   that carries the key and write nothing; failing that the lookup goes on and the recovery read fails.
   The insert is refused where a row carries the key, and else adds one row, which it returns.
   */
  lemma StatementsAre(w: World, p: nat, newId: nat)
    requires p < |w.executions| && KeysUnique(w.rows)
    ensures var e, found := w.executions[p], Next(w, Lookup(p));
            e.phase.Start? ==>
              if Carried(w.rows, e.owner, e.key) then ReturnsCarrier(w, found, p)
              else found.rows == w.rows && p < |found.executions| && found.executions[p].phase == Missed
    ensures var e, put := w.executions[p], Next(w, Insert(p, newId));
            e.phase.Missed? ==>
              p < |put.executions| &&
              if Carried(w.rows, e.owner, e.key) then put.rows == w.rows && put.executions[p].phase == Conflicted
              else put.rows == w.rows + [Row(newId, e.owner, e.key)] && put.executions[p].phase == Returned(newId)
    ensures var e, again := w.executions[p], Next(w, Recover(p));
            e.phase.Conflicted? ==>
              if Carried(w.rows, e.owner, e.key) then ReturnsCarrier(w, again, p)
              else again.rows == w.rows && p < |again.executions| && again.executions[p].phase == Failed
  {
    var e := w.executions[p];
    var f := Find(w.rows, e.owner, e.key);
    if f != -1 {
      assert Carries(w.rows, f, e.owner, e.key);
    }
    assert forall i: int | Carries(w.rows, i, e.owner, e.key) :: i == f;
  }
}
