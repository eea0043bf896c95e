/**
 The clean-up script as it runs: the plan's loops over arrays, maps and sets, and the one
 transaction that re-reads, plans, merges, deletes, rewrites, checks, and commits or rolls
 back. The plan it builds is the one the other files reason about, and the transaction comes
 to exactly the outcome they decide.
 */
module CleanupScript {
  import opened Prelude
  import opened CleanupPlan
  import opened CleanupOrder
  import opened CleanupRun
  import opened CleanupSoundness
  import opened CleanupPostconditions
  import opened CleanupMeaning

  datatype Plan = Plan(ok: bool, merge: seq<Statement>, deletions: seq<Statement>, canonicalisations: seq<Statement>)

  function IdsWith(rows: seq<Row>, k: Scoped): seq<nat> {
    if rows == [] then []
    else
      var rest, last := IdsWith(rows[..|rows| - 1], k), rows[|rows| - 1];
      if CanonicalIdentity(last) == k then rest + [last.id] else rest
  }

  lemma IdsWithAppend(rows: seq<Row>, last: Row, k: Scoped)
    ensures IdsWith(rows + [last], k) == if CanonicalIdentity(last) == k then IdsWith(rows, k) + [last.id] else IdsWith(rows, k)
  {
    assert (rows + [last])[..|rows|] == rows;
  }

  lemma {:induction false} IdsWithAre(rows: seq<Row>, k: Scoped)
    ensures forall id :: id in IdsWith(rows, k) <==> id in Members(rows, k)
  {
    if rows != [] {
      var init, last := rows[..|rows| - 1], rows[|rows| - 1];
      IdsWithAre(init, k);
      MembersAppend(init, last, k);
      assert rows == init + [last];
    }
  }

  lemma MembersAppend(init: seq<Row>, last: Row, k: Scoped)
    ensures Members(init + [last], k) == Members(init, k) + if CanonicalIdentity(last) == k then {last.id} else {}
  {
    assert forall r :: r in init + [last] <==> r in init || r == last;
  }

  lemma LastIdIsFresh(rows: seq<Row>, k: Scoped)
    requires rows != [] && forall i, j | 0 <= i < j < |rows| :: rows[i].id != rows[j].id
    ensures rows[|rows| - 1].id !in IdsWith(rows[..|rows| - 1], k)
  {
    var init, last := rows[..|rows| - 1], rows[|rows| - 1];
    IdsWithAre(init, k);
    forall r | r in init ensures r.id != last.id {
      var j :| 0 <= j < |init| && init[j] == r;
      assert rows[j].id != rows[|rows| - 1].id;
    }
  }

  ghost predicate NoneTwice(ids: seq<nat>) {
    forall i, j | 0 <= i < j < |ids| :: ids[i] != ids[j]
  }

  lemma OneMoreId(ids: seq<nat>, id: nat)
    requires NoneTwice(ids) && id !in ids
    ensures NoneTwice(ids + [id])
  {
  }

  lemma {:induction false} IdsWithOnce(rows: seq<Row>, k: Scoped)
    requires forall i, j | 0 <= i < j < |rows| :: rows[i].id != rows[j].id
    ensures NoneTwice(IdsWith(rows, k))
  {
    if rows != [] {
      var init := rows[..|rows| - 1];
      IdsWithOnce(init, k);
      LastIdIsFresh(rows, k);
      OneMoreId(IdsWith(init, k), rows[|rows| - 1].id);
    }
  }

  /** With unique ids, the list of an identity's ids is the set of them, and has its size. */
  lemma IdsWithSize(rows: seq<Row>, k: Scoped)
    requires forall i, j | 0 <= i < j < |rows| :: rows[i].id != rows[j].id
    ensures IdSet(IdsWith(rows, k)) == Members(rows, k) && |IdsWith(rows, k)| == |Members(rows, k)|
  {
    IdsWithAre(rows, k);
    IdsWithOnce(rows, k);
    DistinctSize(IdsWith(rows, k));
    assert IdSet(IdsWith(rows, k)) == Members(rows, k);
  }

  /** The groups of more than one. */
  function Crowds(byKey: map<Scoped, seq<nat>>): set<set<nat>> {
    set k | k in byKey && |byKey[k]| > 1 :: IdSet(byKey[k])
  }

  /** The map the grouping pass builds: each row's id joins the list of its identity. */
  function GroupMap(rows: seq<Row>): map<Scoped, seq<nat>> {
    if rows == [] then map[]
    else Joined(GroupMap(rows[..|rows| - 1]), CanonicalIdentity(rows[|rows| - 1]), rows[|rows| - 1].id)
  }

  function Joined(byKey: map<Scoped, seq<nat>>, key: Scoped, id: nat): map<Scoped, seq<nat>> {
    if key in byKey then byKey[key := byKey[key] + [id]] else byKey[key := [id]]
  }

  lemma GroupMapAppend(rows: seq<Row>, last: Row)
    ensures GroupMap(rows + [last]) == Joined(GroupMap(rows), CanonicalIdentity(last), last.id)
  {
    assert (rows + [last])[..|rows|] == rows;
  }

  ghost predicate Grouped(byKey: map<Scoped, seq<nat>>, rows: seq<Row>) {
    forall k :: (k in byKey <==> IdsWith(rows, k) != []) && (k in byKey ==> byKey[k] == IdsWith(rows, k))
  }

  lemma GroupOneMore(byKey: map<Scoped, seq<nat>>, rows: seq<Row>, last: Row)
    requires Grouped(byKey, rows)
    ensures Grouped(Joined(byKey, CanonicalIdentity(last), last.id), rows + [last])
  {
    var next := Joined(byKey, CanonicalIdentity(last), last.id);
    forall k ensures (k in next <==> IdsWith(rows + [last], k) != []) && (k in next ==> next[k] == IdsWith(rows + [last], k)) {
      IdsWithAppend(rows, last, k);
    }
  }

  lemma {:induction false} GroupMapIs(rows: seq<Row>)
    ensures Grouped(GroupMap(rows), rows)
  {
    if rows != [] {
      var init, last := rows[..|rows| - 1], rows[|rows| - 1];
      assert rows == init + [last];
      GroupMapAppend(init, last);
      GroupMapIs(init);
      GroupOneMore(GroupMap(init), init, last);
    }
  }

  lemma GroupMapStep(rows: seq<Row>, i: nat)
    requires i < |rows|
    ensures GroupMap(rows[..i + 1]) == Joined(GroupMap(rows[..i]), CanonicalIdentity(rows[i]), rows[i].id)
  {
    assert rows[..i + 1] == rows[..i] + [rows[i]];
    GroupMapAppend(rows[..i], rows[i]);
  }

  /** Group by canonical identity in one pass. */
  method GroupByIdentity(events: seq<Row>) returns (byKey: map<Scoped, seq<nat>>)
    ensures byKey == GroupMap(events)
  {
    byKey := map[];
    var i := 0;
    while i < |events|
      invariant 0 <= i <= |events|
      invariant byKey == GroupMap(events[..i])
    {
      var event := events[i];
      var key := CanonicalIdentity(event);
      GroupMapStep(events, i);
      if key in byKey {
        byKey := byKey[key := byKey[key] + [event.id]];
      } else {
        byKey := byKey[key := [event.id]];
      }
      i := i + 1;
    }
    assert events[..i] == events;
  }

  /** The identities more than one row has. */
  method CanonicalCollisionGroups(events: seq<Row>) returns (groups: set<set<nat>>)
    requires forall i, j | 0 <= i < j < |events| :: events[i].id != events[j].id
    ensures groups == CollisionGroups(events)
  {
    var byKey := GroupByIdentity(events);
    groups := Crowds(byKey);
    GroupMapIs(events);
    GroupsAgree(events, byKey);
  }

  lemma GroupsAgree(events: seq<Row>, byKey: map<Scoped, seq<nat>>)
    requires forall i, j | 0 <= i < j < |events| :: events[i].id != events[j].id
    requires Grouped(byKey, events)
    ensures Crowds(byKey) == CollisionGroups(events)
  {
    var groups := Crowds(byKey);
    forall g | g in CollisionGroups(events) ensures g in groups {
      var r :| r in events && |Members(events, CanonicalIdentity(r))| > 1 && g == Members(events, CanonicalIdentity(r));
      var k := CanonicalIdentity(r);
      IdsWithSize(events, k);
      assert k in byKey && byKey[k] == IdsWith(events, k);
    }
    forall g | g in groups ensures g in CollisionGroups(events) {
      var k :| k in byKey && |byKey[k]| > 1 && g == IdSet(byKey[k]);
      assert byKey[k] == IdsWith(events, k);
      IdsWithSize(events, k);
      ItsGroup(events, k);
    }
  }

  /** A row has its key in the map exactly when it is planned. */
  predicate PlannedRight(a: Approved, r: Row, planned: map<nat, string>) {
    if Planned(a, r) then r.id in planned && planned[r.id] == CanonicalKeyForRow(r) else r.id !in planned
  }

  /** The map of planned keys, by id. */
  ghost predicate PlannedBy(a: Approved, survivors: seq<Row>, planned: map<nat, string>) {
    forall k | 0 <= k < |survivors| :: PlannedRight(a, survivors[k], planned)
  }

  /** The final keys as the script looks them up. */
  function LookedUpKeys(planned: map<nat, string>, rows: seq<Row>): map<Scoped, nat> {
    if rows == [] then map[]
    else
      var last := rows[|rows| - 1];
      var finalKey := if last.id in planned then planned[last.id] else last.key;
      LookedUpKeys(planned, rows[..|rows| - 1])[Scoped(last.owner, finalKey) := last.id]
  }

  lemma {:induction false} LookedUpKeysAre(a: Approved, rows: seq<Row>, planned: map<nat, string>)
    requires PlannedBy(a, rows, planned)
    ensures LookedUpKeys(planned, rows) == FinalKeys(a, rows)
  {
    if rows != [] {
      LookedUpKeysAre(a, rows[..|rows| - 1], planned);
    }
  }

  lemma OneMoreHolder(planned: map<nat, string>, rows: seq<Row>, last: Row)
    ensures CurrentKeys(rows + [last]) == CurrentKeys(rows)[Scoped(last.owner, last.key) := last.id]
    ensures var finalKey := if last.id in planned then planned[last.id] else last.key;
            LookedUpKeys(planned, rows + [last]) == LookedUpKeys(planned, rows)[Scoped(last.owner, finalKey) := last.id]
  {
    assert (rows + [last])[..|rows|] == rows;
  }

  /** The two maps, filled in one pass over the survivors; later rows overwrite earlier ones. */
  method KeyHolders(survivors: seq<Row>, planned: map<nat, string>)
    returns (currentKeys: map<Scoped, nat>, finalKeys: map<Scoped, nat>)
    ensures currentKeys == CurrentKeys(survivors) && finalKeys == LookedUpKeys(planned, survivors)
  {
    currentKeys, finalKeys := map[], map[];
    var i := 0;
    while i < |survivors|
      invariant 0 <= i <= |survivors|
      invariant currentKeys == CurrentKeys(survivors[..i])
      invariant finalKeys == LookedUpKeys(planned, survivors[..i])
    {
      var event := survivors[i];
      assert survivors[..i + 1] == survivors[..i] + [event];
      OneMoreHolder(planned, survivors[..i], event);
      currentKeys := currentKeys[Scoped(event.owner, event.key) := event.id];
      var finalKey := if event.id in planned then planned[event.id] else event.key;
      finalKeys := finalKeys[Scoped(event.owner, finalKey) := event.id];
      i := i + 1;
    }
    assert survivors[..i] == survivors;
  }

  /** A row to delete is there, and without history unless that is exported. */
  predicate MayGo(a: Approved, db: Db, id: nat) {
    ById(db.rows, id).Some? && (id != a.exported ==> ChangesOf(db.changes, id) == [])
  }

  predicate AllMayGo(a: Approved, db: Db, ids: seq<nat>) {
    ids == [] || (AllMayGo(a, db, ids[..|ids| - 1]) && MayGo(a, db, ids[|ids| - 1]))
  }

  lemma {:induction false} AllMayGoIs(a: Approved, db: Db, ids: seq<nat>)
    ensures AllMayGo(a, db, ids) <==> forall id | id in ids :: MayGo(a, db, id)
  {
    if ids != [] {
      AllMayGoIs(a, db, ids[..|ids| - 1]);
      assert forall id :: id in ids <==> id in ids[..|ids| - 1] || id == ids[|ids| - 1];
    }
  }

  lemma OneMoreMayGo(a: Approved, db: Db, ids: seq<nat>, i: nat)
    requires i < |ids|
    ensures AllMayGo(a, db, ids[..i + 1]) <==> AllMayGo(a, db, ids[..i]) && MayGo(a, db, ids[i])
  {
    assert ids[..i + 1][..i] == ids[..i];
  }

  lemma OneMoreDeletion(rows: seq<Row>, ids: seq<nat>, i: nat)
    requires i < |ids|
    ensures Deletions(rows, ids[..i + 1]) ==
              Deletions(rows, ids[..i]) +
              var event := ById(rows, ids[i]);
              if event.Some? then [Delete(event.value.id, event.value.owner)] else []
  {
    assert ids[..i + 1][..i] == ids[..i];
  }

  /** The deletions, in the approved order; a missing row or unexpected history makes them invalid. */
  method PlanDeletions(a: Approved, db: Db) returns (deletions: seq<Statement>, resolvable: bool)
    ensures deletions == Deletions(db.rows, a.deleteIds)
    ensures resolvable <==> DeletionsResolvable(a, db)
  {
    deletions := [];
    var valid := true;
    var i := 0;
    while i < |a.deleteIds|
      invariant 0 <= i <= |a.deleteIds|
      invariant deletions == Deletions(db.rows, a.deleteIds[..i]) && |deletions| <= i
      invariant valid <==> AllMayGo(a, db, a.deleteIds[..i])
      invariant valid ==> |deletions| == i
    {
      var id := a.deleteIds[i];
      var event := ById(db.rows, id);
      OneMoreDeletion(db.rows, a.deleteIds, i);
      OneMoreMayGo(a, db, a.deleteIds, i);
      i := i + 1;
      if event.None? {
        valid := false;
        continue;
      }
      if id != a.exported && ChangesOf(db.changes, id) != [] {
        valid := false;
      }
      deletions := deletions + [Delete(event.value.id, event.value.owner)];
    }
    assert a.deleteIds[..i] == a.deleteIds;
    AllMayGoIs(a, db, a.deleteIds);
    resolvable := valid && |deletions| == |a.deleteIds|;
  }

  /** The map of planned keys once the first `n` survivors have been looked at. */
  ghost predicate PlannedSoFar(a: Approved, survivors: seq<Row>, n: nat, planned: map<nat, string>) {
    && (forall k | 0 <= k < n <= |survivors| :: PlannedRight(a, survivors[k], planned))
    && (forall k | n <= k < |survivors| :: survivors[k].id !in planned)
  }

  lemma PlannedKept(a: Approved, r: Row, planned: map<nat, string>, id: nat, key: string)
    requires r.id != id && PlannedRight(a, r, planned)
    ensures PlannedRight(a, r, planned[id := key])
  {
  }

  lemma PlannedAdded(a: Approved, r: Row, planned: map<nat, string>, key: string)
    requires Planned(a, r) && key == CanonicalKeyForRow(r)
    ensures PlannedRight(a, r, planned[r.id := key])
  {
  }

  lemma OneMorePlanned(a: Approved, survivors: seq<Row>, n: nat, planned: map<nat, string>, key: string)
    requires KeysDistinct(survivors) && n < |survivors| && PlannedSoFar(a, survivors, n, planned)
    requires PlannedRight(a, survivors[n], planned[survivors[n].id := key])
    ensures PlannedSoFar(a, survivors, n + 1, planned[survivors[n].id := key])
  {
    forall k | 0 <= k < n ensures PlannedRight(a, survivors[k], planned[survivors[n].id := key]) {
      PlannedKept(a, survivors[k], planned, survivors[n].id, key);
    }
  }

  lemma OneNotPlanned(a: Approved, survivors: seq<Row>, n: nat, planned: map<nat, string>)
    requires n < |survivors| && PlannedSoFar(a, survivors, n, planned) && !Planned(a, survivors[n])
    ensures PlannedSoFar(a, survivors, n + 1, planned)
  {
    assert PlannedRight(a, survivors[n], planned);
  }

  lemma RewritesGrow(a: Approved, survivors: seq<Row>, n: nat)
    requires n < |survivors|
    ensures Canonicalisations(a, survivors[..n + 1]) ==
              Canonicalisations(a, survivors[..n]) + (if Planned(a, survivors[n]) then [RewriteOf(survivors[n])] else [])
  {
    assert survivors[..n + 1][..n] == survivors[..n];
  }

  /** The rewrites, with the key planned for each id. */
  method PlanCanonicalisations(a: Approved, survivors: seq<Row>) returns (rewrites: seq<Statement>, planned: map<nat, string>)
    requires KeysDistinct(survivors)
    ensures rewrites == Canonicalisations(a, survivors)
    ensures PlannedBy(a, survivors, planned)
  {
    rewrites, planned := [], map[];
    var i := 0;
    while i < |survivors|
      invariant 0 <= i <= |survivors|
      invariant rewrites == Canonicalisations(a, survivors[..i])
      invariant PlannedSoFar(a, survivors, i, planned)
    {
      var event := survivors[i];
      RewritesGrow(a, survivors, i);
      if Planned(a, event) {
        var key := CanonicalKeyForRow(event);
        PlannedAdded(a, event, planned, key);
        OneMorePlanned(a, survivors, i, planned, key);
        rewrites := rewrites + [RewriteOf(event)];
        planned := planned[event.id := key];
      } else {
        OneNotPlanned(a, survivors, i, planned);
      }
      i := i + 1;
    }
    assert survivors[..i] == survivors;
  }

  /** No planned rewrite claims a key either map has for another row. */
  predicate NoHolder(survivors: seq<Row>, planned: map<nat, string>, current: map<Scoped, nat>, final: map<Scoped, nat>) {
    forall r | r in survivors && r.id in planned ::
      !HeldByAnother(current, CanonicalIdentity(r), r.id) && !HeldByAnother(final, CanonicalIdentity(r), r.id)
  }

  lemma NoHolderIsCollisionFree(a: Approved, rows: seq<Row>, planned: map<nat, string>)
    requires PlannedBy(a, Survivors(a, rows), planned)
    ensures var survivors := Survivors(a, rows);
            NoHolder(survivors, planned, CurrentKeys(survivors), LookedUpKeys(planned, survivors)) <==> CollisionFree(a, rows)
  {
    LookedUpKeysAre(a, Survivors(a, rows), planned);
  }

  /** The checks, given what the passes found. */
  predicate AllChecks(a: Approved, db: Db, groups: set<set<nat>>, resolvable: bool, collisionFree: bool) {
    && |db.rows| == a.eventCount && db.extractions == a.extractionCount
    && KeyIntegrity(db.rows) && Inventoried(a, db) && PairsShareAnOwner(a, db.rows)
    && groups == {{a.kept, a.dropped}, {a.spared, a.double}}
    && Exportable(a, db) && resolvable && collisionFree && FinalKeysUnique(a, db.rows)
    && ExclusionsRespected(a, db.rows) && MergeValid(a, db.rows)
  }

  lemma AllChecksAre(a: Approved, db: Db, groups: set<set<nat>>, resolvable: bool, collisionFree: bool)
    requires groups == CollisionGroups(db.rows)
    requires (resolvable <==> DeletionsResolvable(a, db)) && (collisionFree <==> CollisionFree(a, db.rows))
    ensures AllChecks(a, db, groups, resolvable, collisionFree) <==> PlanOk(a, db)
  {
  }

  /** All checks, and the three kinds of operation. */
  method BuildPlan(a: Approved, db: Db) returns (plan: Plan)
    requires ValidDb(db)
    ensures plan.ok <==> PlanOk(a, db)
    ensures plan.ok <==> Findings(a, db)
    ensures plan.merge == Merge(a, db.rows)
    ensures plan.deletions == Deletions(db.rows, a.deleteIds)
    ensures plan.canonicalisations == Canonicalisations(a, Survivors(a, db.rows))
  {
    IdsDistinct(db);
    var groups := CanonicalCollisionGroups(db.rows);
    var deletions, resolvable := PlanDeletions(a, db);
    var survivors := Survivors(a, db.rows);
    SurvivorsDistinct(a, db.rows);
    var rewrites, planned := PlanCanonicalisations(a, survivors);
    var currentKeys, finalKeys := KeyHolders(survivors, planned);
    var collisionFree := NoHolder(survivors, planned, currentKeys, finalKeys);
    NoHolderIsCollisionFree(a, db.rows, planned);
    AllChecksAre(a, db, groups, resolvable, collisionFree);
    PlanOkIs(a, db);
    plan := Plan(AllChecks(a, db, groups, resolvable, collisionFree), Merge(a, db.rows), deletions, rewrites);
  }

  class Cleanup {
    var db: Db

    constructor (db: Db)
      ensures this.db == db
    {
      this.db := db;
    }

    /** Statements in order, until one fails. */
    method RunAll(sts: seq<Statement>) returns (ok: bool)
      modifies this
      ensures ok <==> ExecAll(old(db), sts).Some?
      ensures ok ==> ExecAll(old(db), sts) == Some(db)
    {
      var i := 0;
      while i < |sts|
        invariant 0 <= i <= |sts|
        invariant ExecAll(old(db), sts[..i]) == Some(db)
      {
        assert sts[..i + 1] == sts[..i] + [sts[i]];
        ExecAllAppend(old(db), sts[..i], sts[i]);
        var next := Exec(db, sts[i]);
        if next.None? {
          NothingAfterFailure(old(db), sts, i + 1);
          return false;
        }
        db := next.value;
        i := i + 1;
      }
      assert sts[..i] == sts;
      return true;
    }

    /**
     The transaction. It commits what the accepted plan comes to, or leaves the database as it
     was; and it commits exactly when the plan is accepted, the excluded rows hold what they were
     excluded with and every rewrite ends well.
     */
    method Apply(a: Approved) returns (committed: bool)
      requires ValidDb(db) && Consistent(a)
      modifies this
      ensures committed <==> PlanOk(a, old(db)) && ExcludedHold(a, old(db).rows) && RewritesEndWell(a, old(db).rows)
      ensures db == if committed then Cleaned(a, old(db)) else old(db)
    {
      var start := db;
      CommitsIff(a, start);
      var plan := BuildPlan(a, start);
      if !plan.ok {
        return false;
      }
      AllTogether(start, plan.merge, plan.deletions, plan.canonicalisations);
      OrderDoesNotMatter(a, start, plan.deletions, plan.canonicalisations);
      var ok := RunAll(plan.merge);
      if ok {
        ok := RunAll(plan.deletions);
      }
      if ok {
        ok := RunAll(plan.canonicalisations);
      }
      if ok && PostOk(a, db) {
        return true;
      }
      db := start;
      return false;
    }
  }

  /** One failure fails the whole. */
  lemma {:induction false} NothingAfterFailure(db: Db, sts: seq<Statement>, n: nat)
    requires n <= |sts| && ExecAll(db, sts[..n]).None?
    ensures ExecAll(db, sts).None?
    decreases |sts| - n
  {
    if n < |sts| {
      assert sts[..n + 1] == sts[..n] + [sts[n]];
      ExecAllAppend(db, sts[..n], sts[n]);
      NothingAfterFailure(db, sts, n + 1);
    } else {
      assert sts[..n] == sts;
    }
  }

  /** Three batches one after the other are one run. */
  lemma AllTogether(db: Db, a: seq<Statement>, b: seq<Statement>, c: seq<Statement>)
    ensures ExecAll(db, a + b + c).Some? ==>
              ExecAll(db, a).Some? && ExecAll(ExecAll(db, a).value, b).Some? &&
              ExecAll(ExecAll(ExecAll(db, a).value, b).value, c) == ExecAll(db, a + b + c)
  {
    if ExecAll(db, a + b + c).Some? {
      assert (a + b + c)[..|a|] == a && (a + b + c)[..|a + b|] == a + b;
      if ExecAll(db, a).None? {
        NothingAfterFailure(db, a + b + c, |a|);
      } else if ExecAll(db, a + b).None? {
        NothingAfterFailure(db, a + b + c, |a + b|);
      } else {
        ExecAllJoins(db, a, b);
        ExecAllJoins(db, a + b, c);
      }
    }
  }
}
