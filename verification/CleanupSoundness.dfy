/**
 Soundness of the clean-up. An accepted plan, run in any order of its deletions and then of
 its rewrites, ends in one database; the post-conditions hold there exactly when the excluded
 rows hold the companies they were excluded with and no rewritten company ends in a period or
 a space.
 */
module CleanupSoundness {
  import opened Prelude
  import opened Calendar
  import opened Identity
  import opened CleanupPlan
  import opened CleanupOrder
  import opened CleanupRun

  // ----------------------------------------------------------- any order at all

  lemma {:induction false} OnceEach(sts: seq<Statement>, st: Statement)
    requires NoRepeats(sts)
    ensures multiset(sts)[st] <= 1
  {
    if sts != [] {
      var init, last := sts[..|sts| - 1], sts[|sts| - 1];
      assert sts == init + [last];
      OnceEach(init, st);
      if st == last {
        assert forall i | 0 <= i < |init| :: init[i] != last;
        assert st !in multiset(init);
      }
    }
  }

  lemma TwiceCounts(sts: seq<Statement>, i: nat, j: nat)
    requires i < j < |sts| && sts[i] == sts[j]
    ensures multiset(sts)[sts[i]] >= 2
  {
    var left, right := sts[..j], sts[j..];
    assert sts == left + right;
    assert left[i] in multiset(left) && right[0] in multiset(right);
  }

  /** A reordering of statements without repeats has none either, and the same statements. */
  lemma ReorderingIsClean(sts: seq<Statement>, plan: seq<Statement>)
    requires multiset(sts) == multiset(plan) && NoRepeats(plan)
    ensures NoRepeats(sts) && forall st :: st in sts <==> st in plan
  {
    forall i, j | 0 <= i < j < |sts| ensures sts[i] != sts[j] {
      if sts[i] == sts[j] {
        TwiceCounts(sts, i, j);
        OnceEach(plan, sts[i]);
      }
    }
    forall st ensures st in sts <==> st in plan {
      assert st in sts <==> st in multiset(sts);
      assert st in plan <==> st in multiset(plan);
    }
  }

  lemma {:induction false} DeletionsAre(rows: seq<Row>, ids: seq<nat>)
    ensures forall st | st in Deletions(rows, ids) ::
              exists r | r in rows :: r.id in ids && st == Delete(r.id, r.owner)
    ensures forall id | id in ids && ById(rows, id).Some? ::
              exists st | st in Deletions(rows, ids) :: st.Delete? && st.id == id
  {
    if ids != [] {
      var init, last := ids[..|ids| - 1], ids[|ids| - 1];
      DeletionsAre(rows, init);
      assert forall id :: id in ids <==> id in init || id == last;
      var rest, row := Deletions(rows, init), ById(rows, last);
      if row.Some? {
        var st := Delete(row.value.id, row.value.owner);
        assert Deletions(rows, ids) == rest + [st];
        assert forall x :: x in rest + [st] <==> x in rest || x == st;
      }
    }
  }

  lemma {:induction false} DeletionsOnce(rows: seq<Row>, ids: seq<nat>)
    requires forall i, j | 0 <= i < j < |ids| :: ids[i] != ids[j]
    ensures NoRepeats(Deletions(rows, ids))
  {
    if ids != [] {
      var init, last := ids[..|ids| - 1], ids[|ids| - 1];
      DeletionsOnce(rows, init);
      DeletionsAre(rows, init);
      var rest := Deletions(rows, init);
      assert last !in init;
      forall i | 0 <= i < |rest| ensures rest[i].Delete? && rest[i].id != last {
        assert rest[i] in rest;
      }
    }
  }

  lemma {:induction false} CanonicalisationsAre(a: Approved, rows: seq<Row>)
    ensures forall st :: st in Canonicalisations(a, rows) <==> exists r | r in rows :: Planned(a, r) && st == RewriteOf(r)
  {
    if rows != [] {
      var init, last := rows[..|rows| - 1], rows[|rows| - 1];
      CanonicalisationsAre(a, init);
      assert forall r :: r in rows <==> r in init || r == last;
      var rest := Canonicalisations(a, init);
      assert forall x :: x in rest + [RewriteOf(last)] <==> x in rest || x == RewriteOf(last);
    }
  }

  // ------------------------------------------------------------ the merge first

  lemma {:induction false} VenueMoves(a: Approved, rows: seq<Row>)
    ensures WithVenue(rows, a.kept, a.newVenue) == RowsAfter(a, rows, {}, {})
  {
    if rows != [] {
      VenueMoves(a, rows[..|rows| - 1]);
    }
  }

  lemma {:induction false} NothingDropped(changes: seq<Change>)
    ensures ChangesAfter(changes, {}) == changes
  {
    if changes != [] {
      NothingDropped(changes[..|changes| - 1]);
    }
  }

  /** The kept row's owner. */
  function KeptOwner(a: Approved, rows: seq<Row>): nat {
    var kept := ById(rows, a.kept);
    if kept.Some? then kept.value.owner else 0
  }

  lemma MergeRuns(a: Approved, db: Db)
    requires MergeValid(a, db.rows)
    ensures ExecAll(db, Merge(a, db.rows)) == Some(StateAt(a, db, KeptOwner(a, db.rows), {}, {}))
  {
    var owner := KeptOwner(a, db.rows);
    var record := Record(Change(a.kept, owner, VENUE, a.oldVenue, a.newVenue));
    var venue := SetVenue(a.kept, owner, a.newVenue);
    assert Merge(a, db.rows) == [record] + [venue];
    assert [record][..0] == [];
    assert ExecAll(db, [record]) == Exec(db, record);
    ExecAllAppend(db, [record], venue);
    VenueMoves(a, db.rows);
    NothingDropped(MergedChanges(a, db, owner));
  }

  // ---------------------------------------------------------------- order freedom

  /** The ids an accepted plan rewrites. */
  function PlannedIds(a: Approved, rows: seq<Row>): set<nat> {
    set r | r in rows && r.id !in a.deleteIds && Planned(a, r) :: r.id
  }

  /** The database every accepted plan ends in. */
  ghost function Cleaned(a: Approved, db: Db): Db {
    StateAt(a, db, KeptOwner(a, db.rows), Deleted(a), PlannedIds(a, db.rows))
  }

  lemma {:induction false} SurvivorsDistinct(a: Approved, rows: seq<Row>)
    requires KeysDistinct(rows)
    ensures KeysDistinct(Survivors(a, rows))
  {
    if rows != [] {
      var init, last := rows[..|rows| - 1], rows[|rows| - 1];
      SurvivorsDistinct(a, init);
      SurvivorsAre(a, init);
      var rest := Survivors(a, init);
      forall i | 0 <= i < |rest|
        ensures rest[i].id != last.id && Scoped(rest[i].owner, rest[i].key) != Scoped(last.owner, last.key)
      {
        assert rest[i] in init;
        var j :| 0 <= j < |init| && init[j] == rest[i];
        assert rows[j] == init[j];
      }
    }
  }

  lemma AcceptedIsReady(a: Approved, db: Db)
    requires ValidDb(db) && PlanOk(a, db)
    ensures Ready(a, db, KeptOwner(a, db.rows))
  {
    SurvivorsDistinct(a, db.rows);
    LastWriteWinsIsEnough(a, Survivors(a, db.rows));
    var kept := ById(db.rows, a.kept).value;
    forall r | r in db.rows && r.id == a.kept ensures r == kept { RowById(db, r, kept); }
  }

  lemma DeletionIds(a: Approved, db: Db, ds: seq<Statement>)
    requires DeletionsResolvable(a, db) && forall st :: st in ds <==> st in Deletions(db.rows, a.deleteIds)
    ensures IdsOf(ds) == Deleted(a) && forall st | st in ds :: IsDeletion(a, db, st)
  {
    DeletionsAre(db.rows, a.deleteIds);
    forall id | id in a.deleteIds ensures id in IdsOf(ds) {
      var st :| st in Deletions(db.rows, a.deleteIds) && st.Delete? && st.id == id;
      assert st in ds;
    }
    forall st | st in ds ensures IsDeletion(a, db, st) {
      assert st in Deletions(db.rows, a.deleteIds);
    }
  }

  lemma RewriteIds(a: Approved, db: Db, rs: seq<Statement>)
    requires forall st :: st in rs <==> st in Canonicalisations(a, Survivors(a, db.rows))
    ensures IdsOf(rs) == PlannedIds(a, db.rows) && forall st | st in rs :: IsRewrite(a, db, st)
  {
    CanonicalisationsAre(a, Survivors(a, db.rows));
    SurvivorsAre(a, db.rows);
    forall r | r in db.rows && r.id !in a.deleteIds && Planned(a, r) ensures r.id in IdsOf(rs) {
      assert RewriteOf(r) in rs;
    }
    forall st | st in rs ensures IsRewrite(a, db, st) {
      assert st in Canonicalisations(a, Survivors(a, db.rows));
    }
  }

  /**
   Order freedom. Merge, then the deletions in any order, then the rewrites in any order: no
   statement fails, so no prefix violates the unique key, and the end is the same database.
   */
  lemma OrderDoesNotMatter(a: Approved, db: Db, ds: seq<Statement>, rs: seq<Statement>)
    requires ValidDb(db) && Consistent(a) && PlanOk(a, db)
    requires multiset(ds) == multiset(Deletions(db.rows, a.deleteIds))
    requires multiset(rs) == multiset(Canonicalisations(a, Survivors(a, db.rows)))
    ensures ExecAll(db, Merge(a, db.rows) + ds + rs) == Some(Cleaned(a, db))
  {
    var owner := KeptOwner(a, db.rows);
    AcceptedIsReady(a, db);
    MergeRuns(a, db);
    DeletionsOnce(db.rows, a.deleteIds);
    ReorderingIsClean(ds, Deletions(db.rows, a.deleteIds));
    DeletionIds(a, db, ds);
    DeletesInAnyOrder(a, db, owner, ds);
    ExecAllJoins(db, Merge(a, db.rows), ds);
    SameMembers(rs, Canonicalisations(a, Survivors(a, db.rows)));
    RewriteIds(a, db, rs);
    RewritesInAnyOrder(a, db, owner, rs);
    ExecAllJoins(db, Merge(a, db.rows) + ds, rs);
  }

  lemma SameMembers(s: seq<Statement>, t: seq<Statement>)
    requires multiset(s) == multiset(t)
    ensures forall st :: st in s <==> st in t
  {
    forall st ensures st in s <==> st in t {
      assert st in s <==> st in multiset(s);
      assert st in t <==> st in multiset(t);
    }
  }

  // -------------------------------------------------------------- post-conditions

  function CountVenue(changes: seq<Change>, id: nat): nat {
    if changes == [] then 0
    else
      var last := changes[|changes| - 1];
      CountVenue(changes[..|changes| - 1], id) + if last.eventId == id && last.field == VENUE then 1 else 0
  }

  function NonCanonicalIds(rows: seq<Row>): set<nat> {
    set r | r in rows && !IsCanonical(r) :: r.id
  }

  function ExpectedRemaining(a: Approved, rows: seq<Row>): set<nat> {
    set id | id in a.excluded && ById(rows, id).Some? && !IsCanonical(ById(rows, id).value)
  }

  predicate KeptFinal(a: Approved, rows: seq<Row>)
    requires a.kept in a.expected
  {
    var row, e := ById(rows, a.kept), a.expected[a.kept];
    && row.Some? && row.value.company == a.finalCompany && row.value.stage == e.stage && Iso(row.value.date) == e.date
    && row.value.venue == Some(a.newVenue) && row.value.key == EventKey(a.finalCompany, e.stage, e.date)
  }

  predicate SparedUntouched(a: Approved, rows: seq<Row>)
    requires a.spared in a.expected
  {
    var row, e := ById(rows, a.spared), a.expected[a.spared];
    && row.Some? && row.value.company == e.company && row.value.time == e.time && row.value.venue == e.venue
    && Near(row.value.confidence, e.confidence)
  }

  /** The row left alone is there, with its company and a key that reproduces. */
  predicate ExcludedUntouched(a: Approved, rows: seq<Row>, id: nat)
    requires id in a.excluded
  {
    var row := ById(rows, id);
    row.Some? && row.value.company == a.excluded[id] && row.value.key == KeyForRow(row.value)
  }

  predicate PostOk(a: Approved, db: Db)
    requires a.kept in a.expected && a.spared in a.expected
  {
    && |db.rows| == a.eventCount - |a.deleteIds|
    && (forall id | id in a.deleteIds :: ById(db.rows, id).None?)
    && ById(db.rows, a.kept).Some? && ById(db.rows, a.spared).Some?
    && NonCanonicalIds(db.rows) == ExpectedRemaining(a, db.rows)
    && KeyIntegrity(db.rows)
    && CollisionGroups(db.rows) == {}
    && KeptFinal(a, db.rows) && SparedUntouched(a, db.rows)
    && (forall id | id in a.excluded :: ExcludedUntouched(a, db.rows, id))
    && ChangesOf(db.changes, a.exported) == []
    && CountVenue(db.changes, a.kept) == 1
    && db.extractions == a.extractionCount
  }

  // ------------------------------------------------- what the plan does not check

  /** The excluded rows exist and hold the companies they were excluded with. */
  ghost predicate ExcludedHold(a: Approved, rows: seq<Row>) {
    forall id | id in a.excluded :: ById(rows, id).Some? && ById(rows, id).value.company == a.excluded[id]
  }

  /** No rewritten company still ends in a period or a space. */
  ghost predicate RewritesEndWell(a: Approved, rows: seq<Row>) {
    forall r | r in rows && r.id !in a.deleteIds && Planned(a, r) :: !EndsBadly(Canonical(r.company))
  }

  /** The cleaned table, row by row. */
  lemma CleanedRows(a: Approved, db: Db)
    requires ValidDb(db)
    ensures var out := Cleaned(a, db).rows;
            (forall r | r in db.rows && r.id !in a.deleteIds :: Moved(a, r, PlannedIds(a, db.rows)) in out) &&
            (forall q | q in out :: exists r | r in db.rows :: r.id !in a.deleteIds && q == Moved(a, r, PlannedIds(a, db.rows)))
  {
    RowsAfterAre(a, db.rows, Deleted(a), PlannedIds(a, db.rows));
  }

  /** A row of the cleaned table comes from the one row of its id. */
  lemma CleanedFrom(a: Approved, db: Db, q: Row, r: Row)
    requires ValidDb(db) && q in Cleaned(a, db).rows && r in db.rows && r.id == q.id
    ensures r.id !in a.deleteIds && q == Moved(a, r, PlannedIds(a, db.rows))
  {
    CleanedRows(a, db);
    var o :| o in db.rows && o.id !in a.deleteIds && q == Moved(a, o, PlannedIds(a, db.rows));
    RowById(db, o, r);
  }

  lemma CleanedIdsAreOld(a: Approved, db: Db, q: Row)
    requires ValidDb(db) && q in Cleaned(a, db).rows
    ensures q.id !in a.deleteIds && exists r | r in db.rows :: r.id == q.id
  {
    CleanedRows(a, db);
  }

  /** Looking a row up after the clean-up finds what it became, or nothing if it was deleted. */
  lemma CleanedById(a: Approved, db: Db, id: nat)
    requires ValidDb(db)
    ensures var before, after := ById(db.rows, id), ById(Cleaned(a, db).rows, id);
            if id in a.deleteIds || before.None? then after.None?
            else after == Some(Moved(a, before.value, PlannedIds(a, db.rows)))
  {
    var before, after := ById(db.rows, id), ById(Cleaned(a, db).rows, id);
    if before.Some? && id !in a.deleteIds {
      CleanedStays(a, db, before.value);
    }
    if after.Some? {
      CleanedIdsAreOld(a, db, after.value);
      CleanedFrom(a, db, after.value, before.value);
    }
  }

  lemma CleanedStays(a: Approved, db: Db, r: Row)
    requires ValidDb(db) && r in db.rows && r.id !in a.deleteIds
    ensures ById(Cleaned(a, db).rows, r.id).Some?
  {
    CleanedRows(a, db);
    var q := Moved(a, r, PlannedIds(a, db.rows));
    assert q in Cleaned(a, db).rows && q.id == r.id;
  }

  /** A row's company and key after the clean-up. */
  lemma MovedIs(a: Approved, db: Db, r: Row)
    requires ValidDb(db) && r in db.rows && r.id !in a.deleteIds
    ensures var q := Moved(a, r, PlannedIds(a, db.rows));
            q.id == r.id && q.owner == r.owner && q.stage == r.stage && q.date == r.date &&
            (if Planned(a, r) then q.company == Canonical(r.company) && q.key == CanonicalKeyForRow(r)
             else q.company == r.company && q.key == r.key)
  {
    if r.id in PlannedIds(a, db.rows) {
      var p :| p in db.rows && p.id !in a.deleteIds && Planned(a, p) && p.id == r.id;
      RowById(db, p, r);
    }
  }
}
