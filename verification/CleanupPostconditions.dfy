/** The post-conditions of the clean-up, one by one, and the exact condition for all of them. */
module CleanupPostconditions {
  import opened Prelude
  import opened Identity
  import opened CleanupPlan
  import opened CleanupRun
  import opened CleanupSoundness

  ghost predicate Accepted(a: Approved, db: Db) {
    ValidDb(db) && Consistent(a) && PlanOk(a, db)
  }

  // ------------------------------------------------------------------- the count

  function DeletedRows(rows: seq<Row>, ids: set<nat>): set<nat> {
    set r | r in rows && r.id in ids :: r.id
  }

  lemma {:induction false} RowsLeft(a: Approved, rows: seq<Row>, deleted: set<nat>, rewritten: set<nat>)
    requires forall i, j | 0 <= i < j < |rows| :: rows[i].id != rows[j].id
    ensures |RowsAfter(a, rows, deleted, rewritten)| + |DeletedRows(rows, deleted)| == |rows|
  {
    if rows == [] {
      assert DeletedRows(rows, deleted) == {};
    } else {
      var init, last := rows[..|rows| - 1], rows[|rows| - 1];
      RowsLeft(a, init, deleted, rewritten);
      assert forall r :: r in rows <==> r in init || r == last;
      forall r | r in init ensures r.id != last.id {
        var i :| 0 <= i < |init| && init[i] == r;
        assert rows[i].id != rows[|rows| - 1].id;
      }
      if last.id in deleted {
        assert DeletedRows(rows, deleted) == DeletedRows(init, deleted) + {last.id};
      } else {
        assert DeletedRows(rows, deleted) == DeletedRows(init, deleted);
      }
    }
  }

  function IdSet(ids: seq<nat>): set<nat> {
    set id | id in ids
  }

  lemma {:induction false} DistinctSize(ids: seq<nat>)
    requires forall i, j | 0 <= i < j < |ids| :: ids[i] != ids[j]
    ensures |IdSet(ids)| == |ids|
  {
    if ids != [] {
      var init, last := ids[..|ids| - 1], ids[|ids| - 1];
      DistinctSize(init);
      assert last !in init;
      assert forall id :: id in ids <==> id in init || id == last;
      assert IdSet(ids) == IdSet(init) + {last} && last !in IdSet(init);
    }
  }

  lemma AllFound(a: Approved, db: Db)
    requires DeletionsResolvable(a, db)
    ensures DeletedRows(db.rows, Deleted(a)) == Deleted(a)
  {
    forall id | id in a.deleteIds ensures id in DeletedRows(db.rows, Deleted(a)) {
      var r := ById(db.rows, id).value;
      assert r in db.rows && r.id in Deleted(a);
    }
  }

  lemma IdsDistinct(db: Db)
    requires ValidDb(db)
    ensures forall i, j | 0 <= i < j < |db.rows| :: db.rows[i].id != db.rows[j].id
  {
  }

  lemma CountIsRight(a: Approved, db: Db)
    requires ValidDb(db) && DeletionsResolvable(a, db)
    requires forall i, j | 0 <= i < j < |a.deleteIds| :: a.deleteIds[i] != a.deleteIds[j]
    ensures |Cleaned(a, db).rows| == |db.rows| - |a.deleteIds|
  {
    IdsDistinct(db);
    RowsLeft(a, db.rows, Deleted(a), PlannedIds(a, db.rows));
    DistinctSize(a.deleteIds);
    assert IdSet(a.deleteIds) == Deleted(a);
    AllFound(a, db);
  }

  // --------------------------------------------------------------- keys and companies

  lemma KeysReproduce(a: Approved, db: Db)
    requires ValidDb(db) && KeyIntegrity(db.rows)
    ensures KeyIntegrity(Cleaned(a, db).rows)
  {
    CleanedRows(a, db);
    forall q | q in Cleaned(a, db).rows ensures q.key == KeyForRow(q) {
      var r :| r in db.rows && r.id !in a.deleteIds && q == Moved(a, r, PlannedIds(a, db.rows));
      MovedIs(a, db, r);
      assert r.key == KeyForRow(r);
    }
  }

  /** A cleaned row is canonical, left alone, or a rewrite that ended badly. */
  lemma CleanedCanonical(a: Approved, db: Db, r: Row)
    requires ValidDb(db) && r in db.rows && r.id !in a.deleteIds
    ensures IsCanonical(Moved(a, r, PlannedIds(a, db.rows))) <==>
              if Planned(a, r) then !EndsBadly(Canonical(r.company)) else IsCanonical(r)
  {
    MovedIs(a, db, r);
    CanonicalFixedPoint(r.company);
  }

  lemma RemainingAre(a: Approved, db: Db, r: Row)
    requires ValidDb(db) && r in db.rows && r.id !in a.deleteIds
    ensures var q, out := Moved(a, r, PlannedIds(a, db.rows)), Cleaned(a, db).rows;
            q in out && (q.id in NonCanonicalIds(out) <==> !IsCanonical(q)) &&
            (q.id in ExpectedRemaining(a, out) <==> q.id in a.excluded && !IsCanonical(q))
  {
    var q, out := Moved(a, r, PlannedIds(a, db.rows)), Cleaned(a, db).rows;
    CleanedRows(a, db);
    assert q in out && q.id == r.id;
    assert ById(out, q.id).Some?;
    forall p | p in out && p.id == q.id ensures p == q {
      CleanedFrom(a, db, p, r);
    }
  }

  /** Only rows left alone stay non-canonical, exactly when the rewrites end well. */
  lemma OnlyExcludedRemain(a: Approved, db: Db)
    requires ValidDb(db)
    ensures NonCanonicalIds(Cleaned(a, db).rows) == ExpectedRemaining(a, Cleaned(a, db).rows) <==> RewritesEndWell(a, db.rows)
  {
    var out := Cleaned(a, db).rows;
    if RewritesEndWell(a, db.rows) {
      WellMeansEqual(a, db);
    } else {
      var r :| r in db.rows && r.id !in a.deleteIds && Planned(a, r) && EndsBadly(Canonical(r.company));
      CleanedCanonical(a, db, r);
      RemainingAre(a, db, r);
    }
  }

  lemma WellMeansEqual(a: Approved, db: Db)
    requires ValidDb(db) && RewritesEndWell(a, db.rows)
    ensures NonCanonicalIds(Cleaned(a, db).rows) == ExpectedRemaining(a, Cleaned(a, db).rows)
  {
    var out := Cleaned(a, db).rows;
    CleanedRows(a, db);
    forall q | q in out ensures q.id in NonCanonicalIds(out) <==> q.id in ExpectedRemaining(a, out) {
      var r :| r in db.rows && r.id !in a.deleteIds && q == Moved(a, r, PlannedIds(a, db.rows));
      CleanedCanonical(a, db, r);
      RemainingAre(a, db, r);
    }
    forall id | id in NonCanonicalIds(out) || id in ExpectedRemaining(a, out)
      ensures exists q | q in out :: q.id == id
    {
      if id in ExpectedRemaining(a, out) {
        assert ById(out, id).value in out;
      }
    }
  }

  lemma IdentityKept(a: Approved, db: Db, r: Row)
    requires ValidDb(db) && RewritesEndWell(a, db.rows) && r in db.rows && r.id !in a.deleteIds
    ensures CanonicalIdentity(Moved(a, r, PlannedIds(a, db.rows))) == CanonicalIdentity(r)
  {
    MovedIs(a, db, r);
    if Planned(a, r) {
      CanonicalFixedPoint(r.company);
    }
  }

  lemma AtMostOne(s: set<nat>, x: nat)
    requires s <= {x}
    ensures |s| <= 1
  {
    if x in s {
      assert s == {x};
    } else {
      assert s == {};
    }
  }

  /** Who shared an identity before and was not deleted: one of each approved pair at most. */
  lemma SharersAreApproved(a: Approved, rows: seq<Row>, k: Scoped, left: set<nat>)
    requires a.dropped in a.deleteIds && a.double in a.deleteIds
    requires forall g | g in CollisionGroups(rows) :: g == {a.kept, a.dropped} || g == {a.spared, a.double}
    requires left <= Members(rows, k) - Deleted(a)
    ensures |left| <= 1
  {
    var all := Members(rows, k);
    if |all| > 1 {
      ItsGroup(rows, k);
      if all == {a.kept, a.dropped} {
        AtMostOne(left, a.kept);
      } else {
        AtMostOne(left, a.spared);
      }
    } else {
      SubsetSize(left, all);
    }
  }

  lemma ItsGroup(rows: seq<Row>, k: Scoped)
    requires |Members(rows, k)| > 1
    ensures Members(rows, k) in CollisionGroups(rows)
  {
    var all := Members(rows, k);
    assert all != {};
    var id :| id in all;
    var r :| r in rows && CanonicalIdentity(r) == k && r.id == id;
    assert Members(rows, CanonicalIdentity(r)) == all;
  }

  lemma SharersAfter(a: Approved, db: Db, k: Scoped)
    requires ValidDb(db) && RewritesEndWell(a, db.rows)
    ensures Members(Cleaned(a, db).rows, k) <= Members(db.rows, k) - Deleted(a)
  {
    var out := Cleaned(a, db).rows;
    forall p | p in out && CanonicalIdentity(p) == k ensures p.id in Members(db.rows, k) - Deleted(a) {
      SharerWasOne(a, db, p);
    }
  }

  lemma SharerWasOne(a: Approved, db: Db, p: Row)
    requires ValidDb(db) && RewritesEndWell(a, db.rows) && p in Cleaned(a, db).rows
    ensures p.id in Members(db.rows, CanonicalIdentity(p)) && p.id !in Deleted(a)
  {
    CleanedRows(a, db);
    var r :| r in db.rows && r.id !in a.deleteIds && p == Moved(a, r, PlannedIds(a, db.rows));
    IdentityKept(a, db, r);
    MovedIs(a, db, r);
  }

  lemma OnlyThose(a: Approved, rows: seq<Row>)
    requires GroupsAsApproved(a, rows)
    ensures forall g | g in CollisionGroups(rows) :: g == {a.kept, a.dropped} || g == {a.spared, a.double}
  {
    OneOfTwo(CollisionGroups(rows), {a.kept, a.dropped}, {a.spared, a.double});
  }

  lemma OneOfTwo(groups: set<set<nat>>, p: set<nat>, q: set<nat>)
    requires groups == {p, q}
    ensures forall g | g in groups :: g == p || g == q
  {
  }

  lemma NobodyCollides(a: Approved, db: Db)
    requires ValidDb(db) && Consistent(a) && GroupsAsApproved(a, db.rows) && RewritesEndWell(a, db.rows)
    ensures CollisionGroups(Cleaned(a, db).rows) == {}
  {
    var out := Cleaned(a, db).rows;
    OnlyThose(a, db.rows);
    forall k ensures |Members(out, k)| <= 1 {
      SharersAfter(a, db, k);
      SharersAreApproved(a, db.rows, k, Members(out, k));
    }
  }

  // ------------------------------------------------------------------- single rows

  lemma KeptIsRight(a: Approved, db: Db)
    requires ValidDb(db) && Inventoried(a, db) && KeyIntegrity(db.rows)
    requires a.kept in a.expected && a.kept !in a.deleteIds && a.kept !in a.excluded
    requires a.finalCompany == Canonical(a.expected[a.kept].company)
    ensures KeptFinal(a, Cleaned(a, db).rows)
  {
    var r, e := ById(db.rows, a.kept).value, a.expected[a.kept];
    CleanedById(a, db, a.kept);
    MovedIs(a, db, r);
    KeysReproduce(a, db);
    KeptCompany(a, r, e, Moved(a, r, PlannedIds(a, db.rows)));
  }

  lemma KeptCompany(a: Approved, r: Row, e: Expected, q: Row)
    requires r.company == e.company && r.id !in a.excluded && a.finalCompany == Canonical(e.company)
    requires if Planned(a, r) then q.company == Canonical(r.company) else q.company == r.company
    ensures q.company == a.finalCompany
  {
  }

  lemma SparedIsRight(a: Approved, db: Db)
    requires ValidDb(db) && Inventoried(a, db)
    requires a.spared in a.expected && a.spared !in a.deleteIds && a.spared != a.kept
    requires Canonical(a.expected[a.spared].company) == a.expected[a.spared].company
    ensures SparedUntouched(a, Cleaned(a, db).rows)
  {
    var r := ById(db.rows, a.spared).value;
    CleanedById(a, db, a.spared);
    MovedIs(a, db, r);
  }

  /** A row left alone passes its check exactly when it held the expected company all along. */
  lemma ExcludedIsRight(a: Approved, db: Db, id: nat)
    requires ValidDb(db) && KeyIntegrity(db.rows) && id in a.excluded && !(id in a.deleteIds && ById(db.rows, id).Some?)
    ensures ExcludedUntouched(a, Cleaned(a, db).rows, id) <==>
              ById(db.rows, id).Some? && ById(db.rows, id).value.company == a.excluded[id]
  {
    CleanedById(a, db, id);
    KeysReproduce(a, db);
    if ById(db.rows, id).Some? {
      MovedIs(a, db, ById(db.rows, id).value);
    }
  }

  // ----------------------------------------------------------------------- history

  lemma ChangesOfAppend(changes: seq<Change>, last: Change, id: nat)
    ensures ChangesOf(changes + [last], id) ==
              if last.eventId == id then ChangesOf(changes, id) + [last] else ChangesOf(changes, id)
  {
    assert (changes + [last])[..|changes|] == changes;
  }

  lemma CountVenueAppend(changes: seq<Change>, last: Change, id: nat)
    ensures CountVenue(changes + [last], id) ==
              CountVenue(changes, id) + if last.eventId == id && last.field == VENUE then 1 else 0
  {
    assert (changes + [last])[..|changes|] == changes;
  }

  lemma {:induction false} DeletedHaveNoHistory(changes: seq<Change>, deleted: set<nat>, id: nat)
    requires id in deleted
    ensures ChangesOf(ChangesAfter(changes, deleted), id) == []
  {
    if changes != [] {
      var init, last := changes[..|changes| - 1], changes[|changes| - 1];
      DeletedHaveNoHistory(init, deleted, id);
      ChangesOfAppend(ChangesAfter(init, deleted), last, id);
    }
  }

  lemma {:induction false} NoHistoryNoVenue(changes: seq<Change>, deleted: set<nat>, id: nat)
    requires ChangesOf(changes, id) == []
    ensures CountVenue(ChangesAfter(changes, deleted), id) == 0
  {
    if changes != [] {
      var init, last := changes[..|changes| - 1], changes[|changes| - 1];
      NoHistoryNoVenue(init, deleted, id);
      CountVenueAppend(ChangesAfter(init, deleted), last, id);
    }
  }

  lemma HistoryIsRight(a: Approved, db: Db)
    requires a.exported in a.deleteIds && a.kept !in a.deleteIds && ChangesOf(db.changes, a.kept) == []
    ensures ChangesOf(Cleaned(a, db).changes, a.exported) == [] && CountVenue(Cleaned(a, db).changes, a.kept) == 1
  {
    var owner := KeptOwner(a, db.rows);
    var merged := Change(a.kept, owner, VENUE, a.oldVenue, a.newVenue);
    DeletedHaveNoHistory(MergedChanges(a, db, owner), Deleted(a), a.exported);
    NoHistoryNoVenue(db.changes, Deleted(a), a.kept);
    assert (db.changes + [merged])[..|db.changes|] == db.changes;
    CountVenueAppend(ChangesAfter(db.changes, Deleted(a)), merged, a.kept);
  }

  // --------------------------------------------------------------------- all of them

  /** The checks that hold after every accepted plan. */
  ghost predicate AlwaysOk(a: Approved, db: Db)
    requires a.kept in a.expected && a.spared in a.expected
  {
    && |db.rows| == a.eventCount - |a.deleteIds|
    && (forall id | id in a.deleteIds :: ById(db.rows, id).None?)
    && KeyIntegrity(db.rows) && KeptFinal(a, db.rows) && SparedUntouched(a, db.rows)
    && ChangesOf(db.changes, a.exported) == [] && CountVenue(db.changes, a.kept) == 1
    && db.extractions == a.extractionCount
  }

  lemma MostChecksHold(a: Approved, db: Db)
    requires Accepted(a, db)
    ensures AlwaysOk(a, Cleaned(a, db))
  {
    CountIsRight(a, db);
    KeysReproduce(a, db);
    assert a.kept !in a.excluded;
    KeptIsRight(a, db);
    SparedIsRight(a, db);
    HistoryIsRight(a, db);
    forall id | id in a.deleteIds ensures ById(Cleaned(a, db).rows, id).None? {
      CleanedById(a, db, id);
    }
  }

  /** The post-conditions hold after an accepted plan exactly under the two facts it never checks. */
  lemma PostIff(a: Approved, db: Db)
    requires Accepted(a, db)
    ensures PostOk(a, Cleaned(a, db)) <==> ExcludedHold(a, db.rows) && RewritesEndWell(a, db.rows)
  {
    var out := Cleaned(a, db);
    MostChecksHold(a, db);
    OnlyExcludedRemain(a, db);
    forall id | id in a.excluded
      ensures ExcludedUntouched(a, out.rows, id) <==>
                ById(db.rows, id).Some? && ById(db.rows, id).value.company == a.excluded[id]
    {
      ExcludedIsRight(a, db, id);
    }
    if RewritesEndWell(a, db.rows) {
      NobodyCollides(a, db);
    }
    PostSplits(a, out);
  }

  lemma PostSplits(a: Approved, db: Db)
    requires a.kept in a.expected && a.spared in a.expected
    ensures PostOk(a, db) <==>
              AlwaysOk(a, db) && NonCanonicalIds(db.rows) == ExpectedRemaining(a, db.rows) &&
              CollisionGroups(db.rows) == {} && forall id | id in a.excluded :: ExcludedUntouched(a, db.rows, id)
  {
  }

  /** The transaction: statements in the order written, committed only if every check then holds. */
  ghost function Transaction(a: Approved, db: Db): Option<Db>
    requires a.kept in a.expected && a.spared in a.expected
  {
    if !PlanOk(a, db) then None
    else
      var ran := ExecAll(db, Merge(a, db.rows) + Deletions(db.rows, a.deleteIds) + Canonicalisations(a, Survivors(a, db.rows)));
      if ran.Some? && PostOk(a, ran.value) then ran else None
  }

  /**
   Clean-up soundness, exactly. The transaction commits if and only if the plan is accepted, the
   excluded rows hold their expected companies and no rewritten company ends in a period or a
   space; what it commits is the cleaned database.
   */
  lemma CommitsIff(a: Approved, db: Db)
    requires ValidDb(db) && Consistent(a)
    ensures Transaction(a, db) ==
              if PlanOk(a, db) && ExcludedHold(a, db.rows) && RewritesEndWell(a, db.rows) then Some(Cleaned(a, db)) else None
  {
    if PlanOk(a, db) {
      OrderDoesNotMatter(a, db, Deletions(db.rows, a.deleteIds), Canonicalisations(a, Survivors(a, db.rows)));
      PostIff(a, db);
    }
  }
}
