/**
 Running the plan. The database after any part of the work depends only on which rows were
 deleted and which rewritten, not on when; so every order of the statements succeeds and ends
 in the same place.
 */
module CleanupRun {
  import opened Prelude
  import opened Identity
  import opened CleanupPlan
  import opened CleanupOrder

  function Rewritten(r: Row): Row {
    r.(company := Canonical(r.company), key := CanonicalKeyForRow(r))
  }

  /** One row after the merge and some of the rewrites. */
  function Moved(a: Approved, r: Row, rewritten: set<nat>): Row {
    var v := if r.id == a.kept then r.(venue := Some(a.newVenue)) else r;
    if r.id in rewritten then Rewritten(v) else v
  }

  /** The table after the merge, the deletions in `deleted` and the rewrites in `rewritten`. */
  function RowsAfter(a: Approved, rows: seq<Row>, deleted: set<nat>, rewritten: set<nat>): seq<Row> {
    if rows == [] then []
    else
      var rest, last := RowsAfter(a, rows[..|rows| - 1], deleted, rewritten), rows[|rows| - 1];
      if last.id in deleted then rest else rest + [Moved(a, last, rewritten)]
  }

  function ChangesAfter(changes: seq<Change>, deleted: set<nat>): seq<Change> {
    if changes == [] then []
    else
      var rest, last := ChangesAfter(changes[..|changes| - 1], deleted), changes[|changes| - 1];
      if last.eventId in deleted then rest else rest + [last]
  }

  lemma {:induction false} RowsAfterAre(a: Approved, rows: seq<Row>, deleted: set<nat>, rewritten: set<nat>)
    ensures forall q | q in RowsAfter(a, rows, deleted, rewritten) ::
              exists r | r in rows :: r.id !in deleted && q == Moved(a, r, rewritten)
    ensures forall r | r in rows && r.id !in deleted :: Moved(a, r, rewritten) in RowsAfter(a, rows, deleted, rewritten)
  {
    if rows != [] {
      var init, last := rows[..|rows| - 1], rows[|rows| - 1];
      RowsAfterAre(a, init, deleted, rewritten);
      assert forall r :: r in rows <==> r in init || r == last;
      var after := RowsAfter(a, init, deleted, rewritten);
      assert forall q :: q in after + [Moved(a, last, rewritten)] <==> q in after || q == Moved(a, last, rewritten);
    }
  }

  lemma WithoutAppend(rows: seq<Row>, last: Row, id: nat)
    ensures Without(rows + [last], id) == if last.id == id then Without(rows, id) else Without(rows, id) + [last]
  {
    assert (rows + [last])[..|rows|] == rows;
  }

  lemma WithIdentityAppend(rows: seq<Row>, last: Row, id: nat, company: string, key: string)
    ensures WithIdentity(rows + [last], id, company, key) ==
              WithIdentity(rows, id, company, key) + [if last.id == id then last.(company := company, key := key) else last]
  {
    assert (rows + [last])[..|rows|] == rows;
  }

  lemma CascadedAppend(changes: seq<Change>, last: Change, id: nat, owner: nat)
    ensures Cascaded(changes + [last], id, owner) ==
              if last.eventId == id && last.owner == owner then Cascaded(changes, id, owner)
              else Cascaded(changes, id, owner) + [last]
  {
    assert (changes + [last])[..|changes|] == changes;
  }

  /** Deleting one more row. */
  lemma {:induction false} DeleteMoves(a: Approved, rows: seq<Row>, deleted: set<nat>, rewritten: set<nat>, id: nat)
    ensures Without(RowsAfter(a, rows, deleted, rewritten), id) == RowsAfter(a, rows, deleted + {id}, rewritten)
  {
    if rows != [] {
      var init, last := rows[..|rows| - 1], rows[|rows| - 1];
      DeleteMoves(a, init, deleted, rewritten, id);
      WithoutAppend(RowsAfter(a, init, deleted, rewritten), Moved(a, last, rewritten), id);
    }
  }

  /** Rewriting one more row. */
  lemma {:induction false} RewriteMoves(a: Approved, rows: seq<Row>, deleted: set<nat>, rewritten: set<nat>, r: Row)
    requires forall q | q in rows && q.id == r.id :: q == r
    ensures WithIdentity(RowsAfter(a, rows, deleted, rewritten), r.id, Canonical(r.company), CanonicalKeyForRow(r)) ==
              RowsAfter(a, rows, deleted, rewritten + {r.id})
  {
    if rows != [] {
      var init, last := rows[..|rows| - 1], rows[|rows| - 1];
      RewriteMoves(a, init, deleted, rewritten, r);
      assert last in rows;
      OneRowRewritten(a, last, rewritten, r);
      WithIdentityAppend(RowsAfter(a, init, deleted, rewritten), Moved(a, last, rewritten),
                         r.id, Canonical(r.company), CanonicalKeyForRow(r));
    }
  }

  lemma OneRowRewritten(a: Approved, q: Row, rewritten: set<nat>, r: Row)
    requires q.id == r.id ==> q == r
    ensures var m := Moved(a, q, rewritten);
            m.id == q.id &&
            Moved(a, q, rewritten + {r.id}) ==
              if m.id == r.id then m.(company := Canonical(r.company), key := CanonicalKeyForRow(r)) else m
  {
  }

  lemma {:induction false} CascadeMoves(changes: seq<Change>, deleted: set<nat>, id: nat, owner: nat)
    requires forall c | c in changes && c.eventId == id :: c.owner == owner
    ensures Cascaded(ChangesAfter(changes, deleted), id, owner) == ChangesAfter(changes, deleted + {id})
  {
    if changes != [] {
      var init, last := changes[..|changes| - 1], changes[|changes| - 1];
      assert last in changes;
      CascadeMoves(init, deleted, id, owner);
      CascadedAppend(ChangesAfter(init, deleted), last, id, owner);
    }
  }

  // ---------------------------------------------------------------- the stages

  /** The history once the merge is recorded. */
  function MergedChanges(a: Approved, db: Db, owner: nat): seq<Change> {
    db.changes + [Change(a.kept, owner, VENUE, a.oldVenue, a.newVenue)]
  }

  /** The database after the merge and the given deletions and rewrites, in whatever order they ran. */
  function StateAt(a: Approved, db: Db, owner: nat, deleted: set<nat>, rewritten: set<nat>): Db {
    Db(RowsAfter(a, db.rows, deleted, rewritten), ChangesAfter(MergedChanges(a, db, owner), deleted), db.extractions)
  }

  /** What the order results need of an accepted plan. */
  ghost predicate Ready(a: Approved, db: Db, owner: nat) {
    && ValidDb(db) && KeysDistinct(Survivors(a, db.rows)) && Clear(a, Survivors(a, db.rows))
    && (forall r | r in db.rows && r.id == a.kept :: r.owner == owner)
    && exists r | r in db.rows :: r.id == a.kept
  }

  ghost predicate IsDeletion(a: Approved, db: Db, st: Statement) {
    exists r | r in db.rows && r.id in a.deleteIds :: st == Delete(r.id, r.owner)
  }

  ghost predicate IsRewrite(a: Approved, db: Db, st: Statement) {
    exists r | r in db.rows && r.id !in a.deleteIds && Planned(a, r) :: st == RewriteOf(r)
  }

  function IdsOf(sts: seq<Statement>): set<nat> {
    set st | st in sts && (st.Delete? || st.Rewrite? || st.SetVenue?) :: st.id
  }

  ghost predicate NoRepeats(sts: seq<Statement>) {
    forall i, j | 0 <= i < j < |sts| :: sts[i] != sts[j]
  }

  lemma {:induction false} SurvivorsAre(a: Approved, rows: seq<Row>)
    ensures forall r :: r in Survivors(a, rows) <==> r in rows && r.id !in a.deleteIds
  {
    if rows != [] {
      var init, last := rows[..|rows| - 1], rows[|rows| - 1];
      SurvivorsAre(a, init);
      assert forall r :: r in rows <==> r in init || r == last;
    }
  }

  lemma RowById(db: Db, p: Row, q: Row)
    requires ValidDb(db) && p in db.rows && q in db.rows && p.id == q.id
    ensures p == q
  {
    var i :| 0 <= i < |db.rows| && db.rows[i] == p;
    var j :| 0 <= j < |db.rows| && db.rows[j] == q;
    assert i == j;
  }

  lemma RowStays(a: Approved, rows: seq<Row>, deleted: set<nat>, rewritten: set<nat>, r: Row)
    requires r in rows && r.id !in deleted
    ensures Has(RowsAfter(a, rows, deleted, rewritten), r.id, r.owner)
  {
    RowsAfterAre(a, rows, deleted, rewritten);
    assert Moved(a, r, rewritten) in RowsAfter(a, rows, deleted, rewritten);
  }

  lemma MergedOwners(a: Approved, db: Db, owner: nat, r: Row)
    requires ValidDb(db) && r in db.rows && r.id != a.kept
    ensures forall c | c in MergedChanges(a, db, owner) && c.eventId == r.id :: c.owner == r.owner
  {
  }

  lemma OneDelete(a: Approved, db: Db, owner: nat, deleted: set<nat>, r: Row)
    requires Ready(a, db, owner) && r in db.rows && r.id !in deleted
    requires r.id != a.kept
    ensures Exec(StateAt(a, db, owner, deleted, {}), Delete(r.id, r.owner)) == Some(StateAt(a, db, owner, deleted + {r.id}, {}))
  {
    RowStays(a, db.rows, deleted, {}, r);
    DeleteMoves(a, db.rows, deleted, {}, r.id);
    MergedOwners(a, db, owner, r);
    CascadeMoves(MergedChanges(a, db, owner), deleted, r.id, r.owner);
  }

  ghost predicate OnlyPlanned(a: Approved, db: Db, rewritten: set<nat>) {
    forall o | o in db.rows && o.id in rewritten :: Planned(a, o)
  }

  lemma AnotherSurvivor(a: Approved, survivors: seq<Row>, r: Row, o: Row, rewritten: set<nat>)
    requires Clear(a, survivors) && r in survivors && o in survivors && Planned(a, r) && o.id != r.id
    requires o.id in rewritten ==> Planned(a, o)
    ensures Scoped(o.owner, Moved(a, o, rewritten).key) != CanonicalIdentity(r)
  {
    assert Apart(a, r, o);
    assert Moved(a, o, rewritten).key == if o.id in rewritten then FinalKey(a, o) else o.key;
  }

  ghost function Deleted(a: Approved): set<nat> {
    set id | id in a.deleteIds
  }

  /** At the moment a rewrite runs, nobody else holds the key it claims. */
  lemma NobodyHolds(a: Approved, rows: seq<Row>, rewritten: set<nat>, r: Row)
    requires Clear(a, Survivors(a, rows)) && r in rows && r.id !in a.deleteIds && Planned(a, r)
    requires forall o | o in rows && o.id in rewritten :: Planned(a, o)
    ensures !KeyTaken(RowsAfter(a, rows, Deleted(a), rewritten), r.id, CanonicalIdentity(r))
  {
    RowsAfterAre(a, rows, Deleted(a), rewritten);
    SurvivorsAre(a, rows);
    forall q | q in RowsAfter(a, rows, Deleted(a), rewritten) && q.id != r.id
      ensures Scoped(q.owner, q.key) != CanonicalIdentity(r)
    {
      var o :| o in rows && o.id !in Deleted(a) && q == Moved(a, o, rewritten);
      AnotherSurvivor(a, Survivors(a, rows), r, o, rewritten);
    }
  }

  lemma OnlyRow(db: Db, r: Row)
    requires ValidDb(db) && r in db.rows
    ensures forall q | q in db.rows && q.id == r.id :: q == r
  {
    forall q | q in db.rows && q.id == r.id ensures q == r {
      RowById(db, q, r);
    }
  }

  lemma FreeRewriteRuns(d: Db, id: nat, owner: nat, company: string, key: string)
    requires Has(d.rows, id, owner) && !KeyTaken(d.rows, id, Scoped(owner, key))
    ensures Exec(d, Rewrite(id, owner, company, key)) == Some(Db(WithIdentity(d.rows, id, company, key), d.changes, d.extractions))
  {
  }

  lemma OneRewrite(a: Approved, db: Db, owner: nat, rewritten: set<nat>, r: Row)
    requires Ready(a, db, owner) && r in db.rows && r.id !in a.deleteIds && Planned(a, r)
    requires OnlyPlanned(a, db, rewritten)
    ensures Exec(StateAt(a, db, owner, Deleted(a), rewritten), RewriteOf(r)) ==
              Some(StateAt(a, db, owner, Deleted(a), rewritten + {r.id}))
  {
    RowStays(a, db.rows, Deleted(a), rewritten, r);
    NobodyHolds(a, db.rows, rewritten, r);
    OnlyRow(db, r);
    FreeRewriteRuns(StateAt(a, db, owner, Deleted(a), rewritten), r.id, r.owner, Canonical(r.company), CanonicalKeyForRow(r));
    RewriteMoves(a, db.rows, Deleted(a), rewritten, r);
  }

  // ----------------------------------------------------------------- any order

  lemma ExecAllAppend(db: Db, sts: seq<Statement>, st: Statement)
    ensures ExecAll(db, sts + [st]) == var b := ExecAll(db, sts); if b.None? then None else Exec(b.value, st)
  {
    assert (sts + [st])[..|sts|] == sts;
  }

  lemma {:induction false} ExecAllJoins(db: Db, a: seq<Statement>, b: seq<Statement>)
    requires ExecAll(db, a).Some?
    ensures ExecAll(db, a + b) == ExecAll(ExecAll(db, a).value, b)
    decreases |b|
  {
    if b == [] {
      assert a + b == a;
    } else {
      var init, last := b[..|b| - 1], b[|b| - 1];
      assert a + b == (a + init) + [last];
      assert b == init + [last];
      ExecAllJoins(db, a, init);
      ExecAllAppend(db, a + init, last);
      ExecAllAppend(ExecAll(db, a).value, init, last);
    }
  }

  /** Deletions in any order, none twice, all succeed. */
  lemma {:induction false} DeletesInAnyOrder(a: Approved, db: Db, owner: nat, sts: seq<Statement>)
    requires Ready(a, db, owner) && a.kept !in a.deleteIds && NoRepeats(sts)
    requires forall st | st in sts :: IsDeletion(a, db, st)
    ensures ExecAll(StateAt(a, db, owner, {}, {}), sts) == Some(StateAt(a, db, owner, IdsOf(sts), {}))
    decreases |sts|
  {
    if sts != [] {
      var init, last := sts[..|sts| - 1], sts[|sts| - 1];
      assert sts == init + [last];
      DeletesInAnyOrder(a, db, owner, init);
      assert last in sts;
      var r :| r in db.rows && r.id in a.deleteIds && last == Delete(r.id, r.owner);
      FreshId(a, db, init, last, r);
      OneDelete(a, db, owner, IdsOf(init), r);
      IdsOfAppend(init, last);
    } else {
      assert IdsOf(sts) == {};
    }
  }

  lemma IdsOfAppend(init: seq<Statement>, last: Statement)
    requires last.Delete? || last.Rewrite?
    ensures IdsOf(init + [last]) == IdsOf(init) + {last.id}
  {
    assert forall st :: st in init + [last] <==> st in init || st == last;
  }

  lemma FreshId(a: Approved, db: Db, init: seq<Statement>, last: Statement, r: Row)
    requires ValidDb(db) && NoRepeats(init + [last]) && r in db.rows && last == Delete(r.id, r.owner)
    requires forall st | st in init :: IsDeletion(a, db, st)
    ensures r.id !in IdsOf(init)
  {
    var all := init + [last];
    assert forall i | 0 <= i < |init| :: all[i] == init[i] && all[i] != all[|init|];
    forall st | st in init ensures st.Delete? && st.id != r.id {
      var q :| q in db.rows && q.id in a.deleteIds && st == Delete(q.id, q.owner);
      if q.id == r.id {
        RowById(db, q, r);
      }
    }
  }

  /** Once every deletion is done, rewrites in any order, even repeated, all succeed. */
  lemma {:induction false} RewritesInAnyOrder(a: Approved, db: Db, owner: nat, sts: seq<Statement>)
    requires Ready(a, db, owner) && forall st | st in sts :: IsRewrite(a, db, st)
    ensures OnlyPlanned(a, db, IdsOf(sts))
    ensures ExecAll(StateAt(a, db, owner, Deleted(a), {}), sts) == Some(StateAt(a, db, owner, Deleted(a), IdsOf(sts)))
    decreases |sts|
  {
    if sts != [] {
      var init, last := sts[..|sts| - 1], sts[|sts| - 1];
      assert sts == init + [last];
      RewritesInAnyOrder(a, db, owner, init);
      assert last in sts;
      var r :| r in db.rows && r.id !in a.deleteIds && Planned(a, r) && last == RewriteOf(r);
      OneRewrite(a, db, owner, IdsOf(init), r);
      IdsOfAppend(init, last);
      forall o | o in db.rows && o.id in IdsOf(sts) ensures Planned(a, o) {
        if o.id == r.id { RowById(db, o, r); }
      }
    } else {
      assert IdsOf(sts) == {};
    }
  }
}
