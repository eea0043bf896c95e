/**
 The checks of the clean-up in terms of rows: what an accepted plan has found, what a committed
 transaction has left, and what its last checks ask, without the look-ups that compute them.
 */
module CleanupMeaning {
  import opened Prelude
  import opened Calendar
  import opened Identity
  import opened CleanupPlan
  import opened CleanupOrder
  import opened CleanupRun
  import opened CleanupSoundness
  import opened CleanupPostconditions

  // ---------------------------------------------------------------------- look-ups

  ghost predicate IdsApart(rows: seq<Row>) {
    forall p, q | p in rows && q in rows && p.id == q.id :: p == q
  }

  lemma ValidIdsApart(db: Db)
    requires ValidDb(db)
    ensures IdsApart(db.rows)
  {
    forall p, q | p in db.rows && q in db.rows && p.id == q.id ensures p == q {
      RowById(db, p, q);
    }
  }

  lemma ByIdIs(rows: seq<Row>, id: nat, r: Row)
    requires IdsApart(rows)
    ensures ById(rows, id) == Some(r) <==> r in rows && r.id == id
  {
  }

  /** The places where the history speaks of a row. */
  ghost function PlacesOf(changes: seq<Change>, id: nat): set<int> {
    set k | 0 <= k < |changes| && changes[k].eventId == id
  }

  ghost function VenuePlaces(changes: seq<Change>, id: nat): set<int> {
    set k | 0 <= k < |changes| && changes[k].eventId == id && changes[k].field == "venue"
  }

  lemma OneMorePlace(places: set<int>, n: int)
    requires forall k | k in places :: k < n
    ensures |places + {n}| == |places| + 1
  {
    assert n !in places;
  }

  lemma PlacesMore(changes: seq<Change>, id: nat)
    requires changes != []
    ensures var n := |changes| - 1;
            PlacesOf(changes, id) == PlacesOf(changes[..n], id) + if changes[n].eventId == id then {n} else {}
  {
    assert forall k | 0 <= k < |changes| - 1 :: changes[..|changes| - 1][k] == changes[k];
  }

  lemma {:induction false} HowManyChanges(changes: seq<Change>, id: nat)
    ensures |ChangesOf(changes, id)| == |PlacesOf(changes, id)|
  {
    if changes == [] {
      assert PlacesOf(changes, id) == {};
    } else {
      var n := |changes| - 1;
      HowManyChanges(changes[..n], id);
      PlacesMore(changes, id);
      OneMorePlace(PlacesOf(changes[..n], id), n);
    }
  }

  lemma {:induction false} WhichChanges(changes: seq<Change>, id: nat)
    ensures forall c :: c in ChangesOf(changes, id) <==> c in changes && c.eventId == id
  {
    if changes != [] {
      var init, last := changes[..|changes| - 1], changes[|changes| - 1];
      WhichChanges(init, id);
      assert forall c :: c in changes <==> c in init || c == last;
    }
  }

  lemma ChangesOfAre(changes: seq<Change>, id: nat)
    ensures |ChangesOf(changes, id)| == |PlacesOf(changes, id)|
    ensures forall c :: c in ChangesOf(changes, id) <==> c in changes && c.eventId == id
  {
    HowManyChanges(changes, id);
    WhichChanges(changes, id);
  }

  lemma VenuePlacesMore(changes: seq<Change>, id: nat)
    requires changes != []
    ensures var n := |changes| - 1;
            VenuePlaces(changes, id) ==
              VenuePlaces(changes[..n], id) + if changes[n].eventId == id && changes[n].field == "venue" then {n} else {}
  {
    assert forall k | 0 <= k < |changes| - 1 :: changes[..|changes| - 1][k] == changes[k];
  }

  lemma {:induction false} CountVenueIs(changes: seq<Change>, id: nat)
    ensures CountVenue(changes, id) == |VenuePlaces(changes, id)|
  {
    if changes == [] {
      assert VenuePlaces(changes, id) == {};
    } else {
      var n := |changes| - 1;
      CountVenueIs(changes[..n], id);
      VenuePlacesMore(changes, id);
      OneMorePlace(VenuePlaces(changes[..n], id), n);
    }
  }

  // ------------------------------------------------------------- what the plan found

  /** The key a row of that company would have. */
  function KeyUnder(company: string, r: Row): string {
    company + "|" + r.stage + "|" + Iso(r.date)
  }

  /** A row as the inventory has it, with so much history. */
  ghost predicate Found(r: Row, e: Expected, changes: seq<Change>) {
    && r.company == e.company && r.stage == e.stage && Iso(r.date) == e.date && r.time == e.time && r.venue == e.venue
    && -0.000000001 <= r.confidence - e.confidence <= 0.000000001 && r.status == e.status
    && |PlacesOf(changes, r.id)| == e.updates
  }

  ghost predicate FoundIn(rows: seq<Row>, id: nat, e: Expected, changes: seq<Change>) {
    exists r | r in rows :: r.id == id && Found(r, e, changes)
  }

  ghost predicate OneOwner(rows: seq<Row>, id: nat, other: nat) {
    exists p, q | p in rows && q in rows :: p.id == id && q.id == other && p.owner == q.owner
  }

  /** The ids of the rows that would share an identity with `r` once their companies are canonical. */
  ghost function WouldCollide(rows: seq<Row>, r: Row): set<nat> {
    set s | s in rows && s.owner == r.owner && KeyUnder(Canonical(s.company), s) == KeyUnder(Canonical(r.company), r) :: s.id
  }

  /** The rows of these ids, more than one, would share an identity, and no other row with them. */
  ghost predicate Collide(rows: seq<Row>, g: set<nat>) {
    |g| > 1 && exists r | r in rows :: WouldCollide(rows, r) == g
  }

  /** These two are found, and nothing else. */
  ghost predicate JustThese(x: set<nat>, y: set<nat>, found: set<nat> -> bool) {
    forall g :: found(g) <==> g == x || g == y
  }

  /** A row to delete is there, and has no history unless that was exported. */
  ghost predicate Deletable(a: Approved, db: Db, id: nat) {
    (exists r | r in db.rows :: r.id == id) && (id != a.exported ==> forall c | c in db.changes :: c.eventId != id)
  }

  /** A row whose company is to be rewritten. */
  ghost predicate ToRewrite(a: Approved, r: Row) {
    r.id !in a.deleteIds && r.id !in a.excluded && Canonical(r.company) != r.company
  }

  /** No other row that stays has, or is to have, the key the rewrite of `p` claims. */
  ghost predicate RoomFor(a: Approved, p: Row, r: Row) {
    ToRewrite(a, p) && r.id !in a.deleteIds && p.id != r.id && p.owner == r.owner ==>
      && r.key != KeyUnder(Canonical(p.company), p)
      && (ToRewrite(a, r) ==> KeyUnder(Canonical(r.company), r) != KeyUnder(Canonical(p.company), p))
  }

  ghost predicate VenueIs(rows: seq<Row>, id: nat, venue: string) {
    exists r | r in rows :: r.id == id && r.venue == Some(venue)
  }

  /** The sizes, keys, inventoried rows and owners a plan must find. */
  ghost predicate RowsFound(a: Approved, db: Db) {
    && |db.rows| == a.eventCount && db.extractions == a.extractionCount
    && (forall r | r in db.rows :: r.key == KeyUnder(r.company, r))
    && (forall id | id in a.expected :: FoundIn(db.rows, id, a.expected[id], db.changes))
    && OneOwner(db.rows, a.kept, a.dropped) && OneOwner(db.rows, a.spared, a.double)
  }

  /** The two collisions it must find, the history to export, and the rows to delete. */
  ghost predicate WorkFound(a: Approved, db: Db) {
    && JustThese({a.kept, a.dropped}, {a.spared, a.double}, g => Collide(db.rows, g))
    && |PlacesOf(db.changes, a.exported)| == a.exportedUpdates
    && (forall c | c in db.changes && c.eventId == a.exported :: c.field != "")
    && (forall id | id in a.deleteIds :: Deletable(a, db, id))
  }

  /** The room for the rewrites, the exclusions, and the two venues of the merge. */
  ghost predicate RoomFound(a: Approved, rows: seq<Row>) {
    && (forall p, r | p in rows && r in rows :: RoomFor(a, p, r))
    && a.kept !in a.excluded
    && (forall r | r in rows && r.id in a.excluded :: r.id !in a.deleteIds)
    && VenueIs(rows, a.kept, a.oldVenue) && VenueIs(rows, a.dropped, a.newVenue)
  }

  /** What a plan must have found to be accepted. */
  ghost predicate Findings(a: Approved, db: Db) {
    RowsFound(a, db) && WorkFound(a, db) && RoomFound(a, db.rows)
  }

  lemma KeyUnderIs(r: Row)
    ensures KeyForRow(r) == KeyUnder(r.company, r) && CanonicalKeyForRow(r) == KeyUnder(Canonical(r.company), r)
  {
  }

  lemma IntegrityIs(rows: seq<Row>)
    ensures KeyIntegrity(rows) <==> forall r | r in rows :: r.key == KeyUnder(r.company, r)
  {
    forall r | r in rows ensures KeyForRow(r) == KeyUnder(r.company, r) {
      KeyUnderIs(r);
    }
  }

  lemma FoundIs(a: Approved, db: Db, id: nat)
    requires IdsApart(db.rows) && id in a.expected
    ensures (ById(db.rows, id).Some? &&
             AsInventoried(ById(db.rows, id).value, a.expected[id], |CleanupPlan.ChangesOf(db.changes, id)|)) <==>
              FoundIn(db.rows, id, a.expected[id], db.changes)
  {
    ChangesOfAre(db.changes, id);
    if r :| r in db.rows && r.id == id {
      ByIdIs(db.rows, id, r);
    }
  }

  lemma InventoryIs(a: Approved, db: Db)
    requires IdsApart(db.rows)
    ensures Inventoried(a, db) <==> forall id | id in a.expected :: FoundIn(db.rows, id, a.expected[id], db.changes)
  {
    forall id | id in a.expected
      ensures (ById(db.rows, id).Some? &&
               AsInventoried(ById(db.rows, id).value, a.expected[id], |CleanupPlan.ChangesOf(db.changes, id)|)) <==>
                FoundIn(db.rows, id, a.expected[id], db.changes)
    {
      FoundIs(a, db, id);
    }
  }

  lemma OwnersAre(rows: seq<Row>, id: nat, other: nat)
    requires IdsApart(rows)
    ensures (ById(rows, id).Some? && ById(rows, other).Some? && ById(rows, id).value.owner == ById(rows, other).value.owner) <==>
              OneOwner(rows, id, other)
  {
    if p, q :| p in rows && q in rows && p.id == id && q.id == other {
      ByIdIs(rows, id, p);
      ByIdIs(rows, other, q);
    }
  }

  lemma GroupIs(rows: seq<Row>, r: Row)
    ensures Members(rows, CanonicalIdentity(r)) == WouldCollide(rows, r)
  {
    KeyUnderIs(r);
    forall s | s in rows
      ensures CanonicalIdentity(s) == CanonicalIdentity(r) <==>
                s.owner == r.owner && KeyUnder(Canonical(s.company), s) == KeyUnder(Canonical(r.company), r)
    {
      KeyUnderIs(s);
    }
  }

  lemma GroupsAre(rows: seq<Row>, g: set<nat>)
    ensures g in CollisionGroups(rows) <==> Collide(rows, g)
  {
    forall r | r in rows ensures Members(rows, CanonicalIdentity(r)) == WouldCollide(rows, r) {
      GroupIs(rows, r);
    }
  }

  lemma TwoOfThem(s: set<set<nat>>, x: set<nat>, y: set<nat>, found: set<nat> -> bool)
    requires forall g :: found(g) <==> g in s
    ensures s == {x, y} <==> JustThese(x, y, found)
  {
    if JustThese(x, y, found) {
      assert found(x) && found(y);
    }
  }

  lemma ApprovedIs(a: Approved, rows: seq<Row>)
    ensures GroupsAsApproved(a, rows) <==> JustThese({a.kept, a.dropped}, {a.spared, a.double}, g => Collide(rows, g))
  {
    var found := g => Collide(rows, g);
    forall g ensures found(g) <==> g in CollisionGroups(rows) {
      GroupsAre(rows, g);
    }
    TwoOfThem(CollisionGroups(rows), {a.kept, a.dropped}, {a.spared, a.double}, found);
  }

  lemma ExportIs(a: Approved, db: Db)
    ensures Exportable(a, db) <==>
              |PlacesOf(db.changes, a.exported)| == a.exportedUpdates &&
              forall c | c in db.changes && c.eventId == a.exported :: c.field != ""
  {
    ChangesOfAre(db.changes, a.exported);
  }

  lemma DeletionIs(a: Approved, db: Db, id: nat)
    requires IdsApart(db.rows)
    ensures (ById(db.rows, id).Some? && (id != a.exported ==> CleanupPlan.ChangesOf(db.changes, id) == [])) <==>
              Deletable(a, db, id)
  {
    ChangesOfAre(db.changes, id);
    var found := CleanupPlan.ChangesOf(db.changes, id);
    if found != [] {
      assert found[0] in found;
    }
  }

  lemma DeletionsAreDeletable(a: Approved, db: Db)
    requires IdsApart(db.rows)
    ensures DeletionsResolvable(a, db) <==> forall id | id in a.deleteIds :: Deletable(a, db, id)
  {
    forall id | id in a.deleteIds
      ensures (ById(db.rows, id).Some? && (id != a.exported ==> CleanupPlan.ChangesOf(db.changes, id) == [])) <==>
                Deletable(a, db, id)
    {
      DeletionIs(a, db, id);
    }
  }

  lemma ApartIsRoom(a: Approved, p: Row, r: Row)
    requires p.id !in a.deleteIds && r.id !in a.deleteIds
    requires p.key == KeyUnder(p.company, p) && r.key == KeyUnder(r.company, r)
    ensures Apart(a, p, r) <==> RoomFor(a, p, r)
  {
    KeyUnderIs(p);
    KeyUnderIs(r);
  }

  lemma CollisionFreeIs(a: Approved, db: Db)
    requires ValidDb(db) && forall r | r in db.rows :: r.key == KeyUnder(r.company, r)
    ensures CollisionFree(a, db.rows) <==> forall p, r | p in db.rows && r in db.rows :: RoomFor(a, p, r)
    ensures CollisionFree(a, db.rows) ==> FinalKeysUnique(a, db.rows)
  {
    var survivors := Survivors(a, db.rows);
    SurvivorsDistinct(a, db.rows);
    LastWriteWinsIsEnough(a, survivors);
    SurvivorsAre(a, db.rows);
    forall p, r | p in db.rows && r in db.rows && p.id !in a.deleteIds && r.id !in a.deleteIds
      ensures Apart(a, p, r) <==> RoomFor(a, p, r)
    {
      ApartIsRoom(a, p, r);
    }
    if Clear(a, survivors) {
      FinalKeysUniqueFollows(a, survivors);
    }
  }

  lemma ExclusionsAre(a: Approved, rows: seq<Row>)
    requires IdsApart(rows)
    ensures ExclusionsRespected(a, rows) <==>
              a.kept !in a.excluded && forall r | r in rows && r.id in a.excluded :: r.id !in a.deleteIds
  {
    SurvivorsAre(a, rows);
  }

  lemma MergeIs(a: Approved, rows: seq<Row>)
    requires IdsApart(rows)
    ensures MergeValid(a, rows) <==> VenueIs(rows, a.kept, a.oldVenue) && VenueIs(rows, a.dropped, a.newVenue)
  {
    if r :| r in rows && r.id == a.kept {
      ByIdIs(rows, a.kept, r);
    }
    if r :| r in rows && r.id == a.dropped {
      ByIdIs(rows, a.dropped, r);
    }
  }

  lemma RowsFoundIs(a: Approved, db: Db)
    requires IdsApart(db.rows)
    ensures RowsFound(a, db) <==>
              |db.rows| == a.eventCount && db.extractions == a.extractionCount &&
              KeyIntegrity(db.rows) && Inventoried(a, db) && PairsShareAnOwner(a, db.rows)
  {
    IntegrityIs(db.rows);
    InventoryIs(a, db);
    OwnersAre(db.rows, a.kept, a.dropped);
    OwnersAre(db.rows, a.spared, a.double);
  }

  lemma WorkFoundIs(a: Approved, db: Db)
    requires IdsApart(db.rows)
    ensures WorkFound(a, db) <==> GroupsAsApproved(a, db.rows) && Exportable(a, db) && DeletionsResolvable(a, db)
  {
    ApprovedIs(a, db.rows);
    ExportIs(a, db);
    DeletionsAreDeletable(a, db);
  }

  lemma RoomFoundIs(a: Approved, db: Db)
    requires ValidDb(db) && KeyIntegrity(db.rows)
    ensures RoomFound(a, db.rows) <==>
              CollisionFree(a, db.rows) && FinalKeysUnique(a, db.rows) && ExclusionsRespected(a, db.rows) && MergeValid(a, db.rows)
  {
    ValidIdsApart(db);
    IntegrityIs(db.rows);
    CollisionFreeIs(a, db);
    ExclusionsAre(a, db.rows);
    MergeIs(a, db.rows);
  }

  /** A plan is accepted exactly when all this was found. The check that final keys are unique adds nothing to it. */
  lemma PlanOkIs(a: Approved, db: Db)
    requires ValidDb(db)
    ensures PlanOk(a, db) <==> Findings(a, db)
  {
    ValidIdsApart(db);
    WorkFoundIs(a, db);
    RowsAndRoom(a, db);
  }

  lemma RowsAndRoom(a: Approved, db: Db)
    requires ValidDb(db)
    ensures RowsFound(a, db) && RoomFound(a, db.rows) <==>
              |db.rows| == a.eventCount && db.extractions == a.extractionCount &&
              KeyIntegrity(db.rows) && Inventoried(a, db) && PairsShareAnOwner(a, db.rows) &&
              CollisionFree(a, db.rows) && FinalKeysUnique(a, db.rows) && ExclusionsRespected(a, db.rows) && MergeValid(a, db.rows)
  {
    ValidIdsApart(db);
    RowsFoundIs(a, db);
    if KeyIntegrity(db.rows) {
      RoomFoundIs(a, db);
    }
  }

  // ---------------------------------------------------------- what a transaction leaves

  /** What the clean-up makes of a row it does not delete. */
  function Cleared(a: Approved, r: Row): Row {
    var rewritten := r.id !in a.excluded && Canonical(r.company) != r.company;
    r.(venue := if r.id == a.kept then Some(a.newVenue) else r.venue,
       company := if rewritten then Canonical(r.company) else r.company,
       key := if rewritten then KeyUnder(Canonical(r.company), r) else r.key)
  }

  lemma MovedIsCleared(a: Approved, db: Db, r: Row)
    requires ValidDb(db) && r in db.rows && r.id !in a.deleteIds
    ensures CleanupRun.Moved(a, r, PlannedIds(a, db.rows)) == Cleared(a, r)
  {
    MovedIs(a, db, r);
    KeyUnderIs(r);
  }

  lemma {:induction false} LeftHistory(changes: seq<Change>, deleted: set<nat>)
    ensures forall c :: c in ChangesAfter(changes, deleted) <==> c in changes && c.eventId !in deleted
  {
    if changes != [] {
      var init, last := changes[..|changes| - 1], changes[|changes| - 1];
      LeftHistory(init, deleted);
      assert forall c :: c in changes <==> c in init || c == last;
    }
  }

  /** The rows a transaction leaves: the approved ones gone, every other one cleared, and no more. */
  ghost predicate LeavesRows(a: Approved, before: seq<Row>, after: seq<Row>) {
    && |after| == |before| - |a.deleteIds|
    && (forall r | r in before && r.id !in a.deleteIds :: Cleared(a, r) in after)
    && (forall q | q in after :: exists r | r in before :: r.id !in a.deleteIds && q == Cleared(a, r))
  }

  /** The history it leaves: that of the rows deleted gone, and the merge recorded. */
  ghost predicate LeavesHistory(a: Approved, before: Db, after: seq<Change>) {
    forall r | r in before.rows && r.id == a.kept ::
      forall c :: c in after <==>
        (c in before.changes || c == Change(a.kept, r.owner, "venue", a.oldVenue, a.newVenue)) && c.eventId !in a.deleteIds
  }

  lemma CommittedRows(a: Approved, db: Db)
    requires Accepted(a, db)
    ensures LeavesRows(a, db.rows, Cleaned(a, db).rows)
  {
    CountIsRight(a, db);
    CleanedRows(a, db);
    forall r | r in db.rows && r.id !in a.deleteIds
      ensures CleanupRun.Moved(a, r, PlannedIds(a, db.rows)) == Cleared(a, r)
    {
      MovedIsCleared(a, db, r);
    }
  }

  lemma CommittedHistory(a: Approved, db: Db)
    requires ValidDb(db)
    ensures LeavesHistory(a, db, Cleaned(a, db).changes)
  {
    LeftHistory(MergedChanges(a, db, KeptOwner(a, db.rows)), Deleted(a));
    ValidIdsApart(db);
    forall r | r in db.rows && r.id == a.kept ensures KeptOwner(a, db.rows) == r.owner {
      ByIdIs(db.rows, a.kept, r);
    }
  }

  /** What a committed transaction has made of the database. */
  lemma CommittedIs(a: Approved, db: Db)
    requires ValidDb(db) && Consistent(a) && Transaction(a, db).Some?
    ensures var d := Transaction(a, db).value;
            LeavesRows(a, db.rows, d.rows) && LeavesHistory(a, db, d.changes) && d.extractions == db.extractions
  {
    CommitsIff(a, db);
    CommittedRows(a, db);
    CommittedHistory(a, db);
  }

  // -------------------------------------------------------------- what the end is asked

  ghost predicate KeptAsDecided(a: Approved, r: Row)
    requires a.kept in a.expected
  {
    var e := a.expected[a.kept];
    && r.company == a.finalCompany && r.stage == e.stage && Iso(r.date) == e.date && r.venue == Some(a.newVenue)
    && r.key == a.finalCompany + "|" + e.stage + "|" + e.date
  }

  ghost predicate SparedAsFound(a: Approved, r: Row)
    requires a.spared in a.expected
  {
    var e := a.expected[a.spared];
    && r.company == e.company && r.time == e.time && r.venue == e.venue
    && -0.000000001 <= r.confidence - e.confidence <= 0.000000001
  }

  ghost predicate LeftAlone(a: Approved, rows: seq<Row>, id: nat)
    requires id in a.excluded
  {
    exists r | r in rows :: r.id == id && r.company == a.excluded[id] && r.key == KeyUnder(r.company, r)
  }

  ghost predicate KeptRight(a: Approved, rows: seq<Row>)
    requires a.kept in a.expected
  {
    exists r | r in rows :: r.id == a.kept && KeptAsDecided(a, r)
  }

  ghost predicate SparedRight(a: Approved, rows: seq<Row>)
    requires a.spared in a.expected
  {
    exists r | r in rows :: r.id == a.spared && SparedAsFound(a, r)
  }

  ghost predicate GoneRight(a: Approved, rows: seq<Row>) {
    forall r | r in rows :: r.id !in a.deleteIds
  }

  ghost predicate KeysRight(rows: seq<Row>) {
    forall r | r in rows :: r.key == KeyUnder(r.company, r)
  }

  /** The rows at the end: counted, the deleted ones gone, keys spelt, the two survivors as they should be. */
  ghost predicate RowsRight(a: Approved, rows: seq<Row>)
    requires a.kept in a.expected && a.spared in a.expected
  {
    && |rows| == a.eventCount - |a.deleteIds|
    && GoneRight(a, rows) && KeysRight(rows) && KeptRight(a, rows) && SparedRight(a, rows)
  }

  /** Whose companies are left uncanonical, that nothing collides, and the excluded rows. */
  ghost predicate CompaniesRight(a: Approved, rows: seq<Row>) {
    && (forall r | r in rows && Canonical(r.company) != r.company :: r.id in a.excluded)
    && (forall r | r in rows :: |WouldCollide(rows, r)| <= 1)
    && (forall id | id in a.excluded :: LeftAlone(a, rows, id))
  }

  ghost predicate HistoryRight(a: Approved, d: Db) {
    && (forall c | c in d.changes :: c.eventId != a.exported)
    && |VenuePlaces(d.changes, a.kept)| == 1
    && d.extractions == a.extractionCount
  }

  lemma KeptFinalIs(a: Approved, rows: seq<Row>)
    requires IdsApart(rows) && a.kept in a.expected
    ensures KeptFinal(a, rows) <==> KeptRight(a, rows)
  {
    var e := a.expected[a.kept];
    assert EventKey(a.finalCompany, e.stage, e.date) == a.finalCompany + "|" + e.stage + "|" + e.date;
    if r :| r in rows && r.id == a.kept {
      ByIdIs(rows, a.kept, r);
    }
  }

  lemma SparedIs(a: Approved, rows: seq<Row>)
    requires IdsApart(rows) && a.spared in a.expected
    ensures SparedUntouched(a, rows) <==> SparedRight(a, rows)
  {
    if r :| r in rows && r.id == a.spared {
      ByIdIs(rows, a.spared, r);
    }
  }

  ghost predicate NoneFound(a: Approved, rows: seq<Row>) {
    forall id | id in a.deleteIds :: ById(rows, id).None?
  }

  lemma AbsentIs(a: Approved, rows: seq<Row>)
    ensures NoneFound(a, rows) <==> GoneRight(a, rows)
  {
  }

  lemma RowsRightIs(a: Approved, rows: seq<Row>)
    requires IdsApart(rows) && a.kept in a.expected && a.spared in a.expected
    ensures RowsRight(a, rows) <==>
              |rows| == a.eventCount - |a.deleteIds| && NoneFound(a, rows) &&
              KeyIntegrity(rows) && KeptFinal(a, rows) && SparedUntouched(a, rows)
  {
    AbsentIs(a, rows);
    IntegrityIs(rows);
    KeptFinalIs(a, rows);
    SparedIs(a, rows);
  }

  lemma LeftAloneIs(a: Approved, rows: seq<Row>, id: nat)
    requires IdsApart(rows) && id in a.excluded
    ensures ExcludedUntouched(a, rows, id) <==> LeftAlone(a, rows, id)
  {
    if r :| r in rows && r.id == id {
      ByIdIs(rows, id, r);
      KeyUnderIs(r);
    }
  }

  lemma RemainingIs(a: Approved, rows: seq<Row>)
    requires IdsApart(rows)
    ensures NonCanonicalIds(rows) == ExpectedRemaining(a, rows) <==>
              forall r | r in rows && Canonical(r.company) != r.company :: r.id in a.excluded
  {
    forall r | r in rows ensures ById(rows, r.id) == Some(r) {
      ByIdIs(rows, r.id, r);
    }
    forall id | id in ExpectedRemaining(a, rows) ensures id in NonCanonicalIds(rows) {
      assert ById(rows, id).value in rows;
    }
    if forall r | r in rows && Canonical(r.company) != r.company :: r.id in a.excluded {
      forall id | id in NonCanonicalIds(rows) ensures id in ExpectedRemaining(a, rows) {
        var r :| r in rows && !IsCanonical(r) && r.id == id;
      }
    }
    if NonCanonicalIds(rows) == ExpectedRemaining(a, rows) {
      forall r | r in rows && Canonical(r.company) != r.company ensures r.id in a.excluded {
        assert r.id in NonCanonicalIds(rows);
      }
    }
  }

  lemma NoCollisionIs(rows: seq<Row>)
    ensures CollisionGroups(rows) == {} <==> forall r | r in rows :: |WouldCollide(rows, r)| <= 1
  {
    forall r | r in rows && |WouldCollide(rows, r)| > 1 ensures WouldCollide(rows, r) in CollisionGroups(rows) {
      GroupsAre(rows, WouldCollide(rows, r));
    }
    forall g | g in CollisionGroups(rows) ensures exists r | r in rows :: |WouldCollide(rows, r)| > 1 {
      GroupsAre(rows, g);
    }
  }

  lemma CompaniesRightIs(a: Approved, rows: seq<Row>)
    requires IdsApart(rows)
    ensures CompaniesRight(a, rows) <==>
              NonCanonicalIds(rows) == ExpectedRemaining(a, rows) && CollisionGroups(rows) == {} &&
              forall id | id in a.excluded :: ExcludedUntouched(a, rows, id)
  {
    RemainingIs(a, rows);
    NoCollisionIs(rows);
    forall id | id in a.excluded ensures ExcludedUntouched(a, rows, id) <==> LeftAlone(a, rows, id) {
      LeftAloneIs(a, rows, id);
    }
  }

  lemma HistoryRightIs(a: Approved, d: Db)
    ensures HistoryRight(a, d) <==>
              CleanupPlan.ChangesOf(d.changes, a.exported) == [] && CountVenue(d.changes, a.kept) == 1 &&
              d.extractions == a.extractionCount
  {
    ChangesOfAre(d.changes, a.exported);
    CountVenueIs(d.changes, a.kept);
    var left := CleanupPlan.ChangesOf(d.changes, a.exported);
    if left != [] {
      assert left[0] in left;
    }
  }

  /** The last checks of the transaction, on any database it may have reached. */
  lemma PostOkIs(a: Approved, d: Db)
    requires IdsApart(d.rows) && a.kept in a.expected && a.spared in a.expected
    ensures PostOk(a, d) <==> RowsRight(a, d.rows) && CompaniesRight(a, d.rows) && HistoryRight(a, d)
  {
    RowsRightIs(a, d.rows);
    CompaniesRightIs(a, d.rows);
    HistoryRightIs(a, d);
    PostSplits(a, d);
  }

  // ----------------------------------------------------------------- statements

  /** The row a statement is about. */
  function RowOf(st: Statement): (nat, nat) {
    match st
    case Record(c) => (c.eventId, c.owner)
    case SetVenue(id, owner, _) => (id, owner)
    case Delete(id, owner) => (id, owner)
    case Rewrite(id, owner, _, _) => (id, owner)
  }

  /** A statement fails exactly on a missing row, or when it gives a row a key another of the tenant holds. */
  lemma FailsIff(db: Db, st: Statement)
    ensures Exec(db, st).None? <==>
              || (forall r | r in db.rows :: (r.id, r.owner) != RowOf(st))
              || (st.Rewrite? && exists r | r in db.rows :: r.id != st.id && r.owner == st.owner && r.key == st.key)
  {
    var row := RowOf(st);
    assert Has(db.rows, row.0, row.1) <==> exists r | r in db.rows :: (r.id, r.owner) == row;
    if st.Rewrite? {
      assert KeyTaken(db.rows, st.id, CleanupPlan.Scoped(st.owner, st.key)) <==>
             exists r | r in db.rows :: r.id != st.id && r.owner == st.owner && r.key == st.key;
    }
  }
}
