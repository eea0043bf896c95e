/**
 The one-off clean-up of event identities: the approved decisions as data, the checks a plan
 must pass, and the statements a transaction issues. Ids and sizes are parameters. Rows are
 read in id order, so the plan's own sort by id changes nothing.
 */
module CleanupPlan {
  import opened Prelude
  import opened Calendar
  import opened Identity

  datatype Row = Row(id: nat, owner: nat, company: string, stage: string, date: Day,
                     time: Option<string>, venue: Option<string>, key: string, confidence: real, status: string)

  datatype Change = Change(eventId: nat, owner: nat, field: string, oldValue: string, newValue: string)

  datatype Db = Db(rows: seq<Row>, changes: seq<Change>, extractions: nat)

  /** A row as the inventory recorded it. */
  datatype Expected = Expected(company: string, stage: string, date: string, time: Option<string>,
                               venue: Option<string>, confidence: real, status: string, updates: nat)

  /**
   The approved decisions. `kept` takes the venue of `dropped`; `spared` is the other survivor
   and `double` its duplicate; `excluded` maps each row left alone to the company it must hold.
   */
  datatype Approved = Approved(kept: nat, dropped: nat, spared: nat, double: nat,
                               deleteIds: seq<nat>, exported: nat, exportedUpdates: nat,
                               expected: map<nat, Expected>, excluded: map<nat, string>,
                               oldVenue: string, newVenue: string, finalCompany: string,
                               eventCount: nat, extractionCount: nat)

  const TOLERANCE: real := 0.000000001
  const VENUE := "venue"

  predicate Near(a: real, b: real) {
    -TOLERANCE <= a - b <= TOLERANCE
  }

  /** An identity within its tenant. */
  datatype Scoped = Scoped(owner: nat, key: string)

  function KeyForRow(r: Row): string {
    EventKey(r.company, r.stage, Iso(r.date))
  }

  /** The identity a row would have once its company is canonicalised. */
  function CanonicalKeyForRow(r: Row): string {
    EventKey(Canonical(r.company), r.stage, Iso(r.date))
  }

  predicate IsCanonical(r: Row) {
    Canonical(r.company) == r.company
  }

  function CanonicalIdentity(r: Row): Scoped {
    Scoped(r.owner, CanonicalKeyForRow(r))
  }

  // ------------------------------------------------------------------- look-ups

  /** The map from id to row: the last row of an id wins. */
  function ById(rows: seq<Row>, id: nat): (r: Option<Row>)
    ensures r.Some? ==> r.value in rows && r.value.id == id
    ensures r.None? <==> forall q | q in rows :: q.id != id
  {
    if rows == [] then None
    else if rows[|rows| - 1].id == id then Some(rows[|rows| - 1])
    else
      assert forall q :: q in rows <==> q in rows[..|rows| - 1] || q == rows[|rows| - 1];
      ById(rows[..|rows| - 1], id)
  }

  function ChangesOf(changes: seq<Change>, id: nat): seq<Change> {
    if changes == [] then []
    else
      var rest, last := ChangesOf(changes[..|changes| - 1], id), changes[|changes| - 1];
      if last.eventId == id then rest + [last] else rest
  }

  /** The ids of the rows with one canonical identity. */
  function Members(rows: seq<Row>, k: Scoped): set<nat> {
    set r | r in rows && CanonicalIdentity(r) == k :: r.id
  }

  /** Every canonical identity more than one row has, as the ids that share it. */
  function CollisionGroups(rows: seq<Row>): set<set<nat>> {
    set r | r in rows && |Members(rows, CanonicalIdentity(r))| > 1 :: Members(rows, CanonicalIdentity(r))
  }

  function Survivors(a: Approved, rows: seq<Row>): seq<Row> {
    if rows == [] then []
    else
      var rest, last := Survivors(a, rows[..|rows| - 1]), rows[|rows| - 1];
      if last.id in a.deleteIds then rest else rest + [last]
  }

  // ------------------------------------------------------------------ rewrites

  /** A surviving row whose company is rewritten. */
  predicate Planned(a: Approved, r: Row) {
    !IsCanonical(r) && r.id !in a.excluded
  }

  function FinalKey(a: Approved, r: Row): string {
    if Planned(a, r) then CanonicalKeyForRow(r) else r.key
  }

  /** The key each identity has now, the last row winning. */
  function CurrentKeys(rows: seq<Row>): map<Scoped, nat> {
    if rows == [] then map[]
    else
      var last := rows[|rows| - 1];
      CurrentKeys(rows[..|rows| - 1])[Scoped(last.owner, last.key) := last.id]
  }

  /** The key each identity is to have, the last row winning. */
  function FinalKeys(a: Approved, rows: seq<Row>): map<Scoped, nat> {
    if rows == [] then map[]
    else
      var last := rows[|rows| - 1];
      FinalKeys(a, rows[..|rows| - 1])[Scoped(last.owner, FinalKey(a, last)) := last.id]
  }

  predicate HeldByAnother(holders: map<Scoped, nat>, k: Scoped, id: nat) {
    k in holders && holders[k] != id
  }

  /** The plan's own test of one rewrite against both maps. */
  predicate Collides(a: Approved, survivors: seq<Row>, r: Row) {
    || HeldByAnother(CurrentKeys(survivors), CanonicalIdentity(r), r.id)
    || HeldByAnother(FinalKeys(a, survivors), CanonicalIdentity(r), r.id)
  }

  function FinalIdentities(a: Approved, survivors: seq<Row>): set<Scoped> {
    set r | r in survivors :: Scoped(r.owner, FinalKey(a, r))
  }

  // -------------------------------------------------------------- preconditions

  predicate KeyIntegrity(rows: seq<Row>) {
    forall r | r in rows :: r.key == KeyForRow(r)
  }

  predicate AsInventoried(r: Row, e: Expected, dependents: nat) {
    && r.company == e.company && r.stage == e.stage && Iso(r.date) == e.date && r.time == e.time
    && r.venue == e.venue && Near(r.confidence, e.confidence) && r.status == e.status && dependents == e.updates
  }

  predicate Inventoried(a: Approved, db: Db) {
    forall id | id in a.expected ::
      var row := ById(db.rows, id);
      row.Some? && AsInventoried(row.value, a.expected[id], |ChangesOf(db.changes, id)|)
  }

  predicate PairsShareAnOwner(a: Approved, rows: seq<Row>) {
    var kept, dropped, spared, double := ById(rows, a.kept), ById(rows, a.dropped), ById(rows, a.spared), ById(rows, a.double);
    && kept.Some? && dropped.Some? && spared.Some? && double.Some?
    && kept.value.owner == dropped.value.owner && spared.value.owner == double.value.owner
  }

  predicate GroupsAsApproved(a: Approved, rows: seq<Row>) {
    CollisionGroups(rows) == {{a.kept, a.dropped}, {a.spared, a.double}}
  }

  predicate Exportable(a: Approved, db: Db) {
    var history := ChangesOf(db.changes, a.exported);
    |history| == a.exportedUpdates && forall c | c in history :: c.field != ""
  }

  predicate DeletionsResolvable(a: Approved, db: Db) {
    forall id | id in a.deleteIds ::
      ById(db.rows, id).Some? && (id != a.exported ==> ChangesOf(db.changes, id) == [])
  }

  predicate CollisionFree(a: Approved, rows: seq<Row>) {
    var survivors := Survivors(a, rows);
    forall r | r in survivors && Planned(a, r) :: !Collides(a, survivors, r)
  }

  predicate FinalKeysUnique(a: Approved, rows: seq<Row>) {
    |FinalIdentities(a, Survivors(a, rows))| == |Survivors(a, rows)|
  }

  /** No row left alone is deleted, merged into or rewritten. */
  predicate ExclusionsRespected(a: Approved, rows: seq<Row>) {
    forall id | id in a.excluded ::
      && id != a.kept
      && !(id in a.deleteIds && ById(rows, id).Some?)
      && forall r | r in Survivors(a, rows) && Planned(a, r) :: r.id != id
  }

  predicate MergeValid(a: Approved, rows: seq<Row>) {
    var kept, dropped := ById(rows, a.kept), ById(rows, a.dropped);
    kept.Some? && kept.value.venue == Some(a.oldVenue) && dropped.Some? && dropped.value.venue == Some(a.newVenue)
  }

  predicate PlanOk(a: Approved, db: Db) {
    && |db.rows| == a.eventCount && db.extractions == a.extractionCount
    && KeyIntegrity(db.rows) && Inventoried(a, db) && PairsShareAnOwner(a, db.rows)
    && GroupsAsApproved(a, db.rows) && Exportable(a, db) && DeletionsResolvable(a, db)
    && CollisionFree(a, db.rows) && FinalKeysUnique(a, db.rows)
    && ExclusionsRespected(a, db.rows) && MergeValid(a, db.rows)
  }

  // ---------------------------------------------------------------- statements

  datatype Statement =
    | Record(change: Change)
    | SetVenue(id: nat, owner: nat, venue: string)
    | Delete(id: nat, owner: nat)
    | Rewrite(id: nat, owner: nat, company: string, key: string)

  predicate Has(rows: seq<Row>, id: nat, owner: nat) {
    exists r | r in rows :: r.id == id && r.owner == owner
  }

  predicate KeyTaken(rows: seq<Row>, id: nat, k: Scoped) {
    exists r | r in rows :: r.id != id && Scoped(r.owner, r.key) == k
  }

  function Without(rows: seq<Row>, id: nat): seq<Row> {
    if rows == [] then []
    else
      var rest, last := Without(rows[..|rows| - 1], id), rows[|rows| - 1];
      if last.id == id then rest else rest + [last]
  }

  function WithVenue(rows: seq<Row>, id: nat, venue: string): seq<Row> {
    if rows == [] then []
    else
      var last := rows[|rows| - 1];
      WithVenue(rows[..|rows| - 1], id, venue) + [if last.id == id then last.(venue := Some(venue)) else last]
  }

  function WithIdentity(rows: seq<Row>, id: nat, company: string, key: string): seq<Row> {
    if rows == [] then []
    else
      var last := rows[|rows| - 1];
      WithIdentity(rows[..|rows| - 1], id, company, key) +
      [if last.id == id then last.(company := company, key := key) else last]
  }

  /** The history left once a row's own is cascaded away. */
  function Cascaded(changes: seq<Change>, id: nat, owner: nat): seq<Change> {
    if changes == [] then []
    else
      var rest, last := Cascaded(changes[..|changes| - 1], id, owner), changes[|changes| - 1];
      if last.eventId == id && last.owner == owner then rest else rest + [last]
  }

  /** One statement. It fails on a missing row, and on a key another row of the tenant holds at that moment. */
  function Exec(db: Db, st: Statement): Option<Db> {
    match st
    case Record(c) => if Has(db.rows, c.eventId, c.owner) then Some(db.(changes := db.changes + [c])) else None
    case SetVenue(id, owner, venue) =>
      if Has(db.rows, id, owner) then Some(db.(rows := WithVenue(db.rows, id, venue))) else None
    case Delete(id, owner) =>
      if Has(db.rows, id, owner)
      then Some(db.(rows := Without(db.rows, id), changes := Cascaded(db.changes, id, owner))) else None
    case Rewrite(id, owner, company, key) =>
      if Has(db.rows, id, owner) && !KeyTaken(db.rows, id, Scoped(owner, key))
      then Some(db.(rows := WithIdentity(db.rows, id, company, key))) else None
  }

  function ExecAll(db: Db, sts: seq<Statement>): Option<Db> {
    if sts == [] then Some(db)
    else
      var before := ExecAll(db, sts[..|sts| - 1]);
      if before.None? then None else Exec(before.value, sts[|sts| - 1])
  }

  function Merge(a: Approved, rows: seq<Row>): seq<Statement> {
    var kept := ById(rows, a.kept);
    if MergeValid(a, rows) && kept.Some? then
      [Record(Change(a.kept, kept.value.owner, VENUE, a.oldVenue, a.newVenue)),
       SetVenue(a.kept, kept.value.owner, a.newVenue)]
    else []
  }

  function Deletions(rows: seq<Row>, ids: seq<nat>): seq<Statement> {
    if ids == [] then []
    else
      var rest, row := Deletions(rows, ids[..|ids| - 1]), ById(rows, ids[|ids| - 1]);
      if row.Some? then rest + [Delete(row.value.id, row.value.owner)] else rest
  }

  function RewriteOf(r: Row): Statement {
    Rewrite(r.id, r.owner, Canonical(r.company), CanonicalKeyForRow(r))
  }

  function Canonicalisations(a: Approved, survivors: seq<Row>): seq<Statement> {
    if survivors == [] then []
    else
      var rest, last := Canonicalisations(a, survivors[..|survivors| - 1]), survivors[|survivors| - 1];
      if Planned(a, last) then rest + [RewriteOf(last)] else rest
  }

  // ------------------------------------------------------------- what may be assumed

  /** What the schema guarantees: ids and tenant keys are unique, and history belongs to its row's owner. */
  ghost predicate ValidDb(db: Db) {
    && (forall i, j | 0 <= i < j < |db.rows| ::
          db.rows[i].id != db.rows[j].id &&
          Scoped(db.rows[i].owner, db.rows[i].key) != Scoped(db.rows[j].owner, db.rows[j].key))
    && (forall c, r | c in db.changes && r in db.rows && c.eventId == r.id :: c.owner == r.owner)
  }

  /** Whom the decisions delete and whom they keep. */
  ghost predicate ConsistentIds(a: Approved) {
    && (forall i, j | 0 <= i < j < |a.deleteIds| :: a.deleteIds[i] != a.deleteIds[j])
    && a.dropped in a.deleteIds && a.double in a.deleteIds && a.exported in a.deleteIds
    && a.kept !in a.deleteIds && a.spared !in a.deleteIds && a.kept != a.spared
  }

  /** What the decisions expect of the two survivors. */
  ghost predicate ConsistentSurvivors(a: Approved) {
    && a.kept in a.expected && a.spared in a.expected
    && a.expected[a.kept].updates == 0
    && a.finalCompany == Canonical(a.expected[a.kept].company)
    && Canonical(a.expected[a.spared].company) == a.expected[a.spared].company
  }

  /** How the decisions hang together, whatever rows they meet. */
  ghost predicate Consistent(a: Approved) {
    ConsistentIds(a) && ConsistentSurvivors(a)
  }
}
