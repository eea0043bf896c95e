/**
 Order freedom. The plan tests each rewrite against two last-write-wins maps; under unique
 current keys that says exactly that no new key is another survivor's, now or finally. It
 follows that the deletions, and after them the rewrites, run in any order without the unique
 key being violated at any statement, and always end in the same database.
 */
module CleanupOrder {
  import opened CleanupPlan

  // -------------------------------------------------------- last write wins

  ghost predicate KeysDistinct(rows: seq<Row>) {
    forall i, j | 0 <= i < j < |rows| ::
      rows[i].id != rows[j].id && Scoped(rows[i].owner, rows[i].key) != Scoped(rows[j].owner, rows[j].key)
  }

  /** No rewrite claims a key another survivor holds now or is to hold. */
  ghost predicate Clear(a: Approved, survivors: seq<Row>) {
    forall p, r | p in survivors && r in survivors :: Apart(a, p, r)
  }

  predicate Apart(a: Approved, p: Row, r: Row) {
    Planned(a, p) && p.id != r.id ==>
      CanonicalIdentity(p) != Scoped(r.owner, r.key) && CanonicalIdentity(p) != Scoped(r.owner, FinalKey(a, r))
  }

  lemma {:induction false} CurrentKeysAre(rows: seq<Row>)
    requires KeysDistinct(rows)
    ensures forall k | k in CurrentKeys(rows) :: exists r | r in rows :: Scoped(r.owner, r.key) == k
    ensures forall r | r in rows ::
              Scoped(r.owner, r.key) in CurrentKeys(rows) && CurrentKeys(rows)[Scoped(r.owner, r.key)] == r.id
  {
    if rows != [] {
      var init, last := rows[..|rows| - 1], rows[|rows| - 1];
      CurrentKeysAre(init);
      assert forall r :: r in rows <==> r in init || r == last;
      assert forall r | r in init :: Scoped(r.owner, r.key) != Scoped(last.owner, last.key);
    }
  }

  /** Whoever the final map names has that key, and every final key is named. */
  lemma {:induction false} FinalKeysAre(a: Approved, rows: seq<Row>)
    ensures forall k | k in FinalKeys(a, rows) ::
              exists r | r in rows :: Scoped(r.owner, FinalKey(a, r)) == k && r.id == FinalKeys(a, rows)[k]
    ensures forall r | r in rows :: Scoped(r.owner, FinalKey(a, r)) in FinalKeys(a, rows)
  {
    if rows != [] {
      var init, last := rows[..|rows| - 1], rows[|rows| - 1];
      FinalKeysAre(a, init);
      assert forall r :: r in rows <==> r in init || r == last;
    }
  }

  /**
   The map check is the whole check. A later row can hide an earlier holder of the same final
   key, but then the hidden one is itself a rewrite that meets the later row, or it keeps the
   key it has, which the other map shows.
   */
  lemma LastWriteWinsIsEnough(a: Approved, survivors: seq<Row>)
    requires KeysDistinct(survivors)
    ensures (forall p | p in survivors && Planned(a, p) :: !Collides(a, survivors, p)) <==> Clear(a, survivors)
  {
    CurrentKeysAre(survivors);
    FinalKeysAre(a, survivors);
    if Clear(a, survivors) {
      forall p | p in survivors && Planned(a, p) ensures !Collides(a, survivors, p) {
        ClearMeansNoCollision(a, survivors, p);
      }
    } else {
      var p, r :| p in survivors && r in survivors && !Apart(a, p, r);
      ConflictIsSeen(a, survivors, p, r);
    }
  }

  lemma CurrentHolder(rows: seq<Row>, k: Scoped) returns (r: Row)
    requires KeysDistinct(rows) && k in CurrentKeys(rows)
    ensures r in rows && Scoped(r.owner, r.key) == k && CurrentKeys(rows)[k] == r.id
  {
    CurrentKeysAre(rows);
    r :| r in rows && Scoped(r.owner, r.key) == k;
  }

  lemma FinalHolder(a: Approved, rows: seq<Row>, k: Scoped) returns (r: Row)
    requires k in FinalKeys(a, rows)
    ensures r in rows && Scoped(r.owner, FinalKey(a, r)) == k && FinalKeys(a, rows)[k] == r.id
  {
    FinalKeysAre(a, rows);
    r :| r in rows && Scoped(r.owner, FinalKey(a, r)) == k && r.id == FinalKeys(a, rows)[k];
  }

  lemma ClearMeansNoCollision(a: Approved, survivors: seq<Row>, p: Row)
    requires KeysDistinct(survivors) && Clear(a, survivors) && p in survivors && Planned(a, p)
    ensures !Collides(a, survivors, p)
  {
    var k := CanonicalIdentity(p);
    if k in CurrentKeys(survivors) {
      var r := CurrentHolder(survivors, k);
      assert Apart(a, p, r);
    }
    if k in FinalKeys(a, survivors) {
      var r := FinalHolder(a, survivors, k);
      assert Apart(a, p, r);
    }
  }

  lemma ConflictIsSeen(a: Approved, survivors: seq<Row>, p: Row, r: Row)
    requires KeysDistinct(survivors) && p in survivors && r in survivors && !Apart(a, p, r)
    ensures exists q | q in survivors && Planned(a, q) :: Collides(a, survivors, q)
  {
    CurrentKeysAre(survivors);
    FinalKeysAre(a, survivors);
    var k := CanonicalIdentity(p);
    if k == Scoped(r.owner, r.key) {
      assert Collides(a, survivors, p);
    } else {
      assert Planned(a, r) && CanonicalIdentity(r) == k;
      assert k in FinalKeys(a, survivors);
      assert Collides(a, survivors, p) || Collides(a, survivors, r);
    }
  }

  /** The aggregate check is implied: collision-free rewrites leave all final identities distinct. */
  lemma FinalKeysDistinct(a: Approved, survivors: seq<Row>, p: Row, r: Row)
    requires KeysDistinct(survivors) && Clear(a, survivors)
    requires p in survivors && r in survivors && p.id != r.id
    ensures Scoped(p.owner, FinalKey(a, p)) != Scoped(r.owner, FinalKey(a, r))
  {
    assert Apart(a, p, r) && Apart(a, r, p);
    if !Planned(a, p) && !Planned(a, r) {
      KeysDiffer(survivors, p, r);
    }
  }

  lemma KeysDiffer(rows: seq<Row>, p: Row, q: Row)
    requires KeysDistinct(rows) && p in rows && q in rows && p.id != q.id
    ensures Scoped(p.owner, p.key) != Scoped(q.owner, q.key)
  {
    var i :| 0 <= i < |rows| && rows[i] == p;
    var j :| 0 <= j < |rows| && rows[j] == q;
  }

  lemma ClearPart(a: Approved, rows: seq<Row>, part: seq<Row>)
    requires Clear(a, rows) && forall r | r in part :: r in rows
    ensures Clear(a, part)
  {
    forall p, r | p in part && r in part ensures Apart(a, p, r) {
      assert p in rows && r in rows;
    }
  }

  lemma FinalKeyIsNew(a: Approved, survivors: seq<Row>, r: Row)
    requires KeysDistinct(survivors) && Clear(a, survivors) && survivors != [] && r in survivors[..|survivors| - 1]
    ensures var last := survivors[|survivors| - 1];
            Scoped(r.owner, FinalKey(a, r)) != Scoped(last.owner, FinalKey(a, last))
  {
    var i :| 0 <= i < |survivors| - 1 && survivors[i] == r;
    FinalKeysDistinct(a, survivors, r, survivors[|survivors| - 1]);
  }

  lemma GrownSet(small: set<Scoped>, k: Scoped, big: set<Scoped>)
    requires k !in small && big == small + {k}
    ensures |big| == |small| + 1
  {
  }

  lemma {:induction false} FinalKeysUniqueFollows(a: Approved, survivors: seq<Row>)
    requires KeysDistinct(survivors) && Clear(a, survivors)
    ensures |FinalIdentities(a, survivors)| == |survivors|
    decreases |survivors|
  {
    if survivors != [] {
      var init, last := survivors[..|survivors| - 1], survivors[|survivors| - 1];
      ClearPart(a, survivors, init);
      FinalKeysUniqueFollows(a, init);
      forall r | r in init ensures Scoped(r.owner, FinalKey(a, r)) != Scoped(last.owner, FinalKey(a, last)) {
        FinalKeyIsNew(a, survivors, r);
      }
      OneMoreIdentity(a, survivors);
      GrownSet(FinalIdentities(a, init), Scoped(last.owner, FinalKey(a, last)), FinalIdentities(a, survivors));
    }
  }

  lemma OneMoreIdentity(a: Approved, survivors: seq<Row>)
    requires survivors != []
    ensures var init, last := survivors[..|survivors| - 1], survivors[|survivors| - 1];
            FinalIdentities(a, survivors) == FinalIdentities(a, init) + {Scoped(last.owner, FinalKey(a, last))}
  {
    var init, last := survivors[..|survivors| - 1], survivors[|survivors| - 1];
    assert forall r :: r in survivors <==> r in init || r == last;
    assert forall r | r in survivors :: Scoped(r.owner, FinalKey(a, r)) in FinalIdentities(a, survivors);
  }
}
