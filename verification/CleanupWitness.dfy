/**
 The clean-up can commit, and an accepted plan can roll back. On a table of two companies in two
 spellings each the plan is accepted, and the transaction commits exactly when the one company it
 rewrites comes out well.
 */
module CleanupWitness {
  import opened Prelude
  import Ascii
  import opened Calendar
  import opened Identity
  import opened CleanupPlan
  import opened CleanupOrder
  import opened CleanupSoundness
  import opened CleanupPostconditions
  import opened CleanupDecisions

  // ------------------------------------------------------- four rows, two groups

  ghost predicate Numbered(rows: seq<Row>) {
    |rows| == 4 && (forall i | 0 <= i < 4 :: rows[i].id == i + 1)
  }

  /** The ids whose key, row by row, is `k`. */
  function Sharing(rows: seq<Row>, keys: seq<Scoped>, k: Scoped): set<nat>
    requires |keys| == |rows|
  {
    set i | 0 <= i < |rows| && keys[i] == k :: rows[i].id
  }

  ghost predicate KeysAre(rows: seq<Row>, keys: seq<Scoped>) {
    |keys| == |rows| && forall i | 0 <= i < |rows| :: keys[i] == CanonicalIdentity(rows[i])
  }

  lemma MembersAre(rows: seq<Row>, keys: seq<Scoped>, k: Scoped)
    requires KeysAre(rows, keys)
    ensures Members(rows, k) == Sharing(rows, keys, k)
  {
    forall r | r in rows ensures exists i | 0 <= i < |rows| :: rows[i] == r && keys[i] == CanonicalIdentity(r) {
      var i :| 0 <= i < |rows| && rows[i] == r;
    }
    assert forall i | 0 <= i < |rows| :: rows[i] in rows && keys[i] == CanonicalIdentity(rows[i]);
  }

  /** The groups, read off the keys. */
  function Groups(rows: seq<Row>, keys: seq<Scoped>): set<set<nat>>
    requires |keys| == |rows|
  {
    set i | 0 <= i < |rows| && |Sharing(rows, keys, keys[i])| > 1 :: Sharing(rows, keys, keys[i])
  }

  lemma GroupIsRead(rows: seq<Row>, keys: seq<Scoped>, r: Row)
    requires KeysAre(rows, keys) && r in rows && |Members(rows, CanonicalIdentity(r))| > 1
    ensures Members(rows, CanonicalIdentity(r)) in Groups(rows, keys)
  {
    var i :| 0 <= i < |rows| && rows[i] == r;
    MembersAre(rows, keys, keys[i]);
    assert keys[i] == CanonicalIdentity(r);
  }

  lemma ReadIsGroup(rows: seq<Row>, keys: seq<Scoped>, i: nat)
    requires KeysAre(rows, keys) && i < |rows| && |Sharing(rows, keys, keys[i])| > 1
    ensures Sharing(rows, keys, keys[i]) in CollisionGroups(rows)
  {
    MembersAre(rows, keys, keys[i]);
    assert rows[i] in rows && keys[i] == CanonicalIdentity(rows[i]);
  }

  lemma GroupsAre(rows: seq<Row>, keys: seq<Scoped>)
    requires KeysAre(rows, keys)
    ensures CollisionGroups(rows) == Groups(rows, keys)
  {
    forall r | r in rows && |Members(rows, CanonicalIdentity(r))| > 1
      ensures Members(rows, CanonicalIdentity(r)) in Groups(rows, keys)
    {
      GroupIsRead(rows, keys, r);
    }
    forall i | 0 <= i < |rows| && |Sharing(rows, keys, keys[i])| > 1
      ensures Sharing(rows, keys, keys[i]) in CollisionGroups(rows)
    {
      ReadIsGroup(rows, keys, i);
    }
  }

  lemma TwoGroups(rows: seq<Row>, k: Scoped, l: Scoped)
    requires Numbered(rows) && k != l
    ensures Groups(rows, [k, k, l, l]) == {{1, 2}, {3, 4}}
  {
    var keys := [k, k, l, l];
    assert Sharing(rows, keys, k) == {1, 2} by { assert keys[0] == k && keys[1] == k; }
    assert Sharing(rows, keys, l) == {3, 4} by { assert keys[2] == l && keys[3] == l; }
    assert |{1, 2}| == 2 && |{3, 4}| == 2;
    assert keys[0] == k && keys[2] == l;
  }

  lemma FoundIs(rows: seq<Row>, i: nat)
    requires Numbered(rows) && i < 4
    ensures ById(rows, i + 1) == Some(rows[i])
  {
    assert rows[i] in rows;
  }

  lemma WhoSurvives(a: Approved, rows: seq<Row>)
    requires Numbered(rows) && a.deleteIds == [2, 4]
    ensures Survivors(a, rows) == [rows[0], rows[2]]
  {
    assert rows[..3][..2] == rows[..2] && rows[..2][..1] == rows[..1] && rows[..1][..0] == [];
    assert Survivors(a, rows[..1]) == [rows[0]];
    assert Survivors(a, rows[..2]) == [rows[0]];
    assert Survivors(a, rows[..3]) == [rows[0], rows[2]];
  }

  lemma OneRewriteIsClear(a: Approved, p: Row, r: Row)
    requires Planned(a, p) && !Planned(a, r) && CanonicalIdentity(p) != Scoped(r.owner, r.key)
    ensures Clear(a, [p, r])
  {
    assert Apart(a, p, r) && Apart(a, r, p) && Apart(a, p, p) && Apart(a, r, r);
  }

  lemma OneRewriteIsFree(a: Approved, rows: seq<Row>)
    requires Numbered(rows) && a.deleteIds == [2, 4] && KeysDistinct(rows)
    requires Planned(a, rows[0]) && !Planned(a, rows[2]) && CanonicalIdentity(rows[0]) != Scoped(rows[2].owner, rows[2].key)
    ensures CollisionFree(a, rows) && FinalKeysUnique(a, rows)
  {
    SurvivorsDistinct(a, rows);
    WhoSurvives(a, rows);
    OneRewriteIsClear(a, rows[0], rows[2]);
    LastWriteWinsIsEnough(a, Survivors(a, rows));
    FinalKeysUniqueFollows(a, Survivors(a, rows));
  }

  // -------------------------------------------------------------------- the table

  function Test(id: nat, company: string, day: Day, venue: Option<string>): Row {
    Row(id, 1, company, "OA", day, None, venue, EventKey(company, "OA", Iso(day)), 1.0, "scheduled")
  }

  /** A test of each spelling on one day. */
  function Table(names: seq<string>, day: Day): seq<Row>
    requires |names| == 4
  {
    [Test(1, names[0], day, Some("campus")), Test(2, names[1], day, Some("tpo")),
     Test(3, names[2], day, None), Test(4, names[3], day, None)]
  }

  /** What is used of that table: unlike keys are unlike companies. */
  ghost predicate Tests(rows: seq<Row>, names: seq<string>, day: Day) {
    && |names| == 4 && Numbered(rows)
    && (forall i | 0 <= i < 4 :: TestOf(rows[i], names[i], day))
  }

  ghost predicate TestOf(r: Row, company: string, day: Day) {
    r.owner == 1 && r.stage == "OA" && r.date == day && r.company == company && r.key == KeyForRow(r)
  }

  lemma TestIs(id: nat, company: string, day: Day, venue: Option<string>)
    ensures TestOf(Test(id, company, day, venue), company, day)
  {
  }

  lemma TableIs(names: seq<string>, day: Day)
    requires |names| == 4
    ensures Tests(Table(names, day), names, day)
  {
    TestIs(1, names[0], day, Some("campus"));
    TestIs(2, names[1], day, Some("tpo"));
    TestIs(3, names[2], day, None);
    TestIs(4, names[3], day, None);
  }

  function NameKey(company: string, day: Day): Scoped {
    Scoped(1, EventKey(company, "OA", Iso(day)))
  }

  lemma NameKeysDiffer(c: string, d: string, day: Day)
    requires c != d
    ensures NameKey(c, day) != NameKey(d, day)
  {
    StageHasNoBar("OA");
    KeyInjective(c, "OA", Iso(day), d, "OA", Iso(day));
  }

  lemma KeyIs(r: Row, company: string, day: Day)
    requires TestOf(r, company, day)
    ensures Scoped(r.owner, r.key) == NameKey(company, day)
  {
  }

  lemma IdentityIs(r: Row, name: string, day: Day, company: string)
    requires TestOf(r, name, day) && Canonical(name) == company
    ensures CanonicalIdentity(r) == NameKey(company, day)
  {
  }

  ghost predicate Different(names: seq<string>) {
    |names| == 4 && forall i, j | 0 <= i < j < 4 :: names[i] != names[j]
  }

  lemma RowsDiffer(r: Row, s: Row, name: string, other: string, day: Day)
    requires TestOf(r, name, day) && TestOf(s, other, day) && name != other
    ensures Scoped(r.owner, r.key) != Scoped(s.owner, s.key)
  {
    KeyIs(r, name, day);
    KeyIs(s, other, day);
    NameKeysDiffer(name, other, day);
  }

  lemma TableIsValid(rows: seq<Row>, names: seq<string>, day: Day)
    requires Tests(rows, names, day) && Different(names)
    ensures KeysDistinct(rows) && ValidDb(Db(rows, [], 0))
  {
    forall i, j | 0 <= i < j < |rows|
      ensures rows[i].id != rows[j].id && Scoped(rows[i].owner, rows[i].key) != Scoped(rows[j].owner, rows[j].key)
    {
      RowsDiffer(rows[i], rows[j], names[i], names[j], day);
    }
  }

  /** The spellings come out in pairs. */
  ghost predicate Pairs(names: seq<string>, p: string, q: string) {
    && |names| == 4 && p != q && names[2] == q
    && Canonical(names[0]) == p && Canonical(names[1]) == p && Canonical(names[2]) == q && Canonical(names[3]) == q
  }

  lemma FourKeys(rows: seq<Row>, k: Scoped, l: Scoped)
    requires |rows| == 4 && CanonicalIdentity(rows[0]) == k && CanonicalIdentity(rows[1]) == k
    requires CanonicalIdentity(rows[2]) == l && CanonicalIdentity(rows[3]) == l
    ensures KeysAre(rows, [k, k, l, l])
  {
    var keys := [k, k, l, l];
    forall i | 0 <= i < 4 ensures keys[i] == CanonicalIdentity(rows[i]) {
      if i == 0 {
      } else if i == 1 {
      } else if i == 2 {
      } else {
        assert i == 3;
      }
    }
  }

  lemma KeysComeInPairs(rows: seq<Row>, names: seq<string>, day: Day, p: string, q: string)
    requires Tests(rows, names, day) && Pairs(names, p, q)
    ensures KeysAre(rows, [NameKey(p, day), NameKey(p, day), NameKey(q, day), NameKey(q, day)])
  {
    IdentityIs(rows[0], names[0], day, p);
    IdentityIs(rows[1], names[1], day, p);
    IdentityIs(rows[2], names[2], day, q);
    IdentityIs(rows[3], names[3], day, q);
    FourKeys(rows, NameKey(p, day), NameKey(q, day));
  }

  lemma GroupsAreRight(rows: seq<Row>, names: seq<string>, day: Day, p: string, q: string)
    requires Tests(rows, names, day) && Pairs(names, p, q)
    ensures CollisionGroups(rows) == {{1, 2}, {3, 4}}
  {
    var k, l := NameKey(p, day), NameKey(q, day);
    NameKeysDiffer(p, q, day);
    KeysComeInPairs(rows, names, day, p, q);
    GroupsAre(rows, [k, k, l, l]);
    TwoGroups(rows, k, l);
  }

  // ----------------------------------------------------------------- the decisions

  function AsFound(r: Row): Expected {
    Expected(r.company, r.stage, Iso(r.date), r.time, r.venue, r.confidence, r.status, 0)
  }

  /** The first row of each pair is kept, after the pattern of the script's own decisions. */
  function Decisions(rows: seq<Row>, company: string): Approved
    requires |rows| == 4
  {
    Approved(1, 2, 3, 4, [2, 4], 4, 0, map[1 := AsFound(rows[0]), 3 := AsFound(rows[2])],
             map[], "campus", "tpo", company, 4, 0)
  }

  /** What is used of those decisions. */
  ghost predicate Decided(a: Approved, rows: seq<Row>) {
    && |rows| == 4 && a.deleteIds == [2, 4] && a.kept == 1 && a.dropped == 2 && a.spared == 3 && a.double == 4
    && a.exported == 4 && a.exportedUpdates == 0 && a.excluded == map[]
    && a.eventCount == 4 && a.extractionCount == 0
    && a.expected.Keys == {1, 3} && a.expected[1] == AsFound(rows[0]) && a.expected[3] == AsFound(rows[2])
    && rows[0].venue == Some(a.oldVenue) && rows[1].venue == Some(a.newVenue)
  }

  lemma DecisionsAre(names: seq<string>, day: Day, company: string)
    requires |names| == 4
    ensures Decided(Decisions(Table(names, day), company), Table(names, day))
  {
  }

  lemma IdsHangTogether(a: Approved, rows: seq<Row>)
    requires Decided(a, rows)
    ensures ConsistentIds(a)
  {
    assert a.deleteIds[0] == 2 && a.deleteIds[1] == 4;
  }

  lemma SurvivorsHangTogether(a: Approved, rows: seq<Row>, names: seq<string>, day: Day, p: string, q: string)
    requires Decided(a, rows) && Tests(rows, names, day) && Pairs(names, p, q) && a.finalCompany == p
    ensures ConsistentSurvivors(a)
  {
    assert rows[0].company == names[0] && rows[2].company == names[2];
  }

  lemma RowsAreFound(rows: seq<Row>)
    requires Numbered(rows)
    ensures ById(rows, 1) == Some(rows[0]) && ById(rows, 2) == Some(rows[1])
    ensures ById(rows, 3) == Some(rows[2]) && ById(rows, 4) == Some(rows[3])
  {
    FoundIs(rows, 0);
    FoundIs(rows, 1);
    FoundIs(rows, 2);
    FoundIs(rows, 3);
  }

  lemma InventoryPasses(a: Approved, rows: seq<Row>)
    requires Decided(a, rows) && Numbered(rows)
    ensures Inventoried(a, Db(rows, [], 0))
  {
    RowsAreFound(rows);
  }

  lemma OtherChecksPass(a: Approved, rows: seq<Row>, names: seq<string>, day: Day)
    requires Decided(a, rows) && Tests(rows, names, day)
    ensures var db := Db(rows, [], 0);
            PairsShareAnOwner(a, rows) && Exportable(a, db) && DeletionsResolvable(a, db) &&
            ExclusionsRespected(a, rows) && MergeValid(a, rows)
  {
    RowsAreFound(rows);
  }

  lemma FirstIsRewritten(a: Approved, rows: seq<Row>, names: seq<string>, day: Day, p: string, q: string)
    requires Decided(a, rows) && Tests(rows, names, day) && Pairs(names, p, q) && names[0] != p
    ensures Planned(a, rows[0]) && !Planned(a, rows[2]) && CanonicalIdentity(rows[0]) != Scoped(rows[2].owner, rows[2].key)
  {
    IdentityIs(rows[0], names[0], day, p);
    KeyIs(rows[2], names[2], day);
    NameKeysDiffer(p, q, day);
  }

  lemma KeysAreTheirs(rows: seq<Row>, names: seq<string>, day: Day)
    requires Tests(rows, names, day)
    ensures KeyIntegrity(rows)
  {
    forall r | r in rows ensures r.key == KeyForRow(r) {
      var i :| 0 <= i < 4 && rows[i] == r;
      assert TestOf(rows[i], names[i], day);
    }
  }

  lemma PlanIsAccepted(a: Approved, rows: seq<Row>, names: seq<string>, day: Day, p: string, q: string)
    requires Decided(a, rows) && Tests(rows, names, day) && Different(names) && Pairs(names, p, q) && names[0] != p
    ensures PlanOk(a, Db(rows, [], 0))
  {
    KeysAreTheirs(rows, names, day);
    TableIsValid(rows, names, day);
    GroupsAreRight(rows, names, day, p, q);
    FirstIsRewritten(a, rows, names, day, p, q);
    OneRewriteIsFree(a, rows);
    InventoryPasses(a, rows);
    OtherChecksPass(a, rows, names, day);
  }

  lemma FirstOrThird(a: Approved, rows: seq<Row>)
    requires Numbered(rows) && a.deleteIds == [2, 4]
    ensures forall r | r in rows && r.id !in a.deleteIds :: r == rows[0] || r == rows[2]
    ensures rows[0].id !in a.deleteIds
  {
    forall r | r in rows && r.id !in a.deleteIds ensures r == rows[0] || r == rows[2] {
      var i :| 0 <= i < 4 && rows[i] == r;
      assert a.deleteIds[0] == 2 && a.deleteIds[1] == 4;
    }
  }

  /** When the first row is the only one left to rewrite, its company decides. */
  lemma FirstDecides(a: Approved, rows: seq<Row>)
    requires Numbered(rows) && a.deleteIds == [2, 4] && Planned(a, rows[0]) && !Planned(a, rows[2])
    ensures RewritesEndWell(a, rows) <==> !EndsBadly(Canonical(rows[0].company))
  {
    FirstOrThird(a, rows);
    assert rows[0] in rows;
  }

  lemma OneRewriteEnds(a: Approved, rows: seq<Row>, names: seq<string>, day: Day, p: string, q: string)
    requires Decided(a, rows) && Tests(rows, names, day) && Pairs(names, p, q) && names[0] != p
    ensures RewritesEndWell(a, rows) <==> !EndsBadly(p)
  {
    FirstIsRewritten(a, rows, names, day, p, q);
    FirstDecides(a, rows);
    FirstCompany(rows, names, day);
  }

  lemma FirstCompany(rows: seq<Row>, names: seq<string>, day: Day)
    requires Tests(rows, names, day)
    ensures rows[0].company == names[0]
  {
    assert TestOf(rows[0], names[0], day);
  }

  /** The plan on such a table is accepted, and commits exactly when the kept company comes out well. */
  lemma AcceptedAndCommitsIff(a: Approved, rows: seq<Row>, names: seq<string>, day: Day, p: string, q: string)
    requires Decided(a, rows) && Tests(rows, names, day) && Different(names) && Pairs(names, p, q) && names[0] != p
    requires a.finalCompany == p
    ensures var db := Db(rows, [], 0);
            Accepted(a, db) && Transaction(a, db) == if EndsBadly(p) then None else Some(Cleaned(a, db))
  {
    TableIsValid(rows, names, day);
    IdsHangTogether(a, rows);
    SurvivorsHangTogether(a, rows, names, day, p, q);
    PlanIsAccepted(a, rows, names, day, p, q);
    OneRewriteEnds(a, rows, names, day, p, q);
    CommitsIff(a, Db(rows, [], 0));
  }

  // ----------------------------------------------------------------- the witnesses

  /** A company in its canonical spelling. */
  ghost predicate Plain(company: string) {
    Phrase(company) && company[|company| - 1] != '.' && Ascii.Lower(company) == company
  }

  function Dotted(company: string): string {
    company + ['.']
  }

  /** Each of two companies with and without a period. */
  function Spellings(p: string, q: string): seq<string> {
    [Dotted(p), p, q, Dotted(q)]
  }

  lemma TwoSpellings(p: string)
    requires Plain(p)
    ensures Canonical(p) == p && Canonical(Dotted(p)) == p && Dotted(p) != p && !EndsBadly(p)
  {
    PhraseCanonical(p);
  }

  lemma FourSpellings(names: seq<string>, p: string, q: string)
    requires Plain(p) && Plain(q) && p != q && names == Spellings(p, q)
    ensures Pairs(names, p, q)
  {
    TwoSpellings(p);
    TwoSpellings(q);
    assert names[0] == Dotted(p) && names[1] == p && names[2] == q && names[3] == Dotted(q);
  }

  /** A dotted spelling is no plain one, and two of them differ as their companies do. */
  lemma AllDifferent(p: string, q: string)
    requires Plain(p) && Plain(q) && p != q
    ensures Different(Spellings(p, q)) && Dotted(p) != p
  {
    assert Dotted(p)[|p|] == Dotted(q)[|q|] == '.';
    assert p == Dotted(p)[..|p|] && q == Dotted(q)[..|q|];
  }

  /** For any two companies and any day the plan on that table is accepted and the transaction commits. */
  lemma CanCommit(p: string, q: string, day: Day)
    requires Plain(p) && Plain(q) && p != q
    ensures var rows := Table(Spellings(p, q), day);
            var a, db := Decisions(rows, p), Db(rows, [], 0);
            Accepted(a, db) && Transaction(a, db) == Some(Cleaned(a, db))
  {
    var names := Spellings(p, q);
    var rows := Table(names, day);
    var a := Decisions(rows, p);
    TwoSpellings(p);
    TwoSpellings(q);
    FourSpellings(names, p, q);
    AllDifferent(p, q);
    TableIs(names, day);
    DecisionsAre(names, day, p);
    AcceptedAndCommitsIff(a, rows, names, day, p, q);
  }

  // ---------------------------------------------------------- one that rolls back

  /** Two spellings of a company with two periods too many, and another company with and without one. */
  function TwicePeriod(s: string, p: string, q: string): seq<string> {
    [Dotted(Dotted(s)), Dotted(Dotted(p)), q, Dotted(q)]
  }

  /** Only one of the periods is dropped. */
  lemma OnePeriodStays(s: string)
    requires Phrase(s)
    ensures Canonical(Dotted(Dotted(s))) == Ascii.Lower(Dotted(s))
  {
    var t := Dotted(Dotted(s));
    assert Collapsed(Dotted(s)) && Collapsed(t) && Ascii.Trimmed(t);
    CanonicalOfTidy(t);
    assert DropPeriod(t) == Dotted(s);
  }

  lemma LowerDotted(s: string)
    ensures Ascii.Lower(Dotted(s)) == Dotted(Ascii.Lower(s))
  {
  }

  lemma SpellingsOfTwo(names: seq<string>, s: string, p: string, q: string)
    requires Phrase(s) && Plain(p) && Plain(q) && Ascii.Lower(s) == p && names == TwicePeriod(s, p, q)
    ensures Pairs(names, Dotted(p), q)
  {
    OnePeriodStays(s);
    OnePeriodStays(p);
    LowerDotted(s);
    LowerDotted(p);
    TwoSpellings(q);
    assert Dotted(p)[|p|] == '.';
    assert names[0] == Dotted(Dotted(s)) && names[1] == Dotted(Dotted(p)) && names[2] == q && names[3] == Dotted(q);
  }

  lemma DottedDiffer(s: string, p: string)
    requires s != p
    ensures Dotted(s) != Dotted(p)
  {
    assert s == Dotted(s)[..|s|] && p == Dotted(p)[..|p|];
  }

  lemma TwicePeriodDiffer(s: string, p: string, q: string)
    requires s != p && Plain(p) && Plain(q)
    ensures Different(TwicePeriod(s, p, q)) && Dotted(Dotted(s)) != Dotted(p)
  {
    assert Dotted(s)[|s|] == '.' && Dotted(p)[|p|] == '.';
    DottedDiffer(s, p);
    DottedDiffer(Dotted(s), Dotted(p));
    DottedDiffer(Dotted(s), q);
    DottedDiffer(Dotted(p), q);
    DottedDiffer(Dotted(s), p);
    assert Dotted(Dotted(s))[|s| + 1] == '.' && Dotted(Dotted(p))[|p| + 1] == '.';
  }

  lemma DottedEndsBadly(p: string)
    ensures EndsBadly(Dotted(p))
  {
  }

  /** The table is one of those whose plan is accepted. */
  lemma TwicePeriodFits(names: seq<string>, s: string, p: string, q: string)
    requires Phrase(s) && Plain(p) && Plain(q) && s != p && Ascii.Lower(s) == p && names == TwicePeriod(s, p, q)
    ensures Different(names) && Pairs(names, Dotted(p), q) && names[0] != Dotted(p) && EndsBadly(Dotted(p))
  {
    SpellingsOfTwo(names, s, p, q);
    TwicePeriodDiffer(s, p, q);
    DottedEndsBadly(p);
  }

  /**
   An accepted plan that rolls back: whatever the company and its other spelling, two periods too
   many on each leave one behind, and the post-conditions refuse what the plan let through.
   */
  lemma AcceptedCanRollBack(s: string, p: string, q: string, day: Day)
    requires Phrase(s) && Plain(p) && Plain(q) && s != p && Ascii.Lower(s) == p
    ensures var rows := Table(TwicePeriod(s, p, q), day);
            var a, db := Decisions(rows, Dotted(p)), Db(rows, [], 0);
            Accepted(a, db) && Transaction(a, db).None?
  {
    var names := TwicePeriod(s, p, q);
    var rows := Table(names, day);
    var a := Decisions(rows, Dotted(p));
    TwicePeriodFits(names, s, p, q);
    TableIs(names, day);
    DecisionsAre(names, day, Dotted(p));
    AcceptedAndCommitsIff(a, rows, names, day, Dotted(p), q);
  }

  /** Such companies exist. */
  lemma SpellingsExist()
    ensures Phrase("XY") && Plain("xy") && Plain("ab") && Ascii.Lower("XY") == "xy"
  {
  }
}
