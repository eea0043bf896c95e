/** Which authenticated user a parked mailbox belongs to: exactly one eligible match, or no answer. */
module MailboxOwner {
  import opened Ascii

  datatype User = User(id: nat, email: string, status: string, deleted: bool)

  datatype Resolution = Mapped(user: User) | Ambiguous(users: seq<User>) | Unmapped(ineligible: seq<User>)

  const ACTIVE := "active"

  /** Case and surrounding space do not matter; nothing else is ignored. */
  function NormalizeEmail(email: string): string {
    Lower(Trim(email))
  }

  predicate IsEligibleOwner(u: User) {
    u.status == ACTIVE && !u.deleted
  }

  predicate SameAddress(email: string, u: User) {
    NormalizeEmail(u.email) == NormalizeEmail(email)
  }

  function Filter(users: seq<User>, keep: User -> bool): seq<User> {
    if users == [] then []
    else
      var rest, last := Filter(users[..|users| - 1], keep), users[|users| - 1];
      if keep(last) then rest + [last] else rest
  }

  /** The users of the address. */
  function AtAddress(email: string): User -> bool {
    u => SameAddress(email, u)
  }

  function Decide(candidates: seq<User>, same: User -> bool, eligible: User -> bool): Resolution {
    var matches := Filter(candidates, same);
    var found := Filter(matches, eligible);
    if |found| == 1 then Mapped(found[0])
    else if |found| > 1 then Ambiguous(found)
    else Unmapped(matches)
  }

  function ResolveMailboxOwner(email: string, candidates: seq<User>): Resolution {
    Decide(candidates, AtAddress(email), IsEligibleOwner)
  }

  /** The positions of the users kept. */
  ghost function Positions(users: seq<User>, keep: User -> bool): set<int> {
    set i | 0 <= i < |users| && keep(users[i])
  }

  lemma {:induction false} FilterCounts(users: seq<User>, keep: User -> bool)
    ensures |Filter(users, keep)| == |Positions(users, keep)|
    ensures forall u :: u in Filter(users, keep) <==> u in users && keep(u)
  {
    if users == [] {
      assert Positions(users, keep) == {};
    } else {
      var n := |users| - 1;
      FilterCounts(users[..n], keep);
      assert forall u :: u in users <==> u in users[..n] || u == users[n];
      assert Positions(users, keep) == Positions(users[..n], keep) + if keep(users[n]) then {n} else {};
    }
  }

  lemma {:induction false} FilterTwice(users: seq<User>, p: User -> bool, q: User -> bool, both: User -> bool)
    requires forall u :: both(u) <==> p(u) && q(u)
    ensures Filter(Filter(users, p), q) == Filter(users, both)
  {
    if users != [] {
      var n := |users| - 1;
      FilterTwice(users[..n], p, q, both);
      var rest := Filter(users[..n], p);
      assert (rest + [users[n]])[..|rest|] == rest;
    }
  }

  /** The candidates that may own, by position, so that two rows of one person count as two. */
  ghost function Owners(candidates: seq<User>, same: User -> bool, eligible: User -> bool): set<int> {
    set i | 0 <= i < |candidates| && same(candidates[i]) && eligible(candidates[i])
  }

  lemma DecideIs(candidates: seq<User>, same: User -> bool, eligible: User -> bool)
    ensures var n, r := |Owners(candidates, same, eligible)|, Decide(candidates, same, eligible);
            (r.Mapped? <==> n == 1) && (r.Ambiguous? <==> n > 1) && (r.Unmapped? <==> n == 0)
    ensures var r := Decide(candidates, same, eligible);
            (r.Mapped? ==> forall u :: u in candidates && same(u) && eligible(u) <==> u == r.user) &&
            (r.Ambiguous? ==> forall u :: u in candidates && same(u) && eligible(u) <==> u in r.users) &&
            (r.Unmapped? ==> forall u :: u in candidates && same(u) <==> u in r.ineligible)
  {
    var both := u => same(u) && eligible(u);
    FilterCounts(candidates, same);
    FilterCounts(candidates, both);
    FilterTwice(candidates, same, eligible, both);
    assert Owners(candidates, same, eligible) == Positions(candidates, both);
    var found := Filter(candidates, both);
    assert Filter(Filter(candidates, same), eligible) == found;
    assert forall u :: u in candidates && same(u) && eligible(u) <==> u in found;
    if |found| == 1 {
      assert found == [found[0]];
    }
  }

  /** The user's address is the mailbox's, case and the blanks around it aside. */
  ghost predicate SharesAddress(email: string, u: User) {
    SameText(u.email, email)
  }

  /** A user who may own the mailbox: at its address, active, and not deleted. */
  ghost predicate MayOwn(email: string, u: User) {
    SharesAddress(email, u) && u.status == "active" && !u.deleted
  }

  lemma MayOwnIs(email: string, u: User)
    ensures AtAddress(email)(u) <==> SharesAddress(email, u)
    ensures AtAddress(email)(u) && IsEligibleOwner(u) <==> MayOwn(email, u)
  {
    SameTextIs(u.email, email);
  }

  /** The places of the candidates who may own the mailbox, so that two rows of one person count as two. */
  ghost function OwnerPlaces(email: string, candidates: seq<User>): set<int> {
    set i | 0 <= i < |candidates| && MayOwn(email, candidates[i])
  }

  /**
   One active, undeleted candidate at the mailbox's address, counted by position, maps to it and to no
   one else; several are ambiguous and all reported; none is unmapped, with every match reported.
   */
  lemma ResolutionIs(email: string, candidates: seq<User>)
    ensures var n, r := |OwnerPlaces(email, candidates)|, ResolveMailboxOwner(email, candidates);
            (r.Mapped? <==> n == 1) && (r.Ambiguous? <==> n > 1) && (r.Unmapped? <==> n == 0)
    ensures var r := ResolveMailboxOwner(email, candidates);
            (r.Mapped? ==> forall u :: u in candidates && MayOwn(email, u) <==> u == r.user) &&
            (r.Ambiguous? ==> forall u :: u in candidates && MayOwn(email, u) <==> u in r.users) &&
            (r.Unmapped? ==> forall u :: u in candidates && SharesAddress(email, u) <==> u in r.ineligible)
  {
    DecideIs(candidates, AtAddress(email), IsEligibleOwner);
    forall u
      ensures AtAddress(email)(u) <==> SharesAddress(email, u)
      ensures AtAddress(email)(u) && IsEligibleOwner(u) <==> MayOwn(email, u)
    {
      MayOwnIs(email, u);
    }
    assert Owners(candidates, AtAddress(email), IsEligibleOwner) == OwnerPlaces(email, candidates);
  }

  /** The user at `i` is the one candidate who may own the mailbox. */
  ghost predicate OneOwner(email: string, candidates: seq<User>, i: int) {
    0 <= i < |candidates| && MayOwn(email, candidates[i]) &&
    forall j | 0 <= j < |candidates| && MayOwn(email, candidates[j]) :: j == i
  }

  lemma SingleElement(places: set<int>, i: int)
    requires |places| == 1 && i in places
    ensures places == {i}
  {
    assert |places - {i}| == 0;
  }

  lemma OnePlace(email: string, candidates: seq<User>, i: int)
    requires OneOwner(email, candidates, i)
    ensures OwnerPlaces(email, candidates) == {i}
  {
  }

  lemma PlaceIsOne(email: string, candidates: seq<User>) returns (i: int)
    requires |OwnerPlaces(email, candidates)| == 1
    ensures OneOwner(email, candidates, i)
  {
    i :| i in OwnerPlaces(email, candidates);
    SingleElement(OwnerPlaces(email, candidates), i);
    forall j | 0 <= j < |candidates| && MayOwn(email, candidates[j]) ensures j == i {
      assert j in OwnerPlaces(email, candidates);
    }
  }

  lemma MappedTo(email: string, candidates: seq<User>, i: int)
    requires OneOwner(email, candidates, i)
    ensures ResolveMailboxOwner(email, candidates) == Mapped(candidates[i])
  {
    ResolutionIs(email, candidates);
    OnePlace(email, candidates, i);
    assert candidates[i] in candidates && MayOwn(email, candidates[i]);
  }

  /** A mailbox maps exactly when one candidate may own it, and then to that one. */
  lemma MappedIff(email: string, candidates: seq<User>)
    ensures ResolveMailboxOwner(email, candidates).Mapped? <==> exists i: int :: OneOwner(email, candidates, i)
    ensures forall i: int | OneOwner(email, candidates, i) ::
              ResolveMailboxOwner(email, candidates) == Mapped(candidates[i])
  {
    if ResolveMailboxOwner(email, candidates).Mapped? {
      ResolutionIs(email, candidates);
      var i := PlaceIsOne(email, candidates);
    }
    forall i: int | OneOwner(email, candidates, i) ensures ResolveMailboxOwner(email, candidates) == Mapped(candidates[i]) {
      MappedTo(email, candidates, i);
    }
  }

  /** Several matches, and matches that may not own, are reported in the order of the candidates. */
  lemma FilterJoins(a: seq<User>, b: seq<User>, keep: User -> bool)
    ensures Filter(a + b, keep) == Filter(a, keep) + Filter(b, keep)
    decreases |b|
  {
    if b == [] {
      assert a + b == a;
    } else {
      var n := |b| - 1;
      assert (a + b)[..|a + b| - 1] == a + b[..n];
      FilterJoins(a, b[..n], keep);
    }
  }

  lemma FilterOne(u: User, keep: User -> bool)
    ensures Filter([u], keep) == if keep(u) then [u] else []
  {
    assert [u][..0] == [];
  }
}
