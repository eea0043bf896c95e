/**
 Order independence from the start: no row is about the activity yet, the first email makes one and
 the others meet it. Which comes first decides the row's first values and what can then be said, so
 this is the case the promise of order independence is about.
 */
module OrderFromNothing {
  import opened Prelude
  import opened Calendar
  import opened Identity
  import opened Events
  import opened Recognition
  import opened StoreInvariant
  import opened OrderIndependence
  import opened OrderInGeneral
  import opened OrderOfRuns

  // ----------------------------------------------------------------- the first row

  /** An observation that passes both gates. */
  ghost predicate Told(o: Observation) {
    Usable(o) && o.confidence >= CONFIDENCE_THRESHOLD && ResolvedCompany(Some(o.company))
  }

  /** The row a first email leaves. */
  function FirstRow(owner: nat, id: nat, o: Observation): Event {
    NewEvent(id, owner, o, Scheduled, None)
  }

  /** No row has the key, none is within the soft window, and not exactly one is within the loose one. */
  lemma NobodyMatches(events: seq<Event>, owner: nat, o: Observation)
    requires Confidences(events) && Usable(o)
    requires forall j | 0 <= j < |events| ::
               !(events[j].owner == owner && events[j].key == KeyOf(o)) && !Eligible(events[j], owner, o)
    requires forall k: int :: !SoleLoose(events, owner, o, k)
    ensures Match(events, owner, o).None?
  {
    FindSound(events, owner, KeyOf(o));
    AllPositive(events, owner, o);
    var k := BestIsWinner(events, owner, o);
    LooseTierExact(events, owner, o);
  }

  /** Then the message adds a row. */
  lemma Adds(s: Store, owner: nat, id: nat, o: Observation)
    requires Inv(s) && Told(o) && FreshId(s, id) && Match(s.events, owner, o).None?
    ensures Inv(Decide(s, owner, id, o)) && Decide(s, owner, id, o).events == s.events + [FirstRow(owner, id, o)]
  {
    CreateInv(s, owner, id, o, Scheduled, None);
  }

  /** Messages of one activity: same company and round, days within one loose window. */
  ghost predicate Together(o: Observation, p: Observation) {
    o.company == p.company && o.stage == p.stage && Distance(o.date, p.date) <= LOOSE_WINDOW_DAYS
  }

  /** No row of the table could be taken for the observation. */
  ghost predicate AllAloof(events: seq<Event>, owner: nat, o: Observation) {
    forall j | 0 <= j < |events| :: Aloof(events[j], owner, o)
  }

  /** Emails of one activity, all past the gates, that no row is about. */
  ghost predicate Unseen(s: Store, owner: nat, xs: seq<Observation>) {
    && (forall o | o in xs :: Told(o) && AllAloof(s.events, owner, o))
    && forall o, p | o in xs && p in xs :: Together(o, p)
  }

  lemma UnseenPart(s: Store, owner: nat, xs: seq<Observation>, ys: seq<Observation>)
    requires Unseen(s, owner, xs) && forall o | o in ys :: o in xs
    ensures Unseen(s, owner, ys)
  {
  }

  lemma AloofIsNoMatch(s: Store, owner: nat, o: Observation)
    requires Inv(s) && Usable(o) && AllAloof(s.events, owner, o)
    ensures Match(s.events, owner, o).None?
  {
    InvConfidences(s);
    assert forall j | 0 <= j < |s.events| :: Aloof(s.events[j], owner, o);
    NobodyMatches(s.events, owner, o);
  }

  /** The first email makes the row. */
  lemma FirstMakesRow(s: Store, owner: nat, id: nat, o: Observation)
    requires Inv(s) && FreshId(s, id) && Told(o) && AllAloof(s.events, owner, o)
    ensures Inv(Decide(s, owner, id, o)) && Decide(s, owner, id, o).events == s.events + [FirstRow(owner, id, o)]
  {
    AloofIsNoMatch(s, owner, o);
    Adds(s, owner, id, o);
  }

  lemma FirstRowIs(owner: nat, id: nat, o: Observation)
    ensures var e := FirstRow(owner, id, o);
            BeliefOf(e) == First(o) && !e.status.Confirmed? && e.key == OwnKey(e) &&
            (e.id, e.owner, e.company, e.stage) == (id, owner, o.company, o.stage)
  {
  }

  lemma AloofBeside(events: seq<Event>, e: Event, owner: nat, o: Observation)
    requires AllAloof(events, owner, o)
    ensures OthersAloof(events + [e], owner, |events|, o)
  {
    var more := events + [e];
    forall j | 0 <= j < |more| && j != |events| ensures Aloof(more[j], owner, o) {
      assert more[j] == events[j] && Aloof(events[j], owner, o);
    }
  }

  lemma LastReplaced(events: seq<Event>, e: Event, r: Event)
    ensures (events + [e])[|events|] == e && (events + [e])[|events| := r] == events + [r]
  {
  }

  /** The next email meets the row that was made. */
  lemma NextMeetsRow(s: Store, mid: Store, owner: nat, newId: nat, r: Event, o: Observation)
    requires Inv(mid) && mid.events == s.events + [r] && r.owner == owner
    requires Told(o) && AllAloof(s.events, owner, o) && InReach(r, o)
    ensures Inv(Decide(mid, owner, newId, o)) && Decide(mid, owner, newId, o).events == s.events + [Judge(r, o)]
  {
    AloofBeside(s.events, r, owner, o);
    LastReplaced(s.events, r, Judge(r, o));
    OneDecision(mid, owner, newId, |s.events|, o);
  }

  // ------------------------------------------------------------------------ runs

  /** The row a run of such emails makes. */
  function RowOfRun(owner: nat, id: nat, xs: seq<Observation>): Event
    requires xs != []
  {
    JudgeAll(FirstRow(owner, id, xs[0]), xs[1..])
  }

  lemma RowOfMore(owner: nat, id: nat, xs: seq<Observation>)
    requires |xs| > 1
    ensures RowOfRun(owner, id, xs) == Judge(RowOfRun(owner, id, xs[..|xs| - 1]), xs[|xs| - 1])
  {
    assert xs[1..][..|xs| - 2] == xs[..|xs| - 1][1..];
  }

  /** Wherever the row has moved, the activity's messages reach it. */
  lemma RowInReach(owner: nat, id: nat, xs: seq<Observation>, o: Observation)
    requires xs != [] && forall p | p in xs :: Together(p, o)
    ensures RowOfRun(owner, id, xs).owner == owner && InReach(RowOfRun(owner, id, xs), o)
  {
    var e := FirstRow(owner, id, xs[0]);
    FirstRowIs(owner, id, xs[0]);
    JudgedIsSameRow(e, xs[1..]);
    assert xs[0] in xs && forall p | p in xs[1..] :: p in xs;
  }

  lemma NoMail(s: Store, owner: nat, ids: nat -> nat, none: seq<Observation>)
    requires none == []
    ensures Run(s, Mails(owner, ids, none)) == s
  {
  }

  lemma {:induction false} RunMakesRow(s: Store, owner: nat, xs: seq<Observation>, ids: nat -> nat)
    requires Inv(s) && Unseen(s, owner, xs) && FreshId(s, ids(0)) && xs != []
    ensures var t := Run(s, Mails(owner, ids, xs));
            Inv(t) && t.events == s.events + [RowOfRun(owner, ids(0), xs)]
    decreases |xs|
  {
    var n := |xs| - 1;
    var last := xs[n];
    assert last in xs && Told(last) && AllAloof(s.events, owner, last);
    if n == 0 {
      NoMail(s, owner, ids, xs[..n]);
      LastMail(s, owner, ids, xs);
      FirstMakesRow(s, owner, ids(0), last);
    } else {
      var init := xs[..n];
      assert forall o | o in init :: o in xs;
      UnseenPart(s, owner, xs, init);
      RunMakesRow(s, owner, init, ids);
      LastMail(s, owner, ids, xs);
      assert forall p | p in init :: Together(p, last);
      RowInReach(owner, ids(0), init, last);
      NextMeetsRow(s, Run(s, Mails(owner, ids, init)), owner, ids(n), RowOfRun(owner, ids(0), init), last);
      RowOfMore(owner, ids(0), xs);
    }
  }

  /** What that row says: all of them heard, from nothing. */
  lemma RowIsHeard(owner: nat, id: nat, xs: seq<Observation>)
    requires xs != []
    ensures var r := RowOfRun(owner, id, xs);
            HearAll(None, xs) == Some(BeliefOf(r)) && r.key == OwnKey(r) &&
            (r.id, r.owner, r.company, r.stage) == (id, owner, xs[0].company, xs[0].stage)
  {
    var e := FirstRow(owner, id, xs[0]);
    FirstRowIs(owner, id, xs[0]);
    JudgeAllIsWeigh(e, xs[1..]);
    assert xs == [xs[0]] + xs[1..];
    HearAllJoins(None, [xs[0]], xs[1..]);
    HearAllAppend(None, [], xs[0]);
    assert [] + [xs[0]] == [xs[0]];
    HearAllIsWeighAll(First(xs[0]), xs[1..]);
  }

  // -------------------------------------------------------------- the exact conditions

  /** The same activity under the same id, with the same day, time, venue, confidence and key. */
  predicate SameActivity(a: Event, b: Event) {
    SameVerdict(a, b) && (a.id, a.owner, a.company, a.stage) == (b.id, b.owner, b.company, b.stage)
  }

  /** Whatever the order of the emails, one row is added, the same one. */
  ghost predicate OneRow(s: Store, owner: nat, xs: seq<Observation>, ids: nat -> nat) {
    forall ys: seq<Observation> | multiset(ys) == multiset(xs) ::
      var a, b, n := Run(s, Mails(owner, ids, ys)).events, Run(s, Mails(owner, ids, xs)).events, |s.events|;
      |a| == |b| == n + 1 && a == s.events + [a[n]] && SameActivity(a[n], b[n])
  }

  lemma RowsAgree(owner: nat, id: nat, xs: seq<Observation>, ys: seq<Observation>)
    requires xs != [] && ys != [] && Together(xs[0], ys[0])
    ensures SameActivity(RowOfRun(owner, id, ys), RowOfRun(owner, id, xs)) <==> HearAll(None, ys) == HearAll(None, xs)
  {
    RowIsHeard(owner, id, xs);
    RowIsHeard(owner, id, ys);
  }

  lemma Rearranged(xs: seq<Observation>, ys: seq<Observation>)
    requires multiset(ys) == multiset(xs) && xs != []
    ensures ys != [] && ys[0] in xs && forall o | o in ys :: o in xs
  {
    SameElements(xs, ys);
    assert xs[0] in ys;
  }

  /** The order of the emails shows exactly when the order of what is heard from nothing does. */
  lemma OneRowIsOneOutcome(s: Store, owner: nat, xs: seq<Observation>, ids: nat -> nat)
    requires Inv(s) && Unseen(s, owner, xs) && FreshId(s, ids(0)) && xs != []
    ensures OneRow(s, owner, xs, ids) <==> OneOutcome(None, xs)
  {
    RunMakesRow(s, owner, xs, ids);
    forall ys: seq<Observation> | multiset(ys) == multiset(xs)
      ensures ys != [] && Run(s, Mails(owner, ids, ys)).events == s.events + [RowOfRun(owner, ids(0), ys)]
      ensures SameActivity(RowOfRun(owner, ids(0), ys), RowOfRun(owner, ids(0), xs)) <==> HearAll(None, ys) == HearAll(None, xs)
    {
      Rearranged(xs, ys);
      UnseenPart(s, owner, xs, ys);
      RunMakesRow(s, owner, ys, ids);
      assert xs[0] in xs && Together(xs[0], ys[0]);
      RowsAgree(owner, ids(0), xs, ys);
    }
  }

  lemma UnseenAreTrusted(s: Store, owner: nat, xs: seq<Observation>)
    requires Unseen(s, owner, xs)
    ensures Trusted(xs)
  {
  }

  /**
   Order independence from the start, exactly. Full statements about an activity no row is about make
   one row with the same day, time, venue, confidence and key in every order, and leave every other
   row as it was, if and only if the most trusted all say one thing and no less trusted one says it.
   */
  lemma OneRowIff(s: Store, owner: nat, xs: seq<Observation>, ids: nat -> nat)
    requires Inv(s) && Unseen(s, owner, xs) && FreshId(s, ids(0)) && AllFull(xs) && xs != []
    ensures OneRow(s, owner, xs, ids) <==> exists t :: Foremost(xs, t)
  {
    UnseenAreTrusted(s, owner, xs);
    OneRowIsOneOutcome(s, owner, xs, ids);
    FromNothingIff(xs);
  }

  /** Highest trust wins: that row says what the most trusted say, at their trust. */
  lemma HighestTrustWins(s: Store, owner: nat, xs: seq<Observation>, ys: seq<Observation>, ids: nat -> nat, t: Observation)
    requires Inv(s) && Unseen(s, owner, xs) && FreshId(s, ids(0)) && AllFull(xs) && Foremost(xs, t)
    requires multiset(ys) == multiset(xs)
    ensures var rows, n := Run(s, Mails(owner, ids, ys)).events, |s.events|;
            |rows| == n + 1 && rows[..n] == s.events && BeliefOf(rows[n]) == Belief(Stated(t), t.confidence)
  {
    Rearranged(xs, ys);
    UnseenPart(s, owner, xs, ys);
    RunMakesRow(s, owner, ys, ids);
    RowIsHeard(owner, ids(0), ys);
    UnseenAreTrusted(s, owner, xs);
    ForemostIsBelieved(xs, ys, t);
  }

  /** Whatever part of the emails arrives, and in whatever order, makes one row. */
  ghost predicate PartsMakeOneRow(s: Store, owner: nat, xs: seq<Observation>, ids: nat -> nat) {
    forall ys: seq<Observation> | Part(ys, xs) && ys != [] :: OneRow(s, owner, ys, ids)
  }

  lemma NothingIsOneOutcome(m: Option<Belief>)
    ensures OneOutcome(m, [])
  {
    forall ys: seq<Observation> | multiset(ys) == multiset([]) ensures HearAll(m, ys) == HearAll(m, []) {
      NothingElse(ys, []);
    }
  }

  /**
   The same of emails of any kind: whatever part of them arrives makes one and the same row in every
   order if and only if no two are order-sensitive where others of them lead, the start included.
   */
  lemma PartsMakeOneRowIff(s: Store, owner: nat, xs: seq<Observation>, ids: nat -> nat)
    requires Inv(s) && Unseen(s, owner, xs) && FreshId(s, ids(0))
    ensures PartsMakeOneRow(s, owner, xs, ids) <==> Calm(None, xs)
  {
    NothingIsOneOutcome(None);
    forall ys: seq<Observation> | Part(ys, xs) && ys != []
      ensures OneRow(s, owner, ys, ids) <==> OneOutcome(None, ys)
    {
      PartsAreMembers(xs, ys);
      UnseenPart(s, owner, xs, ys);
      OneRowIsOneOutcome(s, owner, ys, ids);
    }
    PartsHaveOneOutcomeIff(None, xs);
  }
}
