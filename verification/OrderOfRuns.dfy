/**
 Order independence of the whole engine. Recognition comes before adjudication, and which row an
 email finds can itself depend on the order. The condition here keeps one row the match of every
 email whatever came before it; under it a run is a sequence of verdicts on that row, and the
 exact conditions of OrderIndependence.dfy decide. OrderInputs.dfy shows what happens outside.
 */
module OrderOfRuns {
  import opened Prelude
  import opened Calendar
  import opened Identity
  import opened Events
  import opened Recognition
  import opened StoreInvariant
  import opened OrderIndependence
  import opened OrderInGeneral

  // ------------------------------------------------------------------ one match

  /** No tier can choose this row for the observation. */
  ghost predicate Aloof(e: Event, owner: nat, o: Observation) {
    !(e.owner == owner && e.key == KeyOf(o)) && !Eligible(e, owner, o) && !LooseCandidate(e, owner, o)
  }

  ghost predicate OthersAloof(events: seq<Event>, owner: nat, i: nat, o: Observation) {
    forall j | 0 <= j < |events| && j != i :: Aloof(events[j], owner, o)
  }

  /** Of the same company and round, within the loose window. */
  ghost predicate InReach(e: Event, o: Observation) {
    e.company == o.company && e.stage == o.stage && Distance(e.date, o.date) <= LOOSE_WINDOW_DAYS
  }

  /** A row in reach is the match when all others are aloof, by whichever tier. */
  lemma OnlyMatch(events: seq<Event>, owner: nat, i: nat, o: Observation)
    requires Confidences(events) && Usable(o) && i < |events| && events[i].owner == owner
    requires InReach(events[i], o) && OthersAloof(events, owner, i, o)
    ensures Match(events, owner, o) == Some(events[i])
  {
    FindSound(events, owner, KeyOf(o));
    AllPositive(events, owner, o);
    var k := BestIsWinner(events, owner, o);
    LooseTierExact(events, owner, o);
    assert SoleLoose(events, owner, o, i);
  }

  // ------------------------------------------------------------------ emails

  /** An email whose extraction says just this. */
  function Mail(o: Observation): Extraction {
    Extraction(o.company, o.stage, Some(Iso(o.date)), o.time, o.venue, o.confidence)
  }

  lemma MailIsRead(o: Observation)
    requires ResolvedCompany(Some(o.company))
    ensures Gate(Mail(o)) == Some(o)
  {
    IsoRoundTrip(Iso(o.date), o.date);
  }

  /** One owner's emails; `ids` are what the shared sequence offers them. */
  function Mails(owner: nat, ids: nat -> nat, obs: seq<Observation>): seq<Step> {
    seq(|obs|, k requires 0 <= k < |obs| => Email(owner, ids(k), Mail(obs[k])))
  }

  // ---------------------------------------------------------------- the condition

  /** An observation the row at `i` will receive, wherever that row stands in the window. */
  ghost predicate Drawn(s: Store, owner: nat, i: nat, o: Observation)
    requires i < |s.events|
  {
    && Usable(o) && o.confidence >= CONFIDENCE_THRESHOLD && ResolvedCompany(Some(o.company))
    && InReach(s.events[i], o) && OthersAloof(s.events, owner, i, o)
  }

  /**
   One company, one round, trusted enough to update, all days with the row's own within one loose
   window, and no other row any of them could be taken for.
   */
  ghost predicate Gathered(s: Store, owner: nat, i: nat, obs: seq<Observation>) {
    && i < |s.events| && s.events[i].owner == owner
    && (forall o | o in obs :: Drawn(s, owner, i, o))
    && forall o, p | o in obs && p in obs :: Distance(o.date, p.date) <= LOOSE_WINDOW_DAYS
  }

  lemma GatheredPart(s: Store, owner: nat, i: nat, obs: seq<Observation>, part: seq<Observation>)
    requires Gathered(s, owner, i, obs) && forall o | o in part :: o in obs
    ensures Gathered(s, owner, i, part)
  {
  }

  /** With the new key free, adjudication writes exactly the judged row. */
  lemma AdjudicateIsJudge(s: Store, owner: nat, i: nat, o: Observation)
    requires UniqueIds(s.events) && i < |s.events| && s.events[i].owner == owner
    requires !KeyTaken(s.events, owner, s.events[i].id, Judge(s.events[i], o).key)
    ensures Adjudicate(s, owner, s.events[i], o).events == s.events[i := Judge(s.events[i], o)]
  {
  }

  lemma JudgedKeyIsFree(s: Store, owner: nat, i: nat, o: Observation)
    requires Inv(s) && i < |s.events| && s.events[i].owner == owner
    requires InReach(s.events[i], o) && OthersAloof(s.events, owner, i, o)
    ensures !KeyTaken(s.events, owner, s.events[i].id, Judge(s.events[i], o).key)
  {
    assert Judge(s.events[i], o).key == s.events[i].key || Judge(s.events[i], o).key == KeyOf(o);
  }

  /** What an email that says `o` does is what deciding on `o` does. */
  lemma MailDecides(s: Store, owner: nat, id: nat, o: Observation)
    requires ResolvedCompany(Some(o.company))
    ensures Apply(s, Email(owner, id, Mail(o))) == Decide(s, owner, id, o)
  {
    MailIsRead(o);
  }

  /** One observation, met by the row it is drawn to. */
  lemma OneDecision(s: Store, owner: nat, newId: nat, i: nat, o: Observation)
    requires Inv(s) && i < |s.events| && s.events[i].owner == owner && Drawn(s, owner, i, o)
    ensures var t := Decide(s, owner, newId, o);
            Inv(t) && t.events == s.events[i := Judge(s.events[i], o)]
  {
    InvConfidences(s);
    OnlyMatch(s.events, owner, i, o);
    JudgedKeyIsFree(s, owner, i, o);
    AdjudicateIsJudge(s, owner, i, o);
    AdjudicateInv(s, owner, s.events[i], o);
  }

  /** The same row, judged so far: identity kept, and its day one that was spoken of. */
  ghost predicate SameRow(e: Event, r: Event, obs: seq<Observation>) {
    && (r.id, r.owner, r.company, r.stage) == (e.id, e.owner, e.company, e.stage)
    && (r.date == e.date || exists o | o in obs :: r.date == o.date)
  }

  lemma {:induction false} JudgedIsSameRow(e: Event, obs: seq<Observation>)
    ensures SameRow(e, JudgeAll(e, obs), obs)
  {
    if obs != [] {
      var init, last := obs[..|obs| - 1], obs[|obs| - 1];
      JudgedIsSameRow(e, init);
      assert forall o | o in init :: o in obs;
      assert last in obs;
    }
  }

  lemma StillAloof(events: seq<Event>, owner: nat, i: nat, r: Event, o: Observation)
    requires OthersAloof(events, owner, i, o) && i < |events|
    ensures OthersAloof(events[i := r], owner, i, o)
  {
    var after := events[i := r];
    assert forall j | 0 <= j < |events| && j != i :: after[j] == events[j];
  }

  /** What is drawn to the row is drawn to it still, after any of the others. */
  lemma StillDrawn(s: Store, mid: Store, owner: nat, i: nat, obs: seq<Observation>, r: Event, o: Observation)
    requires Gathered(s, owner, i, obs) && o in obs && SameRow(s.events[i], r, obs) && mid.events == s.events[i := r]
    ensures Drawn(mid, owner, i, o)
  {
    assert Drawn(s, owner, i, o);
    StillAloof(s.events, owner, i, r, o);
  }

  lemma UpdatedTwice<T>(s: seq<T>, i: nat, a: T, b: T)
    requires i < |s|
    ensures s[i := a][i := b] == s[i := b]
  {
  }

  /** The next of the emails is judged against the row as the earlier ones left it. */
  lemma NextVerdict(s: Store, mid: Store, owner: nat, newId: nat, i: nat, obs: seq<Observation>, r: Event, o: Observation)
    requires Gathered(s, owner, i, obs) && o in obs && SameRow(s.events[i], r, obs)
    requires Inv(mid) && mid.events == s.events[i := r]
    ensures Inv(Decide(mid, owner, newId, o)) && Decide(mid, owner, newId, o).events == s.events[i := Judge(r, o)]
  {
    StillDrawn(s, mid, owner, i, obs, r, o);
    OneDecision(mid, owner, newId, i, o);
    UpdatedTwice(s.events, i, r, Judge(r, o));
  }

  lemma SameRowOfMore(e: Event, r: Event, some: seq<Observation>, more: seq<Observation>)
    requires SameRow(e, r, some) && forall o | o in some :: o in more
    ensures SameRow(e, r, more)
  {
  }

  lemma MailsLast(owner: nat, ids: nat -> nat, obs: seq<Observation>)
    requires obs != []
    ensures var n, steps := |obs| - 1, Mails(owner, ids, obs);
            |steps| == n + 1 && steps[..n] == Mails(owner, ids, obs[..n]) && steps[n] == Email(owner, ids(n), Mail(obs[n]))
  {
  }

  lemma LastMail(s: Store, owner: nat, ids: nat -> nat, obs: seq<Observation>)
    requires obs != [] && ResolvedCompany(Some(obs[|obs| - 1].company))
    ensures var n := |obs| - 1;
            Run(s, Mails(owner, ids, obs)) == Decide(Run(s, Mails(owner, ids, obs[..n])), owner, ids(n), obs[n])
  {
    var n := |obs| - 1;
    MailsLast(owner, ids, obs);
    MailDecides(Run(s, Mails(owner, ids, obs[..n])), owner, ids(n), obs[n]);
  }

  /** A run of gathered emails is a sequence of verdicts on the one row; every other row is untouched. */
  lemma {:induction false} RunFollowsJudge(s: Store, owner: nat, i: nat, obs: seq<Observation>, ids: nat -> nat)
    requires Inv(s) && Gathered(s, owner, i, obs)
    ensures var t := Run(s, Mails(owner, ids, obs));
            Inv(t) && t.events == s.events[i := JudgeAll(s.events[i], obs)]
  {
    if obs != [] {
      var n := |obs| - 1;
      GatheredPart(s, owner, i, obs, obs[..n]);
      RunFollowsJudge(s, owner, i, obs[..n], ids);
      assert Drawn(s, owner, i, obs[n]);
      LastMail(s, owner, ids, obs);
      JudgedIsSameRow(s.events[i], obs[..n]);
      SameRowOfMore(s.events[i], JudgeAll(s.events[i], obs[..n]), obs[..n], obs);
      NextVerdict(s, Run(s, Mails(owner, ids, obs[..n])), owner, ids(n), i, obs, JudgeAll(s.events[i], obs[..n]), obs[n]);
    }
  }

  // -------------------------------------------------------------- the exact condition

  /** Day, time, venue, confidence and key. */
  predicate SameVerdict(a: Event, b: Event) {
    BeliefOf(a) == BeliefOf(b) && a.key == b.key
  }

  /** Whatever the order of the emails, row `i` ends the same. */
  ghost predicate RunOrderFree(s: Store, owner: nat, i: nat, xs: seq<Observation>, ids: nat -> nat)
    requires i < |s.events|
  {
    forall ys: seq<Observation> | multiset(ys) == multiset(xs) ::
      var a, b := Run(s, Mails(owner, ids, ys)).events, Run(s, Mails(owner, ids, xs)).events;
      i < |a| && i < |b| && a == s.events[i := a[i]] && SameVerdict(a[i], b[i])
  }

  /** For one row, the same belief is the same key. */
  lemma BeliefDecidesKey(e: Event, xs: seq<Observation>, ys: seq<Observation>)
    requires RowOk(e)
    ensures BeliefOf(JudgeAll(e, xs)) == BeliefOf(JudgeAll(e, ys)) ==> SameVerdict(JudgeAll(e, xs), JudgeAll(e, ys))
  {
    if e.status.Confirmed? {
      ConfirmedStays(e, xs);
      ConfirmedStays(e, ys);
    } else {
      JudgeAllIsWeigh(e, xs);
      JudgeAllIsWeigh(e, ys);
    }
  }

  /** The order of gathered emails shows exactly when the order of the updates they amount to does. */
  lemma RunFreeIsEventFree(s: Store, owner: nat, i: nat, xs: seq<Observation>, ids: nat -> nat)
    requires Inv(s) && Gathered(s, owner, i, xs)
    ensures RunOrderFree(s, owner, i, xs, ids) <==> EventOrderFree(s.events[i], xs)
  {
    var e := s.events[i];
    RunFollowsJudge(s, owner, i, xs, ids);
    forall ys: seq<Observation> | multiset(ys) == multiset(xs)
      ensures Run(s, Mails(owner, ids, ys)).events == s.events[i := JudgeAll(e, ys)]
      ensures BeliefOf(JudgeAll(e, ys)) == BeliefOf(JudgeAll(e, xs)) <==> SameVerdict(JudgeAll(e, ys), JudgeAll(e, xs))
    {
      SameElements(xs, ys);
      GatheredPart(s, owner, i, xs, ys);
      RunFollowsJudge(s, owner, i, ys, ids);
      BeliefDecidesKey(e, ys, xs);
    }
  }

  /**
   Order independence of runs, exactly. Full statements gathered on one row leave it with the same
   day, time, venue, confidence and key in every order, and every other row as it was, if and only
   if the row is confirmed or the statements are undisputed.
   */
  lemma RunOrderIff(s: Store, owner: nat, i: nat, xs: seq<Observation>, ids: nat -> nat)
    requires Inv(s) && Gathered(s, owner, i, xs) && AllFull(xs)
    ensures RunOrderFree(s, owner, i, xs, ids) <==> s.events[i].status.Confirmed? || Undisputed(BeliefOf(s.events[i]), xs)
  {
    RunFreeIsEventFree(s, owner, i, xs, ids);
    JudgeOrderFreeIff(s.events[i], xs);
  }

  /** Whatever part of the emails arrives, and in whatever order, row `i` ends the same. */
  ghost predicate RunPartsFree(s: Store, owner: nat, i: nat, xs: seq<Observation>, ids: nat -> nat)
    requires i < |s.events|
  {
    forall ys: seq<Observation> | Part(ys, xs) :: RunOrderFree(s, owner, i, ys, ids)
  }

  lemma PartsAreMembers(xs: seq<Observation>, ys: seq<Observation>)
    requires Part(ys, xs)
    ensures forall o | o in ys :: o in xs
  {
    forall o | o in ys ensures o in xs {
      assert o in multiset(ys);
    }
  }

  lemma EventFreeIsOneOutcome(e: Event, xs: seq<Observation>)
    ensures EventOrderFree(e, xs) <==> e.status.Confirmed? || OneOutcome(Some(BeliefOf(e)), xs)
  {
    EventFreeIsFree(e, xs);
    forall ys: seq<Observation> ensures HearAll(Some(BeliefOf(e)), ys) == Some(WeighAll(BeliefOf(e), ys)) {
      HearAllIsWeighAll(BeliefOf(e), ys);
    }
  }

  /**
   The same of emails of any kind: whatever part of those gathered on a row arrives leaves it with one
   day, time, venue, confidence and key in every order if and only if the row is confirmed or no two
   are order-sensitive at a belief that others of them lead to.
   */
  lemma RunPartsFreeIff(s: Store, owner: nat, i: nat, xs: seq<Observation>, ids: nat -> nat)
    requires Inv(s) && Gathered(s, owner, i, xs)
    ensures RunPartsFree(s, owner, i, xs, ids) <==> s.events[i].status.Confirmed? || Calm(Some(BeliefOf(s.events[i])), xs)
  {
    var e := s.events[i];
    forall ys: seq<Observation> | Part(ys, xs)
      ensures RunOrderFree(s, owner, i, ys, ids) <==> e.status.Confirmed? || OneOutcome(Some(BeliefOf(e)), ys)
    {
      PartsAreMembers(xs, ys);
      GatheredPart(s, owner, i, xs, ys);
      RunFreeIsEventFree(s, owner, i, ys, ids);
      EventFreeIsOneOutcome(e, ys);
    }
    PartsHaveOneOutcomeIff(Some(BeliefOf(e)), xs);
  }

  /** Two emails gathered on one row, whatever they leave unsaid: their order shows exactly when they are order-sensitive. */
  lemma RunSwapIff(s: Store, owner: nat, i: nat, a: Observation, b: Observation, ids: nat -> nat)
    requires Inv(s) && Gathered(s, owner, i, [a, b])
    ensures var x, y := Run(s, Mails(owner, ids, [a, b])).events, Run(s, Mails(owner, ids, [b, a])).events;
            |x| == |y| == |s.events| &&
            (SameVerdict(x[i], y[i]) <==> s.events[i].status.Confirmed? || !OrderSensitive(BeliefOf(s.events[i]), a, b))
  {
    var e := s.events[i];
    GatheredPart(s, owner, i, [a, b], [b, a]);
    RunFollowsJudge(s, owner, i, [a, b], ids);
    RunFollowsJudge(s, owner, i, [b, a], ids);
    JudgeTwo(e, a, b);
    JudgeTwo(e, b, a);
    BeliefDecidesKey(e, [a, b], [b, a]);
    SwapCommutesIff(e, a, b);
  }

  lemma JudgeTwo(e: Event, a: Observation, b: Observation)
    ensures JudgeAll(e, [a, b]) == Judge(Judge(e, a), b)
  {
    assert [a, b][..1] == [a] && [a][..0] == [];
    assert JudgeAll(e, [a]) == Judge(JudgeAll(e, []), a);
    assert JudgeAll(e, [a, b]) == Judge(JudgeAll(e, [a]), b);
  }
}
