/** What the three tiers of recognition return. */
module Recognition {
  import opened Prelude
  import opened Ascii
  import opened Calendar
  import opened Events
  import opened Rounds

  // --------------------------------------------------------------- exact tier

  lemma {:induction false} FindSound(events: seq<Event>, owner: nat, key: string)
    ensures var r := FindByKey(events, owner, key);
            r.Some? ==> r.value in events && r.value.owner == owner && r.value.key == key
    ensures FindByKey(events, owner, key).None? ==> forall e | e in events :: e.owner != owner || e.key != key
  {
    if events != [] {
      FindSound(events[1..], owner, key);
    }
  }

  // ---------------------------------------------------------------- soft tier

  /** A row the soft tier may take: the owner's, of the company, within three days, and of a round nothing speaks against. */
  ghost predicate MayBe(e: Event, owner: nat, o: Observation) {
    e.owner == owner && e.company == o.company && Distance(e.date, o.date) <= 3 && Uncontradicted(e.stage, o.stage)
  }

  lemma EligibleIs(e: Event, owner: nat, o: Observation)
    ensures Eligible(e, owner, o) <==> MayBe(e, owner, o)
  {
    RelationIs(e.stage, o.stage);
  }

  /** What a distance in days is worth. */
  function DayPoints(days: nat): real {
    if days == 0 then 0.5 else if days == 1 then 0.35 else if days <= 3 then 0.25 else 0.0
  }

  function Lesser(x: real, y: real): real {
    if x <= y then x else y
  }

  /** Half for the day, falling with the distance; three tenths for the label; a fifth of the lesser confidence. */
  function Rating(e: Event, o: Observation): real {
    if Distance(e.date, o.date) > 3 then 0.0
    else
      DayPoints(Distance(e.date, o.date)) + (if SameIgnoringCase(e.stage, o.stage) then 0.3 else 0.0) +
      0.2 * Lesser(e.confidence, o.confidence)
  }

  lemma ScoreIs(e: Event, o: Observation)
    ensures Score(e, o) == Rating(e, o)
  {
    LowerIs(e.stage, o.stage);
  }

  /** A row whose round agrees or is silent scores at least what its date and confidence give. */
  lemma ScoreBounds(e: Event, owner: nat, o: Observation)
    requires Eligible(e, owner, o) && 0.0 <= e.confidence <= 1.0 && 0.0 <= o.confidence <= 1.0
    ensures 0.25 <= Score(e, o) <= 1.0
  {
  }

  /** `e` is ranked first: no eligible row scores more, and none before it scores as much. */
  ghost predicate Winner(events: seq<Event>, owner: nat, o: Observation, k: nat) {
    && k < |events|
    && Eligible(events[k], owner, o)
    && (forall j | 0 <= j < |events| && Eligible(events[j], owner, o) :: Score(events[j], o) <= Score(events[k], o))
    && (forall j | 0 <= j < k && Eligible(events[j], owner, o) :: Score(events[j], o) < Score(events[k], o))
  }

  ghost predicate Positive(events: seq<Event>, owner: nat, o: Observation) {
    forall j | 0 <= j < |events| && Eligible(events[j], owner, o) :: Score(events[j], o) > 0.0
  }

  /** A row that does not beat the winner so far leaves it the winner. */
  lemma WinnerStays(events: seq<Event>, last: Event, owner: nat, o: Observation, k: nat)
    requires Winner(events, owner, o, k)
    requires Eligible(last, owner, o) ==> Score(last, o) <= Score(events[k], o)
    ensures Winner(events + [last], owner, o, k)
  {
    var all := events + [last];
    assert forall j | 0 <= j < |events| :: all[j] == events[j];
  }

  /** A row that beats the best so far is the new winner. */
  lemma WinnerMoves(events: seq<Event>, last: Event, owner: nat, o: Observation)
    requires Eligible(last, owner, o)
    requires forall j | 0 <= j < |events| && Eligible(events[j], owner, o) :: Score(events[j], o) < Score(last, o)
    ensures Winner(events + [last], owner, o, |events|)
  {
    var all := events + [last];
    assert forall j | 0 <= j < |events| :: all[j] == events[j];
  }

  /** The ranking returns the earliest eligible row of the highest score, and none only when there is none. */
  lemma {:induction false} BestIsWinner(events: seq<Event>, owner: nat, o: Observation) returns (k: nat)
    requires Positive(events, owner, o)
    ensures Best(events, owner, o).None? ==> forall j | 0 <= j < |events| :: !Eligible(events[j], owner, o)
    ensures Best(events, owner, o).Some? ==> Winner(events, owner, o, k) && events[k] == Best(events, owner, o).value
  {
    k := 0;
    if events != [] {
      var n := |events| - 1;
      var init, last := events[..n], events[n];
      assert events == init + [last];
      assert Positive(init, owner, o) by {
        assert forall j | 0 <= j < n :: init[j] == events[j];
      }
      k := BestIsWinner(init, owner, o);
      k := OneMoreRanked(init, last, owner, o, k);
    }
  }

  /** What a ranking returns is its winner, or there is no candidate. */
  ghost predicate Ranks(events: seq<Event>, owner: nat, o: Observation, k: nat) {
    var best := Best(events, owner, o);
    if best.None? then forall j | 0 <= j < |events| :: !Eligible(events[j], owner, o)
    else Winner(events, owner, o, k) && events[k] == best.value
  }

  lemma BestAppend(events: seq<Event>, last: Event, owner: nat, o: Observation)
    ensures var best := Best(events, owner, o);
            Best(events + [last], owner, o) ==
              if Eligible(last, owner, o) && Score(last, o) > (if best.Some? then Score(best.value, o) else 0.0) then Some(last)
              else best
  {
    assert (events + [last])[..|events|] == events;
  }

  lemma OneMoreRanked(events: seq<Event>, last: Event, owner: nat, o: Observation, k: nat) returns (m: nat)
    requires Ranks(events, owner, o, k) && (Eligible(last, owner, o) ==> Score(last, o) > 0.0)
    ensures Ranks(events + [last], owner, o, m)
  {
    BestAppend(events, last, owner, o);
    var best := Best(events, owner, o);
    m := k;
    if Eligible(last, owner, o) && Score(last, o) > (if best.Some? then Score(best.value, o) else 0.0) {
      WinnerMoves(events, last, owner, o);
      m := |events|;
    } else if best.Some? {
      WinnerStays(events, last, owner, o, k);
    } else {
      var all := events + [last];
      assert forall j | 0 <= j < |events| :: all[j] == events[j];
    }
  }

  /** The winner is unique, so it is what the ranking returns. */
  lemma WinnerIsBest(events: seq<Event>, owner: nat, o: Observation, k: nat)
    requires Positive(events, owner, o) && Winner(events, owner, o, k)
    ensures Best(events, owner, o) == Some(events[k])
  {
    var i := BestIsWinner(events, owner, o);
    assert Eligible(events[k], owner, o);
    assert Winner(events, owner, o, i);
    assert i == k;
  }

  /** What it takes for one candidate to reach the acceptance threshold. */
  predicate Convincing(e: Event, o: Observation) {
    || e.date == o.date
    || SameIgnoringCase(e.stage, o.stage)
    || (Distance(e.date, o.date) == 1 && o.confidence >= 0.75 && e.confidence >= 0.75)
  }

  lemma ThresholdMeaning(e: Event, owner: nat, o: Observation)
    requires Eligible(e, owner, o) && 0.0 <= e.confidence <= 1.0 && 0.0 <= o.confidence <= 1.0
    ensures Score(e, o) >= 0.5 <==> Convincing(e, o)
  {
    LowerIs(e.stage, o.stage);
    if Distance(e.date, o.date) == 0 {
      OrdinalInjective(e.date, o.date);
    }
  }

  ghost predicate Confidences(events: seq<Event>) {
    forall e | e in events :: 0.0 <= e.confidence <= 1.0
  }

  lemma AllPositive(events: seq<Event>, owner: nat, o: Observation)
    requires Confidences(events) && 0.0 <= o.confidence <= 1.0
    ensures Positive(events, owner, o)
  {
    forall j | 0 <= j < |events| && Eligible(events[j], owner, o)
      ensures Score(events[j], o) > 0.0
    {
      ScoreBounds(events[j], owner, o);
    }
  }

  /** `k` leads: no row that may be the one rates higher, and none before it as high. */
  ghost predicate Leads(events: seq<Event>, owner: nat, o: Observation, k: int) {
    && 0 <= k < |events| && MayBe(events[k], owner, o)
    && (forall j | 0 <= j < |events| && MayBe(events[j], owner, o) :: Rating(events[j], o) <= Rating(events[k], o))
    && (forall j | 0 <= j < k && MayBe(events[j], owner, o) :: Rating(events[j], o) < Rating(events[k], o))
  }

  lemma WinnerLeads(events: seq<Event>, owner: nat, o: Observation, k: nat)
    requires Winner(events, owner, o, k)
    ensures Leads(events, owner, o, k)
  {
    forall j | 0 <= j < |events|
      ensures Eligible(events[j], owner, o) <==> MayBe(events[j], owner, o)
      ensures Score(events[j], o) == Rating(events[j], o)
    {
      EligibleIs(events[j], owner, o);
      ScoreIs(events[j], o);
    }
  }

  /** A row that may be the one and convinces. */
  ghost predicate Convinces(e: Event, owner: nat, o: Observation) {
    MayBe(e, owner, o) && Convincing(e, o)
  }

  lemma ConvincesIs(e: Event, owner: nat, o: Observation)
    requires 0.0 <= e.confidence <= 1.0 && 0.0 <= o.confidence <= 1.0
    ensures Convinces(e, owner, o) <==> Eligible(e, owner, o) && Score(e, o) >= 0.5
  {
    EligibleIs(e, owner, o);
    if Eligible(e, owner, o) {
      ThresholdMeaning(e, owner, o);
    }
  }

  /**
   The soft tier fires exactly when some uncontradicted candidate has the observed day, or
   the observed round within three days, or is one day off with both sides at 0.75 or more;
   and then it returns the earliest candidate of the highest rating.
   */
  lemma SoftTierExact(events: seq<Event>, owner: nat, o: Observation)
    requires Confidences(events) && 0.0 <= o.confidence <= 1.0
    ensures Soft(events, owner, o).Some? <==> exists j | 0 <= j < |events| :: Convinces(events[j], owner, o)
    ensures Soft(events, owner, o).Some? ==>
              exists k: int :: Leads(events, owner, o, k) && events[k] == Soft(events, owner, o).value
  {
    AllPositive(events, owner, o);
    var k := BestIsWinner(events, owner, o);
    if Best(events, owner, o).Some? {
      WinnerLeads(events, owner, o, k);
      assert events[k] in events;
      ConvincesIs(events[k], owner, o);
    }
    if j :| 0 <= j < |events| && Convinces(events[j], owner, o) {
      assert events[j] in events;
      ConvincesIs(events[j], owner, o);
    }
  }

  // --------------------------------------------------------------- loose tier

  ghost predicate SoleLoose(events: seq<Event>, owner: nat, o: Observation, k: int) {
    && 0 <= k < |events|
    && LooseCandidate(events[k], owner, o)
    && (forall j | 0 <= j < |events| && LooseCandidate(events[j], owner, o) :: j == k)
  }

  lemma {:induction false} NoLooseRows(events: seq<Event>, owner: nat, o: Observation)
    ensures LooseRows(events, owner, o) == [] <==> forall j | 0 <= j < |events| :: !LooseCandidate(events[j], owner, o)
  {
    if events != [] {
      var init := events[..|events| - 1];
      assert forall j | 0 <= j < |init| :: init[j] == events[j];
      NoLooseRows(init, owner, o);
    }
  }

  /** The loose tier fires exactly when its window holds one candidate, which it returns. */
  lemma {:induction false} LooseTierExact(events: seq<Event>, owner: nat, o: Observation)
    ensures Loose(events, owner, o).Some? <==> exists k: int :: SoleLoose(events, owner, o, k)
    ensures forall k: int | SoleLoose(events, owner, o, k) :: Loose(events, owner, o) == Some(events[k])
  {
    if events != [] {
      var init, n := events[..|events| - 1], |events| - 1;
      assert forall j | 0 <= j < n :: init[j] == events[j];
      LooseTierExact(init, owner, o);
      NoLooseRows(init, owner, o);
      if LooseCandidate(events[n], owner, o) {
        if LooseRows(init, owner, o) == [] {
          assert SoleLoose(events, owner, o, n);
        } else {
          var j :| 0 <= j < n && LooseCandidate(init[j], owner, o);
          assert LooseCandidate(events[j], owner, o);
        }
      } else {
        forall k
          ensures SoleLoose(events, owner, o, k) <==> SoleLoose(init, owner, o, k)
        {
          SoleLooseInit(events, owner, o, k);
        }
      }
    }
  }

  lemma SoleLooseInit(events: seq<Event>, owner: nat, o: Observation, k: int)
    requires events != [] && !LooseCandidate(events[|events| - 1], owner, o)
    ensures SoleLoose(events, owner, o, k) <==> SoleLoose(events[..|events| - 1], owner, o, k)
  {
    var init, n := events[..|events| - 1], |events| - 1;
    assert forall j | 0 <= j < n :: init[j] == events[j];
    if SoleLoose(init, owner, o, k) {
      forall j | 0 <= j < |events| && LooseCandidate(events[j], owner, o)
        ensures j == k
      {
        assert LooseCandidate(init[j], owner, o);
      }
    }
    if SoleLoose(events, owner, o, k) {
      forall j | 0 <= j < n && LooseCandidate(init[j], owner, o)
        ensures j == k
      {
        assert LooseCandidate(events[j], owner, o);
      }
    }
  }

  // --------------------------------------------------------------- all tiers

  /** Why a row may be matched, tier by tier. */
  ghost predicate Reason(e: Event, owner: nat, o: Observation) {
    || e.key == KeyOf(o)
    || Eligible(e, owner, o)
    || LooseCandidate(e, owner, o)
  }

  lemma MatchSound(events: seq<Event>, owner: nat, o: Observation)
    requires Confidences(events) && 0.0 <= o.confidence <= 1.0
    ensures var m := Match(events, owner, o);
            m.Some? ==> m.value in events && m.value.owner == owner && Reason(m.value, owner, o)
  {
    FindSound(events, owner, KeyOf(o));
    AllPositive(events, owner, o);
    var k := BestIsWinner(events, owner, o);
    LooseTierExact(events, owner, o);
    if Loose(events, owner, o).Some? {
      var j :| SoleLoose(events, owner, o, j);
      assert Loose(events, owner, o) == Some(events[j]);
    }
  }

  // ------------------------------------------------------------- the whole matcher

  /** The owner's row under the key of the observation's company, round and day. */
  ghost predicate HasKey(e: Event, owner: nat, o: Observation) {
    e.owner == owner && e.key == o.company + "|" + o.stage + "|" + Iso(o.date)
  }

  ghost predicate FirstWithKey(events: seq<Event>, owner: nat, o: Observation, i: int) {
    0 <= i < |events| && HasKey(events[i], owner, o) && forall j | 0 <= j < i :: !HasKey(events[j], owner, o)
  }

  /** The owner's row of the same company and round within thirty days. */
  ghost predicate NearAndSame(e: Event, owner: nat, o: Observation) {
    e.owner == owner && e.company == o.company && e.stage == o.stage && Distance(e.date, o.date) <= 30
  }

  ghost predicate Alone(events: seq<Event>, owner: nat, o: Observation, k: int) {
    && 0 <= k < |events| && NearAndSame(events[k], owner, o)
    && forall j | 0 <= j < |events| && NearAndSame(events[j], owner, o) :: j == k
  }

  /**
   What recognition answers: the first row of the key; failing that, when some candidate convinces,
   the leader; failing that, the only row of the company and round within thirty days; else none.
   */
  ghost predicate Recognised(events: seq<Event>, owner: nat, o: Observation, m: Option<Event>) {
    if exists i: int :: FirstWithKey(events, owner, o, i) then
      exists i: int :: FirstWithKey(events, owner, o, i) && m == Some(events[i])
    else if exists j | 0 <= j < |events| :: Convinces(events[j], owner, o) then
      exists k: int :: Leads(events, owner, o, k) && m == Some(events[k])
    else if exists k: int :: Alone(events, owner, o, k) then
      exists k: int :: Alone(events, owner, o, k) && m == Some(events[k])
    else m == None
  }

  lemma {:induction false} FindFirst(events: seq<Event>, owner: nat, key: string) returns (i: int)
    ensures var r := FindByKey(events, owner, key);
            if r.Some? then
              0 <= i < |events| && r.value == events[i] && events[i].owner == owner && events[i].key == key &&
              forall j | 0 <= j < i :: events[j].owner != owner || events[j].key != key
            else forall j | 0 <= j < |events| :: events[j].owner != owner || events[j].key != key
  {
    i := 0;
    if events != [] && !(events[0].owner == owner && events[0].key == key) {
      var k := FindFirst(events[1..], owner, key);
      assert forall j | 1 <= j < |events| :: events[j] == events[1..][j - 1];
      i := k + 1;
    }
  }

  lemma ExactTierIs(events: seq<Event>, owner: nat, o: Observation)
    ensures var r := FindByKey(events, owner, KeyOf(o));
            if r.Some? then exists i: int :: FirstWithKey(events, owner, o, i) && r == Some(events[i])
            else !exists i: int :: FirstWithKey(events, owner, o, i)
  {
    var i := FindFirst(events, owner, KeyOf(o));
    KeyText(o);
    if FindByKey(events, owner, KeyOf(o)).Some? {
      assert FirstWithKey(events, owner, o, i);
    }
  }

  lemma KeyText(o: Observation)
    ensures KeyOf(o) == o.company + "|" + o.stage + "|" + Iso(o.date)
  {
  }

  lemma LooseTierIs(events: seq<Event>, owner: nat, o: Observation)
    ensures var r := Loose(events, owner, o);
            if r.Some? then exists k: int :: Alone(events, owner, o, k) && r == Some(events[k])
            else !exists k: int :: Alone(events, owner, o, k)
  {
    LooseTierExact(events, owner, o);
    forall k: int ensures SoleLoose(events, owner, o, k) <==> Alone(events, owner, o, k) {
      SoleIsAlone(events, owner, o, k);
    }
  }

  lemma SoleIsAlone(events: seq<Event>, owner: nat, o: Observation, k: int)
    ensures SoleLoose(events, owner, o, k) <==> Alone(events, owner, o, k)
  {
    assert forall j | 0 <= j < |events| :: LooseCandidate(events[j], owner, o) <==> NearAndSame(events[j], owner, o);
  }

  /** The matcher is those three answers in that order. */
  lemma MatchIs(events: seq<Event>, owner: nat, o: Observation)
    requires Confidences(events) && 0.0 <= o.confidence <= 1.0
    ensures Recognised(events, owner, o, Match(events, owner, o))
  {
    ExactTierIs(events, owner, o);
    SoftTierExact(events, owner, o);
    LooseTierIs(events, owner, o);
  }

  lemma LeaderIsOne(events: seq<Event>, owner: nat, o: Observation, k: int, l: int)
    requires Leads(events, owner, o, k) && Leads(events, owner, o, l)
    ensures k == l
  {
    assert MayBe(events[k], owner, o) && MayBe(events[l], owner, o);
  }

  /** There is one answer, so the matcher gives it exactly. */
  lemma MatchIff(events: seq<Event>, owner: nat, o: Observation, m: Option<Event>)
    requires Confidences(events) && 0.0 <= o.confidence <= 1.0
    ensures Match(events, owner, o) == m <==> Recognised(events, owner, o, m)
  {
    MatchIs(events, owner, o);
    if Recognised(events, owner, o, m) {
      AnswerIsOne(events, owner, o, m, Match(events, owner, o));
    }
  }

  lemma AnswerIsOne(events: seq<Event>, owner: nat, o: Observation, m: Option<Event>, n: Option<Event>)
    requires Recognised(events, owner, o, m) && Recognised(events, owner, o, n)
    ensures m == n
  {
    if exists i: int :: FirstWithKey(events, owner, o, i) {
      var i: int :| FirstWithKey(events, owner, o, i) && m == Some(events[i]);
      var j: int :| FirstWithKey(events, owner, o, j) && n == Some(events[j]);
      assert i == j;
    } else if exists j | 0 <= j < |events| :: Convinces(events[j], owner, o) {
      var i: int :| Leads(events, owner, o, i) && m == Some(events[i]);
      var j: int :| Leads(events, owner, o, j) && n == Some(events[j]);
      LeaderIsOne(events, owner, o, i, j);
    } else if exists k: int :: Alone(events, owner, o, k) {
      var i: int :| Alone(events, owner, o, i) && m == Some(events[i]);
      var j: int :| Alone(events, owner, o, j) && n == Some(events[j]);
      assert i == j;
    }
  }
}
