/** Replaying an observation is harmless: the second pass leaves both tables as the first did. */
module Replay {
  import opened Prelude
  import opened Identity
  import opened Events
  import opened Recognition
  import opened StoreInvariant

  lemma {:induction false} FindAppended(events: seq<Event>, e: Event, owner: nat, key: string)
    requires e.owner == owner && e.key == key
    ensures FindByKey(events + [e], owner, key).Some?
  {
    FindSound(events + [e], owner, key);
    assert (events + [e])[|events|] == e;
  }

  lemma FindUnique(events: seq<Event>, owner: nat, key: string, i: nat)
    requires UniqueKeys(events) && i < |events| && events[i].owner == owner && events[i].key == key
    ensures FindByKey(events, owner, key) == Some(events[i])
  {
    FindSound(events, owner, key);
    var r := FindByKey(events, owner, key);
    assert events[i] in events;
    var j :| 0 <= j < |events| && events[j] == r.value;
    assert j == i;
  }

  /** Creation settles its own key: whatever is asked of the same key next, it is there. */
  lemma CreateTwice(s: Store, owner: nat, id: nat, id': nat, o: Observation, status: Status, reason: Option<string>)
    ensures var t := Create(s, owner, id, o, status, reason);
            Create(t, owner, id', o, status, reason) == t
  {
    FindAppended(s.events, NewEvent(id, owner, o, status, reason), owner, KeyOf(o));
  }

  /** A revised row has nothing more to learn from the observation that revised it. */
  lemma RevisedIsSettled(e: Event, o: Observation)
    ensures NothingChanges(Revise(e, o), o)
  {
  }

  /** A revision can only raise a row's score for the observation that caused it. */
  lemma RevisedScoresHigher(e: Event, owner: nat, o: Observation)
    requires Eligible(e, owner, o) && Accepted(e, o) && 0.0 <= e.confidence <= 1.0 && Usable(o)
    ensures Eligible(Revise(e, o), owner, o)
    ensures Score(Revise(e, o), o) >= Score(e, o)
  {
  }

  /** A winner that scores more after the replacement of its own row still wins. */
  lemma WinnerSurvives(events: seq<Event>, owner: nat, o: Observation, k: nat, row: Event)
    requires Winner(events, owner, o, k)
    requires Eligible(row, owner, o) && Score(row, o) >= Score(events[k], o)
    ensures Winner(events[k := row], owner, o, k)
  {
    var all := events[k := row];
    forall j | 0 <= j < |all| && Eligible(all[j], owner, o)
      ensures Score(all[j], o) <= Score(row, o)
      ensures j < k ==> Score(all[j], o) < Score(row, o)
    {
      if j != k {
        assert all[j] == events[j];
      }
    }
  }

  /** After a committed revision the same observation finds the revised row, by whatever tier. */
  lemma RevisedRowIsMatched(s: Store, owner: nat, o: Observation, i: nat)
    requires Inv(s) && Usable(o) && i < |s.events|
    requires Match(s.events, owner, o) == Some(s.events[i]) && Accepted(s.events[i], o)
    requires !KeyTaken(s.events, owner, s.events[i].id, Revise(s.events[i], o).key)
    ensures Match(s.events[i := Revise(s.events[i], o)], owner, o) == Some(Revise(s.events[i], o))
  {
    var e, row := s.events[i], Revise(s.events[i], o);
    var after := s.events[i := row];
    MatchCompatible(s, owner, o);
    assert RowOk(e);
    AdjudicateInv(s, owner, e, o);
    assert Adjudicate(s, owner, e, o).events == after;
    FindSound(s.events, owner, KeyOf(o));
    FindSound(after, owner, KeyOf(o));
    OwnKeyMeaning(e, o);
    if row.key == KeyOf(o) {
      FindUnique(after, owner, KeyOf(o), i);
    } else {
      assert FindByKey(after, owner, KeyOf(o)).None?;
      SoftMatchSurvives(s, owner, o, i);
    }
  }

  lemma SoftMatchSurvives(s: Store, owner: nat, o: Observation, i: nat)
    requires Inv(s) && Usable(o) && i < |s.events|
    requires Match(s.events, owner, o) == Some(s.events[i]) && Accepted(s.events[i], o)
    requires Revise(s.events[i], o).key != KeyOf(o) && s.events[i].key != KeyOf(o)
    ensures Soft(s.events[i := Revise(s.events[i], o)], owner, o) == Some(Revise(s.events[i], o))
  {
    var e, row := s.events[i], Revise(s.events[i], o);
    var after := s.events[i := row];
    FindSound(s.events, owner, KeyOf(o));
    InvConfidences(s);
    LooseTierExact(s.events, owner, o);
    assert RowOk(e);
    OwnKeyMeaning(e, o);
    assert Soft(s.events, owner, o).Some?;
    AllPositive(s.events, owner, o);
    var k := BestIsWinner(s.events, owner, o);
    assert s.events[k].id == e.id;
    assert k == i;
    RevisedScoresHigher(e, owner, o);
    WinnerSurvives(s.events, owner, o, i, row);
    AdjudicateConfidences(s, o, i);
    AllPositive(after, owner, o);
    WinnerIsBest(after, owner, o, i);
  }

  lemma AdjudicateConfidences(s: Store, o: Observation, i: nat)
    requires Inv(s) && Usable(o) && i < |s.events|
    ensures Confidences(s.events[i := Revise(s.events[i], o)])
  {
    InvConfidences(s);
    forall e | e in s.events[i := Revise(s.events[i], o)]
      ensures 0.0 <= e.confidence <= 1.0
    {
      var j :| 0 <= j < |s.events| && s.events[i := Revise(s.events[i], o)][j] == e;
      assert s.events[j] in s.events;
    }
  }

  /** A committed revision replaces one row. */
  lemma CommitReplaces(s: Store, owner: nat, i: nat, o: Observation)
    requires UniqueIds(s.events) && i < |s.events| && s.events[i].owner == owner
    ensures var t := Adjudicate(s, owner, s.events[i], o);
            t == s || (t.events == s.events[i := Revise(s.events[i], o)] && Accepted(s.events[i], o) &&
                       !KeyTaken(s.events, owner, s.events[i].id, Revise(s.events[i], o).key))
  {
    var t := Adjudicate(s, owner, s.events[i], o);
    if t != s {
      assert t.events == s.events[i := Revise(s.events[i], o)];
    }
  }

  lemma AdjudicateTwice(s: Store, owner: nat, o: Observation, e: Event)
    requires Inv(s) && Usable(o) && Match(s.events, owner, o) == Some(e)
    ensures var t := Adjudicate(s, owner, e, o);
            t == s || (Match(t.events, owner, o).Some? && !Accepted(Match(t.events, owner, o).value, o))
  {
    var t := Adjudicate(s, owner, e, o);
    if t != s {
      MatchCompatible(s, owner, o);
      var i :| 0 <= i < |s.events| && s.events[i] == e;
      CommitReplaces(s, owner, i, o);
      RevisedRowIsMatched(s, owner, o, i);
      RevisedIsSettled(e, o);
    }
  }

  lemma DecideTwice(s: Store, owner: nat, id: nat, id': nat, o: Observation)
    requires Inv(s) && Usable(o) && FreshId(s, id)
    ensures var t := Decide(s, owner, id, o); Decide(t, owner, id', o) == t
  {
    var m := Match(s.events, owner, o);
    if o.confidence < CONFIDENCE_THRESHOLD {
      CreateTwice(s, owner, id, id', o, Review, Some(DoubtReason(o)));
    } else if m.None? {
      CreatedIsMatched(s, owner, id, o);
    } else {
      AdjudicateTwice(s, owner, o, m.value);
    }
  }

  /** A created row is found again by its key and has nothing to learn. */
  lemma CreatedIsMatched(s: Store, owner: nat, id: nat, o: Observation)
    requires Inv(s) && Usable(o) && FreshId(s, id)
    requires Match(s.events, owner, o).None?
    ensures var t := Create(s, owner, id, o, Scheduled, None);
            Match(t.events, owner, o) == Some(NewEvent(id, owner, o, Scheduled, None))
    ensures NothingChanges(NewEvent(id, owner, o, Scheduled, None), o)
  {
    CreateInv(s, owner, id, o, Scheduled, None);
    var t := Create(s, owner, id, o, Scheduled, None);
    FindUnique(t.events, owner, KeyOf(o), |s.events|);
  }

  /**
   Replay idempotence: processing the same extraction again, from any state a run can
   reach, changes nothing. That covers a soft match, whose revised row must win the ranking
   again, and a reschedule that aborted on a taken key.
   */
  lemma ReplayIsHarmless(s: Store, owner: nat, id: nat, id': nat, x: Extraction)
    requires Inv(s) && WellFormed(x) && FreshId(s, id)
    ensures var t := Observe(s, owner, id, x); Observe(t, owner, id', x) == t
  {
    GateUsable(x);
    if Gate(x).Some? {
      DecideTwice(s, owner, id, id', Gate(x).value);
    }
  }
}
