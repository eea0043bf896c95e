/**
 What an observation must do, beside what it must not: weak ones only ask for review, no usable
 one goes unrecorded, a row changes exactly when it should, and a new day is marked as such.
 */
module Outcomes {
  import opened Prelude
  import opened Ascii
  import opened Calendar
  import opened Identity
  import opened Events
  import opened Recognition
  import opened Spelling
  import opened StoreInvariant

  /**
   The viability gate lets an observation through exactly when its company is a value and its date is
   the spelling of a calendar day, and changes nothing about it.
   */
  lemma GateIs(x: Extraction, o: Observation)
    ensures Gate(x) == Some(o) <==>
              && (exists t :: Bare(x.company, t) && |t| >= 2) && !Says(x.company, "unknown") && !SaysNoise(x.company)
              && x.date == Some(Iso(o.date))
              && (o.company, o.stage, o.time, o.venue, o.confidence) == (x.company, x.stage, x.time, x.venue, x.confidence)
  {
    ResolvedCompanyIs(Some(x.company));
    if x.date.Some? {
      IsoRoundTrip(x.date.value, o.date);
    }
  }

  /** Every row and all history as before; at most one row more. */
  ghost predicate OnlyAdds(s: Store, t: Store) {
    && t.updates == s.updates
    && |s.events| <= |t.events| <= |s.events| + 1
    && forall i | 0 <= i < |s.events| :: t.events[i] == s.events[i]
  }

  /** Creation settles the key, by the row that had it or by one new row. */
  lemma CreateOnlyAdds(s: Store, owner: nat, newId: nat, o: Observation, status: Status, reason: Option<string>)
    ensures var t := Create(s, owner, newId, o, status, reason);
            OnlyAdds(s, t) && (exists e | e in t.events :: e.owner == owner && e.key == KeyOf(o)) &&
            (|t.events| > |s.events| ==> t.events[|s.events|] == NewEvent(newId, owner, o, status, reason))
  {
    var t := Create(s, owner, newId, o, status, reason);
    FindSound(s.events, owner, KeyOf(o));
    if t != s {
      assert t.events[|s.events|] in t.events;
    }
  }

  /**
   An observation below the confidence gate touches nothing that exists. Afterwards its key has a
   row, and if that row is new it waits for review with a reason.
   */
  lemma LowTrustOnlyAdds(s: Store, owner: nat, newId: nat, x: Extraction)
    requires Gate(x).Some? && x.confidence < 0.6
    ensures var t := Observe(s, owner, newId, x);
            OnlyAdds(s, t) &&
            (exists e | e in t.events :: e.owner == owner && e.key == KeyOf(Gate(x).value)) &&
            (|t.events| > |s.events| ==>
               t.events[|s.events|].status.Review? && t.events[|s.events|].reviewReason.Some? &&
               t.events[|s.events|].owner == owner && t.events[|s.events|].id == newId)
  {
    var o := Gate(x).value;
    CreateOnlyAdds(s, owner, newId, o, Review, Some(DoubtReason(o)));
  }

  /** A row that speaks of what was observed. */
  ghost predicate About(e: Event, owner: nat, o: Observation) {
    e.owner == owner && (e.key == KeyOf(o) || Compatible(e, owner, o) || (e.status.Confirmed? && Reason(e, owner, o)))
  }

  /** The matched row still speaks of the observation after adjudication. */
  lemma MatchedStaysAbout(s: Store, owner: nat, o: Observation, i: nat)
    requires Inv(s) && Usable(o) && i < |s.events| && Match(s.events, owner, o) == Some(s.events[i])
    ensures var t := Adjudicate(s, owner, s.events[i], o); i < |t.events| && About(t.events[i], owner, o)
  {
    InvConfidences(s);
    MatchSound(s.events, owner, o);
    MatchCompatible(s, owner, o);
    AdjudicateEffect(s, owner, s.events[i], o, i);
    var row := Adjudicate(s, owner, s.events[i], o).events[i];
    if row != s.events[i] {
      SameDayIsNear(row, o);
    }
  }

  lemma SameDayIsNear(e: Event, o: Observation)
    requires e.date == o.date
    ensures Distance(e.date, o.date) <= LOOSE_WINDOW_DAYS
  {
  }

  /** No usable observation goes unrecorded: afterwards its owner has an event that speaks of it. */
  lemma NothingGoesUnrecorded(s: Store, owner: nat, newId: nat, x: Extraction)
    requires Inv(s) && FreshId(s, newId) && WellFormed(x) && Gate(x).Some?
    ensures exists e | e in Observe(s, owner, newId, x).events :: About(e, owner, Gate(x).value)
  {
    GateUsable(x);
    var o, t := Gate(x).value, Observe(s, owner, newId, x);
    var m := Match(s.events, owner, o);
    if o.confidence < CONFIDENCE_THRESHOLD {
      LowTrustOnlyAdds(s, owner, newId, x);
    } else if m.Some? {
      MatchCompatible(s, owner, o);
      var i :| 0 <= i < |s.events| && s.events[i] == m.value;
      MatchedStaysAbout(s, owner, o, i);
      assert t.events[i] in t.events;
    } else {
      FindSound(s.events, owner, KeyOf(o));
      assert t.events[|s.events|] in t.events;
    }
  }

  /** The observation says something else about the day, the time or the venue than the row. */
  ghost predicate HasNews(e: Event, o: Observation) {
    || e.date != o.date
    || (o.time.Some? && e.time != o.time)
    || ((o.venue.isExplicit || o.venue.value.Some?) && e.venue != o.venue.value)
  }

  /** Another row of the owner is under the key the row would have on that day. */
  ghost predicate KeyHeld(events: seq<Event>, owner: nat, e: Event, day: Day) {
    exists j | 0 <= j < |events| ::
      events[j].owner == owner && events[j].id != e.id && events[j].key == e.company + "|" + e.stage + "|" + Iso(day)
  }

  /** What it takes for an observation to revise row `i`. */
  ghost predicate Revises(s: Store, owner: nat, o: Observation, i: nat)
    requires i < |s.events|
  {
    && o.confidence >= 0.6 && Recognised(s.events, owner, o, Some(s.events[i]))
    && !s.events[i].status.Confirmed?
    && HasNews(s.events[i], o)
    && o.confidence >= s.events[i].confidence
    && (s.events[i].date != o.date ==> !KeyHeld(s.events, owner, s.events[i], o.date))
  }

  lemma KeyHeldIs(events: seq<Event>, owner: nat, e: Event, day: Day)
    ensures KeyTaken(events, owner, e.id, EventKey(e.company, e.stage, Iso(day))) <==> KeyHeld(events, owner, e, day)
  {
    assert EventKey(e.company, e.stage, Iso(day)) == e.company + "|" + e.stage + "|" + Iso(day);
  }

  /** An unconfirmed row's own key is never another row's. */
  lemma OwnKeyIsFree(s: Store, owner: nat, i: nat)
    requires Inv(s) && i < |s.events| && s.events[i].owner == owner
    ensures !KeyTaken(s.events, owner, s.events[i].id, s.events[i].key)
  {
  }

  lemma RevisedDiffers(e: Event, o: Observation)
    requires e.date != o.date || TimeChanges(e, o) || VenueChanges(e, o)
    ensures Revise(e, o) != e
  {
  }

  lemma MatchedRow(s: Store, owner: nat, o: Observation, i: nat)
    requires UniqueIds(s.events) && i < |s.events| && s.events[i].owner == owner
    requires !KeyTaken(s.events, owner, s.events[i].id, s.events[i].key)
    ensures var e, e' := s.events[i], Adjudicate(s, owner, s.events[i], o).events[i];
            (e' != e <==>
               && Accepted(e, o)
               && (e.date != o.date ==> !KeyTaken(s.events, owner, e.id, EventKey(e.company, e.stage, Iso(o.date))))) &&
            (e' != e ==> e' == Revise(e, o))
  {
    if Accepted(s.events[i], o) {
      RevisedDiffers(s.events[i], o);
    }
  }

  lemma OtherRow(s: Store, owner: nat, m: Event, o: Observation, i: nat)
    requires UniqueIds(s.events) && m in s.events && i < |s.events| && s.events[i] != m
    ensures Adjudicate(s, owner, m, o).events[i] == s.events[i]
  {
    var j :| 0 <= j < |s.events| && s.events[j] == m;
  }

  /** What deciding about one row comes to. */
  ghost predicate RevisedRight(e: Event, e': Event, revises: bool) {
    && (e' != e <==> revises)
    && (e' != e ==>
          if e'.date == e.date then e'.status == e.status && e'.key == e.key
          else e'.status.Rescheduled? && e'.key == OwnKey(e'))
  }

  lemma DecidedRow(s: Store, owner: nat, newId: nat, o: Observation, i: nat)
    requires Inv(s) && Usable(o) && i < |s.events|
    ensures var t := Decide(s, owner, newId, o);
            i < |t.events| && RevisedRight(s.events[i], t.events[i], Revises(s, owner, o, i))
  {
    var m := Match(s.events, owner, o);
    InvConfidences(s);
    MatchIff(s.events, owner, o, Some(s.events[i]));
    MatchCompatible(s, owner, o);
    KeyHeldIs(s.events, owner, s.events[i], o.date);
    if o.confidence >= CONFIDENCE_THRESHOLD && m.Some? {
      if m.value == s.events[i] {
        OwnKeyIsFree(s, owner, i);
        MatchedRow(s, owner, o, i);
      } else {
        OtherRow(s, owner, m.value, o, i);
      }
    }
  }

  /**
   A row changes exactly when it is the match, open to automation, has something to learn from a
   message trusted no less than itself, and its new key is free. A new day makes it rescheduled,
   under the key of that day; otherwise status and key stay.
   */
  lemma RevisedIff(s: Store, owner: nat, newId: nat, x: Extraction, i: nat)
    requires Inv(s) && WellFormed(x) && Gate(x).Some? && i < |s.events|
    ensures var t := Observe(s, owner, newId, x);
            i < |t.events| && RevisedRight(s.events[i], t.events[i], Revises(s, owner, Gate(x).value, i))
  {
    GateUsable(x);
    DecidedRow(s, owner, newId, Gate(x).value, i);
  }

  // ------------------------------------------------------------------- additions

  /** Nothing there, or nothing in it. */
  predicate Missing(t: Option<string>) {
    t == None || t == Some("")
  }

  /** What a review is asked for: the first of company, venue and time that is missing, or the data as such. */
  ghost predicate AsksFor(reason: Option<string>, o: Observation) {
    reason == Some(if o.company == "" then "Low confidence: missing company"
                   else if Missing(o.venue.value) then "Low confidence: missing venue"
                   else if Missing(o.time) then "Low confidence: missing time"
                   else "Low confidence: missing uncertain data")
  }

  /** The row a message of its own makes. */
  ghost predicate NewRow(e: Event, owner: nat, newId: nat, o: Observation) {
    && (e.id, e.owner, e.company, e.stage, e.date, e.time) == (newId, owner, o.company, o.stage, o.date, o.time)
    && e.venue == o.venue.value && e.confidence == o.confidence && e.key == o.company + "|" + o.stage + "|" + Iso(o.date)
    && if o.confidence < 0.6 then e.status.Review? && AsksFor(e.reviewReason, o) else e.status.Scheduled? && e.reviewReason.None?
  }

  /** A row is to be added: none of the owner has the key, and the message is too weak to update or is not recognised. */
  ghost predicate Adds(events: seq<Event>, owner: nat, o: Observation) {
    && (forall i | 0 <= i < |events| :: !HasKey(events[i], owner, o))
    && (o.confidence < 0.6 || Recognised(events, owner, o, None))
  }

  lemma ReasonIs(o: Observation)
    ensures AsksFor(Some(DoubtReason(o)), o)
  {
    assert "Low confidence: missing " + "company" == "Low confidence: missing company";
    assert "Low confidence: missing " + "venue" == "Low confidence: missing venue";
    assert "Low confidence: missing " + "time" == "Low confidence: missing time";
    assert "Low confidence: missing " + "uncertain data" == "Low confidence: missing uncertain data";
  }

  lemma NewRowIs(owner: nat, newId: nat, o: Observation)
    ensures NewRow(if o.confidence < 0.6 then NewEvent(newId, owner, o, Review, Some(DoubtReason(o)))
                   else NewEvent(newId, owner, o, Scheduled, None), owner, newId, o)
  {
    ReasonIs(o);
    KeyText(o);
  }

  lemma NoKeyMeansNone(events: seq<Event>, owner: nat, o: Observation)
    ensures FindByKey(events, owner, KeyOf(o)).None? <==> forall i | 0 <= i < |events| :: !HasKey(events[i], owner, o)
  {
    var i := FindFirst(events, owner, KeyOf(o));
    KeyText(o);
  }

  lemma DecidedAddition(s: Store, owner: nat, newId: nat, o: Observation)
    requires Confidences(s.events) && 0.0 <= o.confidence <= 1.0
    ensures var t := Decide(s, owner, newId, o);
            if Adds(s.events, owner, o) then
              t.updates == s.updates && exists e :: NewRow(e, owner, newId, o) && t.events == s.events + [e]
            else |t.events| == |s.events|
  {
    MatchIff(s.events, owner, o, None);
    NoKeyMeansNone(s.events, owner, o);
    NewRowIs(owner, newId, o);
  }

  /** A viable message adds a row exactly when no row has its key and it may not or cannot update one; and then which row. */
  lemma AddedIff(s: Store, owner: nat, newId: nat, x: Extraction)
    requires Inv(s) && WellFormed(x) && Gate(x).Some?
    ensures var o, t := Gate(x).value, Observe(s, owner, newId, x);
            if Adds(s.events, owner, o) then
              t.updates == s.updates && exists e :: NewRow(e, owner, newId, o) && t.events == s.events + [e]
            else |t.events| == |s.events|
  {
    InvConfidences(s);
    GateUsable(x);
    DecidedAddition(s, owner, newId, Gate(x).value);
  }
}
