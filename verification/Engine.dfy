/**
 The engine over its two tables, step by step as the services run: queries, gate loop,
 ranking loop, change detection, the transaction, creation, the human path. Each method is
 proved to carry out the decision Events.dfy defines, about which the other files prove
 what the design promises.
 */
module Engine {
  import opened Prelude
  import opened Calendar
  import opened Identity
  import opened Events
  import opened ChangeTexts
  import opened Recognition
  import opened Rounds
  import opened StoreInvariant

  // ------------------------------------------------------------------- queries

  /** The soft tier's query: rows of the owner and company near the observed day, whatever their round. */
  function Nearby(events: seq<Event>, owner: nat, o: Observation): seq<Event> {
    if events == [] then []
    else
      var rest, last := Nearby(events[..|events| - 1], owner, o), events[|events| - 1];
      if SoftCandidate(last, owner, o) then rest + [last] else rest
  }

  /** The rows among `rows` that pass the identity gate. */
  function Admitted(rows: seq<Event>, o: Observation): seq<Event> {
    if rows == [] then []
    else
      var rest, last := Admitted(rows[..|rows| - 1], o), rows[|rows| - 1];
      if PassesGate(ClassifyRound(last.stage, o.stage)) then rest + [last] else rest
  }

  /** The row a left-to-right ranking of `rows` ends on. */
  function Ranked(rows: seq<Event>, o: Observation): Option<Event> {
    if rows == [] then None
    else
      var best, last := Ranked(rows[..|rows| - 1], o), rows[|rows| - 1];
      if Score(last, o) > (if best.Some? then Score(best.value, o) else 0.0) then Some(last) else best
  }

  lemma AdmittedAppend(rows: seq<Event>, last: Event, o: Observation)
    ensures Admitted(rows + [last], o) ==
              if PassesGate(ClassifyRound(last.stage, o.stage)) then Admitted(rows, o) + [last] else Admitted(rows, o)
  {
    assert (rows + [last])[..|rows|] == rows;
  }

  /** The gate keeps exactly the rows nothing speaks against. */
  lemma {:induction false} AdmittedAre(rows: seq<Event>, o: Observation)
    ensures forall e :: e in Admitted(rows, o) <==> e in rows && Uncontradicted(e.stage, o.stage)
  {
    if rows != [] {
      var init, last := rows[..|rows| - 1], rows[|rows| - 1];
      AdmittedAre(init, o);
      RelationIs(last.stage, o.stage);
      assert forall e :: e in rows <==> e in init || e == last;
    }
  }

  lemma AdmittedStep(rows: seq<Event>, i: nat, o: Observation)
    requires i < |rows|
    ensures Admitted(rows[..i + 1], o) ==
              Admitted(rows[..i], o) + if PassesGate(ClassifyRound(rows[i].stage, o.stage)) then [rows[i]] else []
  {
    assert rows[..i + 1] == rows[..i] + [rows[i]];
    AdmittedAppend(rows[..i], rows[i], o);
  }

  lemma RankedAppend(rows: seq<Event>, last: Event, o: Observation)
    ensures var best := Ranked(rows, o);
            Ranked(rows + [last], o) ==
              if Score(last, o) > (if best.Some? then Score(best.value, o) else 0.0) then Some(last) else best
  {
    assert (rows + [last])[..|rows|] == rows;
  }

  /** Query, gate and ranking in separate passes come to the same row as one ranking of the table. */
  lemma {:induction false} PassesFuse(events: seq<Event>, owner: nat, o: Observation)
    ensures Ranked(Admitted(Nearby(events, owner, o), o), o) == Best(events, owner, o)
  {
    if events != [] {
      var init, last := events[..|events| - 1], events[|events| - 1];
      PassesFuse(init, owner, o);
      var near := Nearby(init, owner, o);
      AdmittedAppend(near, last, o);
      RankedAppend(Admitted(near, o), last, o);
    }
  }

  /** With ids unique, an edit rewrites the one row of that id and owner, if there is one. */
  lemma EditTouchesOne(s: Store, owner: nat, id: nat, company: Option<string>, stage: Option<string>, i: nat)
    requires UniqueIds(s.events) && i <= |s.events|
    requires if i < |s.events| then s.events[i].id == id && s.events[i].owner == owner
             else forall j | 0 <= j < |s.events| :: !(s.events[j].id == id && s.events[j].owner == owner)
    ensures var t := Edit(s, owner, id, company, stage);
            t.updates == s.updates &&
            t.events == if i < |s.events| then s.events[i := Corrected(s.events[i], company, stage)] else s.events
  {
  }

  lemma SameKeySameDay(a: Day, b: Day)
    ensures Iso(a) == Iso(b) <==> a == b
  {
    if Iso(a) == Iso(b) {
      IsoInjective(a, b);
    }
  }

  lemma NoneIsNothing(e: Event, o: Observation)
    ensures ChangesOf(e, o) == [] <==> NothingChanges(e, o)
  {
  }

  /** What became of a matched observation. */
  datatype Outcome = Kept | Updated | KeyConflict

  class EventEngine {
    var events: seq<Event>
    var updates: seq<EventUpdate>

    function State(): Store
      reads this
    {
      Store(events, updates)
    }

    constructor ()
      ensures State() == EMPTY && Inv(State())
    {
      events, updates := [], [];
    }

    static method ScoreEventMatch(event: Event, incoming: Observation) returns (score: real)
      ensures score == Score(event, incoming) == Rating(event, incoming)
    {
      ScoreIs(event, incoming);
      var diffDays := Distance(event.date, incoming.date);
      var dateScore := 0.0;
      if diffDays == 0 {
        dateScore := 1.0;
      } else if diffDays <= 1 {
        dateScore := 0.7;
      } else if diffDays <= 3 {
        dateScore := 0.5;
      } else {
        return 0.0;
      }
      var stageScore := 0.0;
      if SameLabel(event, incoming) {
        stageScore := 1.0;
      }
      var confidenceScore := Min(incoming.confidence, event.confidence);
      score := dateScore * 0.5 + stageScore * 0.3 + confidenceScore * 0.2;
    }

    /** The gate runs to completion before anything is scored. */
    static method AdmitCandidates(softMatches: seq<Event>, data: Observation) returns (eligible: seq<Event>)
      ensures eligible == Admitted(softMatches, data)
      ensures forall e :: e in eligible <==> e in softMatches && Uncontradicted(e.stage, data.stage)
    {
      AdmittedAre(softMatches, data);
      eligible := [];
      var i := 0;
      while i < |softMatches|
        invariant 0 <= i <= |softMatches|
        invariant eligible == Admitted(softMatches[..i], data)
      {
        var event := softMatches[i];
        AdmittedStep(softMatches, i, data);
        i := i + 1;
        var identity := ClassifyRound(event.stage, data.stage);
        if !PassesGate(identity) {
          continue;
        }
        eligible := eligible + [event];
      }
      assert softMatches[..i] == softMatches;
    }

    static method RankCandidates(eligible: seq<Event>, data: Observation) returns (bestMatch: Option<Event>, bestScore: real)
      ensures bestMatch == Ranked(eligible, data)
      ensures bestScore == if bestMatch.Some? then Score(bestMatch.value, data) else 0.0
    {
      bestMatch, bestScore := None, 0.0;
      var i := 0;
      while i < |eligible|
        invariant 0 <= i <= |eligible|
        invariant bestMatch == Ranked(eligible[..i], data)
        invariant bestScore == if bestMatch.Some? then Score(bestMatch.value, data) else 0.0
      {
        assert eligible[..i + 1] == eligible[..i] + [eligible[i]];
        RankedAppend(eligible[..i], eligible[i], data);
        var score := ScoreEventMatch(eligible[i], data);
        if score > bestScore {
          bestScore := score;
          bestMatch := Some(eligible[i]);
        }
        i := i + 1;
      }
      assert eligible[..i] == eligible;
    }

    method MatchEventV2(owner: nat, data: Observation) returns (m: Option<Event>)
      ensures m == Match(events, owner, data)
      ensures Confidences(events) && 0.0 <= data.confidence <= 1.0 ==> Recognised(events, owner, data, m)
    {
      if Confidences(events) && 0.0 <= data.confidence <= 1.0 {
        MatchIs(events, owner, data);
      }
      var exact := FindByKey(events, owner, KeyOf(data));
      if exact.Some? {
        return exact;
      }

      var softMatches := Nearby(events, owner, data);
      PassesFuse(events, owner, data);
      if |softMatches| > 0 {
        var eligible := AdmitCandidates(softMatches, data);
        var bestMatch, bestScore := RankCandidates(eligible, data);
        if bestMatch.Some? && bestScore >= 0.5 {
          return bestMatch;
        }
      }

      var looseMatches := LooseRows(events, owner, data);
      if |looseMatches| == 1 {
        return Some(looseMatches[0]);
      }
      return None;
    }

    static method DetectChanges(existing: Event, incoming: Observation) returns (changes: seq<Change>, isRescheduled: bool)
      ensures changes == ChangesOf(existing, incoming) && RightChanges(changes, existing, incoming)
      ensures isRescheduled <==> existing.date != incoming.date
      ensures changes == [] <==> NothingChanges(existing, incoming)
    {
      changes, isRescheduled := [], false;
      var existingDateKey, incomingDateKey := Iso(existing.date), Iso(incoming.date);
      SameKeySameDay(existing.date, incoming.date);
      if existingDateKey != incomingDateKey {
        changes := changes + [Change(DateField, existingDateKey, incomingDateKey)];
        isRescheduled := true;
      }
      assert changes == ChangeIn(existing, incoming, DateField);
      if incoming.time.Some? && existing.time != incoming.time {
        changes := changes + [Change(TimeField, TimeText(existing.time), TimeText(incoming.time))];
      }
      assert changes == ChangeIn(existing, incoming, DateField) + ChangeIn(existing, incoming, TimeField);
      if incoming.venue.isExplicit {
        if existing.venue != incoming.venue.value {
          changes := changes + [Change(VenueField, VenueText(existing.venue), VenueText(incoming.venue.value))];
        }
      } else if incoming.venue.value.Some? && existing.venue != incoming.venue.value {
        changes := changes + [Change(VenueField, VenueText(existing.venue), incoming.venue.value.value)];
      }
      ChangesAreParts(existing, incoming);
      NoneIsNothing(existing, incoming);
      ChangesAreRight(existing, incoming);
    }

    /** The fields to write: those that change, the status and key of a rescheduled event, and the confidence. */
    static method PrepareUpdate(existing: Event, incoming: Observation, isRescheduled: bool) returns (row: Event)
      requires isRescheduled <==> existing.date != incoming.date
      ensures row == Revise(existing, incoming)
    {
      row := existing.(date := incoming.date);
      if incoming.time.Some? && existing.time != incoming.time {
        row := row.(time := incoming.time);
      }
      if (incoming.venue.isExplicit || incoming.venue.value.Some?) && existing.venue != incoming.venue.value {
        row := row.(venue := incoming.venue.value);
      }
      if isRescheduled {
        row := row.(status := Rescheduled, key := EventKey(existing.company, existing.stage, Iso(incoming.date)));
      }
      row := row.(confidence := incoming.confidence);
    }

    /** One history row for each change, in order. */
    static method RecordChanges(eventId: nat, owner: nat, changes: seq<Change>) returns (written: seq<EventUpdate>)
      ensures written == HistoryRows(eventId, owner, changes)
    {
      written := [];
      var i := 0;
      while i < |changes|
        invariant 0 <= i <= |changes|
        invariant written == HistoryRows(eventId, owner, changes[..i])
      {
        written := written + [EventUpdate(eventId, owner, changes[i].field, changes[i].oldValue, changes[i].newValue)];
        i := i + 1;
      }
      assert changes[..i] == changes;
    }

    /**
     The automated write. History rows and the event row are written in one transaction: the
     fields change together at its end, or not at all when the new key is taken.
     */
    method UpdateEventService(owner: nat, existing: Event, incoming: Observation) returns (outcome: Outcome)
      modifies this
      ensures State() == Adjudicate(old(State()), owner, existing, incoming)
      ensures outcome.KeyConflict? <==>
                Accepted(existing, incoming) && KeyTaken(old(events), owner, existing.id, Revise(existing, incoming).key)
      ensures outcome.Kept? <==> !Accepted(existing, incoming)
    {
      if existing.status == Confirmed {
        return Kept;
      }
      var changes, isRescheduled := DetectChanges(existing, incoming);
      if |changes| == 0 {
        return Kept;
      }
      if incoming.confidence < existing.confidence {
        return Kept;
      }
      var row := PrepareUpdate(existing, incoming, isRescheduled);
      var written := RecordChanges(existing.id, owner, changes);
      if KeyTaken(events, owner, existing.id, row.key) {
        return KeyConflict;
      }
      updates := updates + written;
      events := ReplaceRow(events, owner, row);
      return Updated;
    }

    /** Create, or return the row that already holds the key. */
    method CreateEventService(owner: nat, newId: nat, data: Observation, status: Status, reviewReason: Option<string>)
      returns (event: Event)
      modifies this
      ensures State() == Create(old(State()), owner, newId, data, status, reviewReason)
      ensures event in events && event.owner == owner && event.key == KeyOf(data)
    {
      var eventKey := KeyOf(data);
      var existing := FindByKey(events, owner, eventKey);
      FindSound(events, owner, eventKey);
      if existing.Some? {
        return existing.value;
      }
      event := NewEvent(newId, owner, data, status, reviewReason);
      events := events + [event];
      assert events[|events| - 1] == event;
    }

    /**
     The human path: find the owner's row of that id, and rewrite it. It answers whether there is
     one. That row alone changes: it is confirmed at full confidence with nothing left to review,
     takes the company and round given, and keeps its key, day, time and venue.
     */
    method UpdateEventManuallyService(owner: nat, id: nat, company: Option<string>, stage: Option<string>)
      returns (found: bool)
      requires UniqueIds(events)
      modifies this`events
      ensures found <==> exists i | 0 <= i < |old(events)| :: old(events)[i].id == id && old(events)[i].owner == owner
      ensures |events| == |old(events)|
      ensures forall i | 0 <= i < |events| ::
                if old(events)[i].id == id && old(events)[i].owner == owner
                then ConfirmedBy(old(events)[i], events[i], company, stage) else events[i] == old(events)[i]
      ensures State() == Edit(old(State()), owner, id, company, stage)
    {
      ghost var before := State();
      var i := 0;
      while i < |events| && !(events[i].id == id && events[i].owner == owner)
        invariant 0 <= i <= |events| && State() == before
        invariant forall j | 0 <= j < i :: !(events[j].id == id && events[j].owner == owner)
      {
        i := i + 1;
      }
      if i == |events| {
        EditTouchesOne(before, owner, id, company, stage, i);
        return false;
      }
      var row := events[i];
      if company.Some? {
        row := row.(company := company.value);
      }
      if stage.Some? {
        row := row.(stage := stage.value);
      }
      row := row.(confidence := 1.0, status := Confirmed, reviewReason := None);
      EditTouchesOne(before, owner, id, company, stage, i);
      events := events[i := row];
      return true;
    }

    /** One email, from extraction to the tables. Recognition runs before the low-confidence branch, which ignores it. */
    method ProcessEmail(owner: nat, newId: nat, extraction: Extraction)
      requires Inv(State()) && FreshId(State(), newId) && WellFormed(extraction)
      modifies this
      ensures State() == Observe(old(State()), owner, newId, extraction)
      ensures Inv(State())
    {
      StepInv(State(), Email(owner, newId, extraction));
      var gate := Gate(extraction);
      if gate.None? {
        return;
      }
      var data := gate.value;
      var matchResult := MatchEventV2(owner, data);
      if data.confidence < CONFIDENCE_THRESHOLD {
        var _ := CreateEventService(owner, newId, data, Review, Some(DoubtReason(data)));
        return;
      }
      if matchResult.Some? {
        var _ := UpdateEventService(owner, matchResult.value, data);
        return;
      }
      var _ := CreateEventService(owner, newId, data, Scheduled, None);
    }
  }
}
