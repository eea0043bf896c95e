/**
 The invariant of the two tables, and what it says of every run of observations and human
 edits: keys are unique per owner, an unconfirmed event's key spells its own company, stage
 and day, a confirmed event is out of reach of automation, confidence never falls, and no
 observation is ever merged into an event it contradicts.
 */
module StoreInvariant {
  import opened Prelude
  import opened Calendar
  import opened Identity
  import opened Events
  import opened Recognition
  import opened Rounds

  ghost predicate RowOk(e: Event) {
    && 0.0 <= e.confidence <= 1.0
    && (!e.status.Confirmed? ==> e.key == OwnKey(e) && IsStage(e.stage))
  }

  ghost predicate UniqueIds(events: seq<Event>) {
    forall i, j | 0 <= i < |events| && 0 <= j < |events| && events[i].id == events[j].id :: i == j
  }

  ghost predicate UniqueKeys(events: seq<Event>) {
    forall i, j | 0 <= i < |events| && 0 <= j < |events| &&
                  events[i].owner == events[j].owner && events[i].key == events[j].key :: i == j
  }

  ghost predicate Owned(s: Store, u: EventUpdate) {
    exists i | 0 <= i < |s.events| :: s.events[i].id == u.eventId && s.events[i].owner == u.owner
  }

  ghost predicate Inv(s: Store) {
    && (forall i | 0 <= i < |s.events| :: RowOk(s.events[i]))
    && UniqueIds(s.events)
    && UniqueKeys(s.events)
    && (forall k | 0 <= k < |s.updates| :: Owned(s, s.updates[k]))
  }

  ghost predicate FreshId(s: Store, id: nat) {
    forall i | 0 <= i < |s.events| :: s.events[i].id != id
  }

  ghost predicate StepOk(s: Store, step: Step) {
    step.Email? ==> FreshId(s, step.newId) && WellFormed(step.extraction)
  }

  /** The steps of a run: every insert gets an id the sequence has not handed out. */
  ghost predicate RunOk(s: Store, steps: seq<Step>)
    decreases |steps|
  {
    steps == [] ||
    (RunOk(s, steps[..|steps| - 1]) && StepOk(Run(s, steps[..|steps| - 1]), steps[|steps| - 1]))
  }

  /** What the gate lets through. */
  ghost predicate Usable(o: Observation) {
    IsStage(o.stage) && 0.0 <= o.confidence <= 1.0
  }

  // ------------------------------------------------------------- gate and match

  lemma GateUsable(x: Extraction)
    requires WellFormed(x)
    ensures Gate(x).Some? ==> Usable(Gate(x).value) && Gate(x).value.company == x.company
    ensures Gate(x).Some? ==> x.date.Some? && KeyOf(Gate(x).value) == EventKey(x.company, x.stage, x.date.value)
  {
    if Gate(x).Some? {
      IsoRoundTrip(x.date.value, Gate(x).value.date);
    }
  }

  lemma InvConfidences(s: Store)
    requires Inv(s)
    ensures Confidences(s.events)
  {
  }

  /** An unconfirmed event carries the key of an observation exactly when company, stage and day agree. */
  lemma OwnKeyMeaning(e: Event, o: Observation)
    requires RowOk(e) && !e.status.Confirmed? && Usable(o)
    ensures e.key == KeyOf(o) <==> e.company == o.company && e.stage == o.stage && e.date == o.date
  {
    StageHasNoBar(e.stage);
    StageHasNoBar(o.stage);
    KeyInjective(e.company, e.stage, Iso(e.date), o.company, o.stage, Iso(o.date));
    if Iso(e.date) == Iso(o.date) {
      IsoInjective(e.date, o.date);
    }
  }

  /** A merge the domain allows: the same owner and company, rounds not both stated and different, within thirty days. */
  ghost predicate Compatible(e: Event, owner: nat, o: Observation) {
    && e.owner == owner
    && e.company == o.company
    && (e.stage == o.stage || e.stage == "unknown" || o.stage == "unknown")
    && Distance(e.date, o.date) <= 30
  }

  /** Whatever tier matched, an unconfirmed match is a compatible one. */
  lemma MatchCompatible(s: Store, owner: nat, o: Observation)
    requires Inv(s) && Usable(o)
    ensures var m := Match(s.events, owner, o);
            m.Some? ==> m.value in s.events && m.value.owner == owner &&
                        (!m.value.status.Confirmed? ==> Compatible(m.value, owner, o))
  {
    InvConfidences(s);
    MatchSound(s.events, owner, o);
    var m := Match(s.events, owner, o);
    if m.Some? && !m.value.status.Confirmed? {
      var e := m.value;
      assert RowOk(e);
      if e.key == KeyOf(o) {
        OwnKeyMeaning(e, o);
      }
      StagesContradict(e.stage, o.stage);
    }
  }

  // ----------------------------------------------------------- step preservation

  lemma ReviseOk(e: Event, owner: nat, o: Observation)
    requires RowOk(e) && Usable(o) && Accepted(e, o)
    ensures RowOk(Revise(e, o))
  {
  }

  /** The transaction: it commits only with the new key free, and then replaces one row. */
  lemma AdjudicateInv(s: Store, owner: nat, e: Event, o: Observation)
    requires Inv(s) && Usable(o) && e in s.events && e.owner == owner
    ensures Inv(Adjudicate(s, owner, e, o))
  {
    var t := Adjudicate(s, owner, e, o);
    if t != s {
      var i :| 0 <= i < |s.events| && s.events[i] == e;
      var row := Revise(e, o);
      assert t.events == s.events[i := row];
      ReviseOk(e, owner, o);
      assert forall j | 0 <= j < |s.events| :: t.events[j].id == s.events[j].id && t.events[j].owner == s.events[j].owner;
      forall k | 0 <= k < |t.updates|
        ensures Owned(t, t.updates[k])
      {
        if k < |s.updates| {
          assert Owned(s, s.updates[k]);
          var j :| 0 <= j < |s.events| && s.events[j].id == s.updates[k].eventId && s.events[j].owner == s.updates[k].owner;
          assert t.events[j].id == t.updates[k].eventId;
        } else {
          assert t.events[i].id == t.updates[k].eventId;
        }
      }
    }
  }

  lemma HistoryStaysOwned(s: Store, t: Store)
    requires t.updates == s.updates && s.events <= t.events && forall k | 0 <= k < |s.updates| :: Owned(s, s.updates[k])
    ensures forall k | 0 <= k < |t.updates| :: Owned(t, t.updates[k])
  {
    forall k | 0 <= k < |t.updates| ensures Owned(t, t.updates[k]) {
      assert Owned(s, s.updates[k]);
    }
  }

  /** Room for a row: its id is new, its owner holds no row of its key, and it is in order itself. */
  lemma RoomForOne(events: seq<Event>, e: Event)
    requires UniqueIds(events) && UniqueKeys(events)
    requires forall i | 0 <= i < |events| :: events[i].id != e.id && (events[i].owner != e.owner || events[i].key != e.key)
    ensures UniqueIds(events + [e]) && UniqueKeys(events + [e])
  {
  }

  lemma NewEventOk(id: nat, owner: nat, o: Observation, status: Status, reason: Option<string>)
    requires Usable(o) && !status.Confirmed?
    ensures RowOk(NewEvent(id, owner, o, status, reason))
  {
  }

  lemma CreateInv(s: Store, owner: nat, newId: nat, o: Observation, status: Status, reason: Option<string>)
    requires Inv(s) && Usable(o) && FreshId(s, newId) && !status.Confirmed?
    ensures Inv(Create(s, owner, newId, o, status, reason))
  {
    FindSound(s.events, owner, KeyOf(o));
    var t := Create(s, owner, newId, o, status, reason);
    if t != s {
      assert forall i | 0 <= i < |s.events| :: s.events[i] in s.events;
      RoomForOne(s.events, NewEvent(newId, owner, o, status, reason));
      NewEventOk(newId, owner, o, status, reason);
      HistoryStaysOwned(s, t);
    }
  }

  /** What a human's edit makes of a row. */
  predicate ConfirmedBy(e: Event, e': Event, company: Option<string>, stage: Option<string>) {
    && e'.status.Confirmed? && e'.confidence == 1.0 && e'.reviewReason.None?
    && e'.company == (if company.Some? then company.value else e.company)
    && e'.stage == (if stage.Some? then stage.value else e.stage)
    && (e'.id, e'.owner, e'.key, e'.date, e'.time, e'.venue) == (e.id, e.owner, e.key, e.date, e.time, e.venue)
  }

  /** An edit confirms the owner's rows of that id, if there are any, and touches nothing else. */
  lemma EditIs(s: Store, owner: nat, id: nat, company: Option<string>, stage: Option<string>)
    ensures var t := Apply(s, Manual(owner, id, company, stage));
            |t.events| == |s.events| && t.updates == s.updates &&
            forall i | 0 <= i < |s.events| ::
              if s.events[i].id == id && s.events[i].owner == owner
              then ConfirmedBy(s.events[i], t.events[i], company, stage) else t.events[i] == s.events[i]
  {
  }

  lemma EditInv(s: Store, owner: nat, id: nat, company: Option<string>, stage: Option<string>)
    requires Inv(s)
    ensures Inv(Edit(s, owner, id, company, stage))
  {
    var t := Edit(s, owner, id, company, stage);
    assert forall i | 0 <= i < |s.events| ::
        t.events[i].id == s.events[i].id && t.events[i].owner == s.events[i].owner && t.events[i].key == s.events[i].key;
    forall k | 0 <= k < |t.updates|
      ensures Owned(t, t.updates[k])
    {
      assert Owned(s, s.updates[k]);
      var j :| 0 <= j < |s.events| && s.events[j].id == s.updates[k].eventId && s.events[j].owner == s.updates[k].owner;
      assert t.events[j].id == t.updates[k].eventId;
    }
  }

  lemma DecideInv(s: Store, owner: nat, newId: nat, o: Observation)
    requires Inv(s) && Usable(o) && FreshId(s, newId)
    ensures Inv(Decide(s, owner, newId, o))
  {
    var m := Match(s.events, owner, o);
    MatchCompatible(s, owner, o);
    if o.confidence < CONFIDENCE_THRESHOLD {
      CreateInv(s, owner, newId, o, Review, Some(DoubtReason(o)));
    } else if m.Some? {
      AdjudicateInv(s, owner, m.value, o);
    } else {
      CreateInv(s, owner, newId, o, Scheduled, None);
    }
  }

  lemma StepInv(s: Store, step: Step)
    requires Inv(s) && StepOk(s, step)
    ensures Inv(Apply(s, step))
  {
    match step
    case Email(owner, newId, x) =>
      GateUsable(x);
      if Gate(x).Some? {
        DecideInv(s, owner, newId, Gate(x).value);
      }
    case Manual(owner, id, company, stage) =>
      EditInv(s, owner, id, company, stage);
  }

  /** Every state of every run satisfies the invariant. */
  lemma {:induction false} RunInv(s: Store, steps: seq<Step>)
    requires Inv(s) && RunOk(s, steps)
    ensures Inv(Run(s, steps))
  {
    if steps != [] {
      RunInv(s, steps[..|steps| - 1]);
      StepInv(Run(s, steps[..|steps| - 1]), steps[|steps| - 1]);
    }
  }

  // ---------------------------------------------------------- what one step does

  /** What an automated step may do to a row that exists: nothing, or an improvement of a compatible unconfirmed one. */
  ghost predicate Improved(e: Event, e': Event, owner: nat, o: Observation) {
    && !e.status.Confirmed? && !e'.status.Confirmed?
    && Compatible(e, owner, o)
    && (e'.id, e'.owner, e'.company, e'.stage, e'.reviewReason) == (e.id, e.owner, e.company, e.stage, e.reviewReason)
    && e.confidence <= e'.confidence == o.confidence
    && e'.date == o.date
    && (o.time.Some? ==> e'.time == o.time) && (o.time.None? ==> e'.time == e.time)
    && (o.venue.isExplicit || o.venue.value.Some? ==> e'.venue == o.venue.value)
    && (!o.venue.isExplicit && o.venue.value.None? ==> e'.venue == e.venue)
  }

  lemma AdjudicateEffect(s: Store, owner: nat, e: Event, o: Observation, i: nat)
    requires Inv(s) && Usable(o) && e in s.events && e.owner == owner
    requires !e.status.Confirmed? ==> Compatible(e, owner, o)
    requires i < |s.events|
    ensures var t := Adjudicate(s, owner, e, o);
            |t.events| == |s.events| &&
            (t.events[i] == s.events[i] || Improved(s.events[i], t.events[i], owner, o))
  {
    var t := Adjudicate(s, owner, e, o);
    if t != s && t.events[i] != s.events[i] {
      var j :| 0 <= j < |s.events| && s.events[j] == e;
      assert j == i;
    }
  }

  /**
   No false merge. An observation leaves every existing row as it was, or improves it: and
   then the row is unconfirmed, of the same owner and company, of a round the observation
   does not contradict, on a day within thirty of the observed one.
   */
  lemma NoFalseMerge(s: Store, owner: nat, newId: nat, x: Extraction, i: nat)
    requires Inv(s) && FreshId(s, newId) && WellFormed(x)
    requires i < |s.events|
    ensures var t := Observe(s, owner, newId, x);
            i < |t.events| &&
            (t.events[i] == s.events[i] || (Gate(x).Some? && Improved(s.events[i], t.events[i], owner, Gate(x).value)))
  {
    GateUsable(x);
    if Gate(x).Some? {
      var o := Gate(x).value;
      MatchCompatible(s, owner, o);
      var m := Match(s.events, owner, o);
      if o.confidence >= CONFIDENCE_THRESHOLD && m.Some? {
        AdjudicateEffect(s, owner, m.value, o, i);
      }
    }
  }

  /** A row keeps its identity and its place, its confidence never falls, and once confirmed it stays confirmed. */
  ghost predicate Grows(s: Store, t: Store) {
    && |s.events| <= |t.events|
    && (forall i | 0 <= i < |s.events| ::
          && t.events[i].id == s.events[i].id && t.events[i].owner == s.events[i].owner
          && s.events[i].confidence <= t.events[i].confidence
          && (s.events[i].status.Confirmed? ==> t.events[i].status.Confirmed?))
  }

  /** Automation never touches a confirmed row; only its owner's edit of that very row does. */
  lemma ConfirmedIsFrozen(s: Store, step: Step, i: nat)
    requires Inv(s) && StepOk(s, step) && i < |s.events| && s.events[i].status.Confirmed?
    ensures i < |Apply(s, step).events|
    ensures Apply(s, step).events[i] != s.events[i] ==>
              step.Manual? && step.owner == s.events[i].owner && step.id == s.events[i].id
  {
    if step.Email? {
      NoFalseMerge(s, step.owner, step.newId, step.extraction, i);
    }
  }

  lemma StepGrows(s: Store, step: Step)
    requires Inv(s) && StepOk(s, step)
    ensures Grows(s, Apply(s, step))
  {
    var t := Apply(s, step);
    match step
    case Email(owner, newId, x) =>
      forall i | 0 <= i < |s.events|
        ensures i < |t.events| && t.events[i].id == s.events[i].id && t.events[i].owner == s.events[i].owner
        ensures s.events[i].confidence <= t.events[i].confidence
        ensures s.events[i].status.Confirmed? ==> t.events[i].status.Confirmed?
      {
        NoFalseMerge(s, owner, newId, x, i);
      }
      if |s.events| > 0 {
        NoFalseMerge(s, owner, newId, x, |s.events| - 1);
      }
    case Manual(owner, id, company, stage) =>
      forall i | 0 <= i < |s.events|
        ensures s.events[i].confidence <= t.events[i].confidence
      {
        assert RowOk(s.events[i]);
      }
  }

  /** Over any run: no row is lost, moved to another owner, or left with less confidence. */
  lemma {:induction false} RunGrows(s: Store, steps: seq<Step>)
    requires Inv(s) && RunOk(s, steps)
    ensures Grows(s, Run(s, steps))
  {
    if steps != [] {
      var init := steps[..|steps| - 1];
      RunGrows(s, init);
      RunInv(s, init);
      StepGrows(Run(s, init), steps[|steps| - 1]);
    }
  }
}
