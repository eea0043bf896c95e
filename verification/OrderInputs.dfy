/**
 Runs from the empty tables whose order shows: a confirmation that does not raise the trust, a
 silence filled or not, and a row that drifts out of the reach of a message. Each is stated for
 every company and every suitable choice of values.
 */
module OrderInputs {
  import opened Prelude
  import opened Calendar
  import opened Identity
  import opened Events
  import opened Recognition
  import opened StoreInvariant
  import opened OrderIndependence
  import opened OrderOfRuns
  import opened OrderFromNothing

  // --------------------------------------------------------------------- building

  lemma NothingYet(owner: nat, o: Observation)
    ensures Match([], owner, o).None?
  {
  }

  lemma EmptyIsFine(id: nat)
    ensures Inv(EMPTY) && FreshId(EMPTY, id)
  {
  }

  lemma FirstDecision(owner: nat, id: nat, o: Observation)
    requires Told(o)
    ensures Inv(Decide(EMPTY, owner, id, o)) && Decide(EMPTY, owner, id, o).events == [FirstRow(owner, id, o)]
  {
    NothingYet(owner, o);
    EmptyIsFine(id);
    Adds(EMPTY, owner, id, o);
  }

  /** Three emails of one owner from the empty tables. */
  function Three(owner: nat, a: Observation, b: Observation, c: Observation): Store {
    Run(EMPTY, [Email(owner, 1, Mail(a)), Email(owner, 2, Mail(b)), Email(owner, 3, Mail(c))])
  }

  lemma RunThree(x: Step, y: Step, z: Step)
    ensures Run(EMPTY, [x, y, z]) == Apply(Apply(Apply(EMPTY, x), y), z)
  {
    assert [x, y, z][..2] == [x, y] && [x, y][..1] == [x] && [x][..0] == [];
    assert Run(EMPTY, [x]) == Apply(Run(EMPTY, []), x);
    assert Run(EMPTY, [x, y]) == Apply(Run(EMPTY, [x]), y);
  }

  /** Three emails are three decisions; `one` and `two` name the stores in between. */
  lemma ThreeDecides(owner: nat, a: Observation, b: Observation, c: Observation, one: Store, two: Store)
    requires Told(a) && Told(b) && Told(c)
    requires one == Decide(EMPTY, owner, 1, a) && two == Decide(one, owner, 2, b)
    ensures Three(owner, a, b, c) == Decide(two, owner, 3, c)
  {
    RunThree(Email(owner, 1, Mail(a)), Email(owner, 2, Mail(b)), Email(owner, 3, Mail(c)));
    MailDecides(EMPTY, owner, 1, a);
    MailDecides(one, owner, 2, b);
    MailDecides(two, owner, 3, c);
  }

  /** One more message of the company, the round and a near day, when the row is alone. */
  lemma NextDecision(s: Store, owner: nat, id: nat, x: Event, o: Observation)
    requires Inv(s) && s.events == [x] && x.owner == owner && InReach(x, o) && Told(o)
    ensures Inv(Decide(s, owner, id, o)) && Decide(s, owner, id, o).events == [Judge(x, o)]
  {
    OneDecision(s, owner, id, 0, o);
  }

  /**
   Three emails of one company and round, each in reach of the row as it then stands: one row, whose
   belief is the first message's with the other two weighed in turn.
   */
  lemma ThreeVerdicts(owner: nat, a: Observation, b: Observation, c: Observation)
    requires Told(a) && Told(b) && Told(c) && InReach(FirstRow(owner, 1, a), b)
    requires InReach(Judge(FirstRow(owner, 1, a), b), c)
    ensures var rows := Three(owner, a, b, c).events;
            |rows| == 1 && BeliefOf(rows[0]) == Weigh(Weigh(BeliefOf(FirstRow(owner, 1, a)), b), c)
  {
    var x := FirstRow(owner, 1, a);
    var one := Decide(EMPTY, owner, 1, a);
    var two := Decide(one, owner, 2, b);
    FirstDecision(owner, 1, a);
    NextDecision(one, owner, 2, x, b);
    NextDecision(two, owner, 3, Judge(x, b), c);
    ThreeDecides(owner, a, b, c, one, two);
    JudgeIsWeigh(x, b);
    JudgeIsWeigh(Judge(x, b), c);
  }

  /** Three messages of one subject and day reach one row. */
  lemma SameDayVerdicts(owner: nat, a: Observation, b: Observation, c: Observation)
    requires Told(a) && Told(b) && Told(c) && a.company == b.company == c.company && a.stage == b.stage == c.stage
    requires a.date == b.date == c.date
    ensures var rows := Three(owner, a, b, c).events;
            |rows| == 1 && BeliefOf(rows[0]) == Weigh(Weigh(BeliefOf(FirstRow(owner, 1, a)), b), c)
  {
    ThreeVerdicts(owner, a, b, c);
  }

  /** A usable subject: a resolved company and a vocabulary round. */
  ghost predicate Subject(company: string, stage: string) {
    ResolvedCompany(Some(company)) && IsStage(stage)
  }

  function Says(company: string, stage: string, day: Day, time: Option<string>, venue: VenueMeta, trust: real): Observation {
    Observation(company, stage, day, time, venue, trust)
  }

  // ------------------------------------------------------------------- the inputs

  lemma ConfirmationWeighs(b: Belief, again: Observation, other: Observation)
    requires Over(b.values, again) == b.values && other.confidence >= b.trust && again.confidence > other.confidence
    requires FullyStated(again) && FullyStated(other) && Stated(other) != b.values
    ensures Weigh(Weigh(b, again), other).values == Stated(other)
    ensures Weigh(Weigh(b, other), again).values == b.values
  {
    OverFull(b.values, other);
    OverFull(Stated(other), again);
    OverFull(b.values, again);
  }

  /**
   A confirmation is not counted: told `v`, told `v` again at 0.9 and then `w` at 0.7, the engine
   believes `w`; with the last two exchanged it believes `v`.
   */
  lemma ConfirmationIsNotCounted(owner: nat, company: string, stage: string, day: Day, time: string, v: string, w: string)
    requires Subject(company, stage) && v != w
    ensures var o := Says(company, stage, day, Some(time), VenueMeta(Some(v), true), 0.6);
            var a, b := o.(confidence := 0.9), o.(venue := VenueMeta(Some(w), true), confidence := 0.7);
            var x, y := Three(owner, o, a, b).events, Three(owner, o, b, a).events;
            |x| == |y| == 1 && x[0].venue == Some(w) && y[0].venue == Some(v)
  {
    var o := Says(company, stage, day, Some(time), VenueMeta(Some(v), true), 0.6);
    var a, b := o.(confidence := 0.9), o.(venue := VenueMeta(Some(w), true), confidence := 0.7);
    SameDayVerdicts(owner, o, a, b);
    SameDayVerdicts(owner, o, b, a);
    ConfirmationWeighs(BeliefOf(FirstRow(owner, 1, o)), a, b);
  }

  lemma SilenceWeighs(b: Belief, place: Observation, time: Observation)
    requires place.date == time.date == b.values.date && b.values.time.None? && b.values.venue.None?
    requires place.time.None? && place.venue.value.Some? && time.time.Some? && time.venue == VenueMeta(None, false)
    requires b.trust <= time.confidence < place.confidence
    ensures Weigh(Weigh(b, place), time).values == Values(b.values.date, None, place.venue.value)
    ensures Weigh(Weigh(b, time), place).values == Values(b.values.date, time.time, place.venue.value)
  {
  }

  /**
   A silence is filled or not: a message naming only the time at 0.7 is heard before one naming only
   the venue at 0.9, and not after it, though they contradict nothing.
   */
  lemma SilenceIsOrderSensitive(owner: nat, company: string, stage: string, day: Day, time: string, venue: string)
    requires Subject(company, stage)
    ensures var o := Says(company, stage, day, None, VenueMeta(None, false), 0.6);
            var a := o.(venue := VenueMeta(Some(venue), true), confidence := 0.9);
            var b := o.(time := Some(time), confidence := 0.7);
            var x, y := Three(owner, o, a, b).events, Three(owner, o, b, a).events;
            |x| == |y| == 1 && x[0].venue == y[0].venue == Some(venue) && x[0].time == None && y[0].time == Some(time)
  {
    var o := Says(company, stage, day, None, VenueMeta(None, false), 0.6);
    var a := o.(venue := VenueMeta(Some(venue), true), confidence := 0.9);
    var b := o.(time := Some(time), confidence := 0.7);
    SameDayVerdicts(owner, o, a, b);
    SameDayVerdicts(owner, o, b, a);
    SilenceWeighs(BeliefOf(FirstRow(owner, 1, o)), a, b);
  }

  /** Days in a line: the middle one near both others but not within the soft window, the outer two too far apart. */
  predicate Drift(d0: Day, d1: Day, d2: Day) {
    && SOFT_WINDOW_DAYS < Distance(d0, d1) <= LOOSE_WINDOW_DAYS
    && SOFT_WINDOW_DAYS < Distance(d1, d2) <= LOOSE_WINDOW_DAYS
    && LOOSE_WINDOW_DAYS < Distance(d0, d2)
  }

  /** Such days exist. */
  lemma DriftingDays()
    ensures Drift(Date(2026, 8, 1), Date(2026, 8, 26), Date(2026, 9, 10))
  {
    assert DaysBeforeMonth(2026, 9) == DaysBeforeMonth(2026, 8) + DaysInMonth(2026, 8);
  }

  /** A row of another day has another key. */
  lemma OtherDayOtherKey(e: Event, o: Observation)
    requires RowOk(e) && !e.status.Confirmed? && Usable(o) && Distance(e.date, o.date) > 0
    ensures e.key != KeyOf(o)
  {
    OwnKeyMeaning(e, o);
  }

  /** A message too far from the only row adds one. */
  lemma AddsSecond(s: Store, owner: nat, id: nat, x: Event, c: Observation)
    requires Inv(s) && s.events == [x] && !x.status.Confirmed? && x.id != id
    requires Told(c) && Distance(x.date, c.date) > LOOSE_WINDOW_DAYS
    ensures Inv(Decide(s, owner, id, c)) && Decide(s, owner, id, c).events == [x, FirstRow(owner, id, c)]
  {
    assert s.events[0] == x && RowOk(s.events[0]);
    OtherDayOtherKey(x, c);
    InvConfidences(s);
    NobodyMatches(s.events, owner, c);
    Adds(s, owner, id, c);
  }

  /** A row the loose tier would take, but not the soft one. */
  ghost predicate Beside(x: Event, owner: nat, a: Observation) {
    !x.status.Confirmed? && LooseCandidate(x, owner, a) && Distance(x.date, a.date) > SOFT_WINDOW_DAYS
  }

  lemma TwoAreNotOne(x: Event, y: Event, owner: nat, a: Observation)
    requires LooseCandidate(x, owner, a) && LooseCandidate(y, owner, a)
    ensures forall k: int :: !SoleLoose([x, y], owner, a, k)
  {
    var events := [x, y];
    assert LooseCandidate(events[0], owner, a) && LooseCandidate(events[1], owner, a);
  }

  lemma BesideIsNoMatch(x: Event, owner: nat, a: Observation)
    requires RowOk(x) && Usable(a) && Beside(x, owner, a)
    ensures x.key != KeyOf(a) && !Eligible(x, owner, a)
  {
    OtherDayOtherKey(x, a);
  }

  /** Two such rows are one too many. */
  lemma NeitherMatches(owner: nat, x: Event, y: Event, a: Observation)
    requires RowOk(x) && RowOk(y) && Usable(a) && Beside(x, owner, a) && Beside(y, owner, a)
    ensures Match([x, y], owner, a).None?
  {
    BesideIsNoMatch(x, owner, a);
    BesideIsNoMatch(y, owner, a);
    TwoAreNotOne(x, y, owner, a);
    NobodyMatches([x, y], owner, a);
  }

  /** Two rows with ids of their own leave a third id free. */
  lemma TwoRows(s: Store, id: nat, x: Event, y: Event)
    requires Inv(s) && s.events == [x, y] && x.id != id && y.id != id
    ensures RowOk(x) && RowOk(y) && FreshId(s, id)
  {
    assert s.events[0] == x && s.events[1] == y;
  }

  /** A message with two such rows adds one. */
  lemma AddsThird(s: Store, owner: nat, id: nat, x: Event, y: Event, a: Observation)
    requires Inv(s) && s.events == [x, y] && x.id != id && y.id != id && Told(a)
    requires Beside(x, owner, a) && Beside(y, owner, a)
    ensures Decide(s, owner, id, a).events == s.events + [FirstRow(owner, id, a)]
  {
    TwoRows(s, id, x, y);
    NeitherMatches(owner, x, y, a);
    Adds(s, owner, id, a);
  }

  lemma FarIsBeside(owner: nat, o: Observation, a: Observation, c: Observation)
    requires Drift(o.date, a.date, c.date) && o.company == a.company == c.company && o.stage == a.stage == c.stage
    ensures Beside(FirstRow(owner, 1, o), owner, a) && Beside(FirstRow(owner, 2, c), owner, a)
  {
  }

  lemma FarFirst(owner: nat, o: Observation, a: Observation, c: Observation)
    requires Drift(o.date, a.date, c.date) && o.company == a.company == c.company && o.stage == a.stage == c.stage
    requires Told(o) && Told(a) && Told(c)
    ensures |Three(owner, o, c, a).events| == 3
  {
    var x, y := FirstRow(owner, 1, o), FirstRow(owner, 2, c);
    var one := Decide(EMPTY, owner, 1, o);
    var two := Decide(one, owner, 2, c);
    FirstDecision(owner, 1, o);
    AddsSecond(one, owner, 2, x, c);
    FarIsBeside(owner, o, a, c);
    AddsThird(two, owner, 3, x, y, a);
    ThreeDecides(owner, o, c, a, one, two);
  }

  /**
   A row drifts out of reach: told of the middle day first, it moves there and then meets the far
   one, and one event is left. Told of the far day first, that becomes an event of its own, and the
   middle one then has two rows in its window and becomes a third.
   */
  lemma DriftSplitsTheEvent(owner: nat, company: string, stage: string, d0: Day, d1: Day, d2: Day,
                            t: seq<string>, v: seq<string>)
    requires Subject(company, stage) && Drift(d0, d1, d2) && |t| == 3 && |v| == 3
    ensures var o := Says(company, stage, d0, Some(t[0]), VenueMeta(Some(v[0]), true), 0.6);
            var a := Says(company, stage, d1, Some(t[1]), VenueMeta(Some(v[1]), true), 0.9);
            var c := Says(company, stage, d2, Some(t[2]), VenueMeta(Some(v[2]), true), 0.95);
            |Three(owner, o, a, c).events| == 1 && |Three(owner, o, c, a).events| == 3
  {
    var o := Says(company, stage, d0, Some(t[0]), VenueMeta(Some(v[0]), true), 0.6);
    var a := Says(company, stage, d1, Some(t[1]), VenueMeta(Some(v[1]), true), 0.9);
    var c := Says(company, stage, d2, Some(t[2]), VenueMeta(Some(v[2]), true), 0.95);
    FarFirst(owner, o, a, c);
    ThreeVerdicts(owner, o, a, c);
  }
}
