/**
 Events and how one observation is judged against them: recognition in three tiers, then
 adjudication. Everything here is a function of the two tables, the owner and the
 observation; the class in Engine.dfy carries the same decisions out step by step.
 */
module Events {
  import opened Prelude
  import opened Ascii
  import opened Calendar
  import opened Identity

  datatype Status = Scheduled | Rescheduled | Review | Confirmed

  datatype Event = Event(id: nat, owner: nat, company: string, stage: string, date: Day,
                         time: Option<string>, venue: Option<string>, key: string,
                         confidence: real, status: Status, reviewReason: Option<string>)

  datatype Field = DateField | TimeField | VenueField

  datatype EventUpdate = EventUpdate(eventId: nat, owner: nat, field: Field, oldValue: string, newValue: string)

  /** An extraction that passed the viability gate: its date names a calendar day. */
  datatype Observation = Observation(company: string, stage: string, date: Day,
                                     time: Option<string>, venue: VenueMeta, confidence: real)

  /** The Event and EventUpdate tables, rows in the order the queries return them. */
  datatype Store = Store(events: seq<Event>, updates: seq<EventUpdate>)

  // ---------------------------------------------------------------------- keys

  function KeyOf(o: Observation): string {
    EventKey(o.company, o.stage, Iso(o.date))
  }

  function OwnKey(e: Event): string {
    EventKey(e.company, e.stage, Iso(e.date))
  }

  function FindByKey(events: seq<Event>, owner: nat, key: string): Option<Event> {
    if events == [] then None
    else if events[0].owner == owner && events[0].key == key then Some(events[0])
    else FindByKey(events[1..], owner, key)
  }

  // ------------------------------------------------------------------ identity

  datatype Relation = Agrees | Unknown | Contradicts

  function ResolveRound(stage: string): Option<string> {
    var normalized := Lower(Trim(stage));
    if normalized == "" || normalized == UNKNOWN then None else Some(normalized)
  }

  /** A round left unresolved on either side is silence, not disagreement. */
  function ClassifyRound(candidate: string, incoming: string): Relation {
    var c, i := ResolveRound(candidate), ResolveRound(incoming);
    if c.None? || i.None? then Unknown else if c == i then Agrees else Contradicts
  }

  predicate PassesGate(r: Relation) {
    r != Contradicts
  }

  // ---------------------------------------------------------------- similarity

  const SOFT_WINDOW_DAYS: nat := 3
  const LOOSE_WINDOW_DAYS: nat := 30

  function Min(x: real, y: real): real {
    if x <= y then x else y
  }

  function DateScore(e: Event, o: Observation): real {
    var d := Distance(e.date, o.date);
    if d == 0 then 1.0 else if d <= 1 then 0.7 else if d <= 3 then 0.5 else 0.0
  }

  predicate SameLabel(e: Event, o: Observation) {
    Lower(e.stage) == Lower(o.stage)
  }

  function Score(e: Event, o: Observation): real {
    if Distance(e.date, o.date) > 3 then 0.0
    else DateScore(e, o) * 0.5 + (if SameLabel(e, o) then 1.0 else 0.0) * 0.3 + Min(o.confidence, e.confidence) * 0.2
  }

  // --------------------------------------------------------------- recognition

  predicate Within(e: Event, o: Observation, days: nat) {
    Distance(e.date, o.date) <= days
  }

  predicate SoftCandidate(e: Event, owner: nat, o: Observation) {
    e.owner == owner && e.company == o.company && Within(e, o, SOFT_WINDOW_DAYS)
  }

  /** A candidate the identity gate admits to the ranking. */
  predicate Eligible(e: Event, owner: nat, o: Observation) {
    SoftCandidate(e, owner, o) && PassesGate(ClassifyRound(e.stage, o.stage))
  }

  predicate LooseCandidate(e: Event, owner: nat, o: Observation) {
    e.owner == owner && e.company == o.company && e.stage == o.stage && Within(e, o, LOOSE_WINDOW_DAYS)
  }

  /** The row the ranking ends on: each eligible row must beat the best before it. */
  function Best(events: seq<Event>, owner: nat, o: Observation): Option<Event> {
    if events == [] then None
    else
      var last := events[|events| - 1];
      var best := Best(events[..|events| - 1], owner, o);
      if Eligible(last, owner, o) && Score(last, o) > (if best.Some? then Score(best.value, o) else 0.0)
      then Some(last) else best
  }

  function LooseRows(events: seq<Event>, owner: nat, o: Observation): seq<Event> {
    if events == [] then []
    else
      var rest, last := LooseRows(events[..|events| - 1], owner, o), events[|events| - 1];
      if LooseCandidate(last, owner, o) then rest + [last] else rest
  }

  /** The soft tier: the best-ranked row, if it reaches the acceptance threshold. */
  function Soft(events: seq<Event>, owner: nat, o: Observation): Option<Event> {
    var best := Best(events, owner, o);
    if best.Some? && Score(best.value, o) >= 0.5 then best else None
  }

  /** The loose tier: the sole candidate of its window. */
  function Loose(events: seq<Event>, owner: nat, o: Observation): Option<Event> {
    var rows := LooseRows(events, owner, o);
    if |rows| == 1 then Some(rows[0]) else None
  }

  function Match(events: seq<Event>, owner: nat, o: Observation): Option<Event> {
    var exact := FindByKey(events, owner, KeyOf(o));
    if exact.Some? then exact
    else
      var soft := Soft(events, owner, o);
      if soft.Some? then soft else Loose(events, owner, o)
  }

  // -------------------------------------------------------------- adjudication

  datatype Change = Change(field: Field, oldValue: string, newValue: string)

  /** How the history spells a time; an empty one reads as none. */
  function TimeText(t: Option<string>): string {
    if t.Some? && t.value != "" then t.value else "null"
  }

  function VenueText(v: Option<string>): string {
    v.GetOr("null")
  }

  /** The text the history holds for a field of an event. */
  function FieldText(e: Event, f: Field): string {
    match f
    case DateField => Iso(e.date)
    case TimeField => TimeText(e.time)
    case VenueField => VenueText(e.venue)
  }

  predicate TimeChanges(e: Event, o: Observation) {
    o.time.Some? && e.time != o.time
  }

  /** An explicit venue counts even when it is empty; an implicit one counts only when it names something. */
  predicate VenueChanges(e: Event, o: Observation) {
    (o.venue.isExplicit || o.venue.value.Some?) && e.venue != o.venue.value
  }

  predicate NothingChanges(e: Event, o: Observation) {
    e.date == o.date && !TimeChanges(e, o) && !VenueChanges(e, o)
  }

  function ChangesOf(e: Event, o: Observation): seq<Change> {
    (if e.date != o.date then [Change(DateField, Iso(e.date), Iso(o.date))] else []) +
    (if TimeChanges(e, o) then [Change(TimeField, TimeText(e.time), TimeText(o.time))] else []) +
    (if VenueChanges(e, o) then [Change(VenueField, VenueText(e.venue), VenueText(o.venue.value))] else [])
  }

  /** The row an accepted observation leaves: its own values where it stated some, its confidence. */
  function Revise(e: Event, o: Observation): Event {
    e.(date := o.date,
       time := if TimeChanges(e, o) then o.time else e.time,
       venue := if VenueChanges(e, o) then o.venue.value else e.venue,
       status := if e.date != o.date then Rescheduled else e.status,
       key := if e.date != o.date then EventKey(e.company, e.stage, Iso(o.date)) else e.key,
       confidence := o.confidence)
  }

  function HistoryRows(eventId: nat, owner: nat, changes: seq<Change>): seq<EventUpdate> {
    seq(|changes|, i requires 0 <= i < |changes| =>
      EventUpdate(eventId, owner, changes[i].field, changes[i].oldValue, changes[i].newValue))
  }

  /** The unique constraint on (owner, key): does another row of the owner hold this key? */
  predicate KeyTaken(events: seq<Event>, owner: nat, id: nat, key: string) {
    exists i | 0 <= i < |events| :: events[i].owner == owner && events[i].key == key && events[i].id != id
  }

  /** `UPDATE ... WHERE id = row.id AND userId = owner`. */
  function ReplaceRow(events: seq<Event>, owner: nat, row: Event): (r: seq<Event>)
    ensures |r| == |events|
  {
    seq(|events|, i requires 0 <= i < |events| =>
      if events[i].id == row.id && events[i].owner == owner then row else events[i])
  }

  /** Whether an observation gets as far as the transaction. */
  predicate Accepted(e: Event, o: Observation) {
    !e.status.Confirmed? && !NothingChanges(e, o) && o.confidence >= e.confidence
  }

  /** History and row are written together or, when the new key is taken, not at all. */
  function Adjudicate(s: Store, owner: nat, e: Event, o: Observation): Store {
    if !Accepted(e, o) then s
    else
      var row := Revise(e, o);
      if KeyTaken(s.events, owner, e.id, row.key) then s
      else Store(ReplaceRow(s.events, owner, row), s.updates + HistoryRows(e.id, owner, ChangesOf(e, o)))
  }

  // ------------------------------------------------------------------ creation

  function NewEvent(id: nat, owner: nat, o: Observation, status: Status, reason: Option<string>): Event {
    Event(id, owner, o.company, o.stage, o.date, o.time, o.venue.value, KeyOf(o), o.confidence, status, reason)
  }

  /** A key the owner already holds returns the row that holds it. */
  function Create(s: Store, owner: nat, newId: nat, o: Observation, status: Status, reason: Option<string>): Store {
    if FindByKey(s.events, owner, KeyOf(o)).Some? then s
    else s.(events := s.events + [NewEvent(newId, owner, o, status, reason)])
  }

  // --------------------------------------------------------------------- steps

  const CONFIDENCE_THRESHOLD := 0.6

  predicate Blank(t: Option<string>) {
    t.None? || t.value == ""
  }

  function DoubtReason(o: Observation): string {
    "Low confidence: missing " +
    (if o.company == "" then "company" else if Blank(o.venue.value) then "venue"
     else if Blank(o.time) then "time" else "uncertain data")
  }

  /** What one viable observation does to the tables. */
  function Decide(s: Store, owner: nat, newId: nat, o: Observation): Store {
    if o.confidence < CONFIDENCE_THRESHOLD then Create(s, owner, newId, o, Review, Some(DoubtReason(o)))
    else
      var m := Match(s.events, owner, o);
      if m.Some? then Adjudicate(s, owner, m.value, o) else Create(s, owner, newId, o, Scheduled, None)
  }

  /** The viability gate: a resolved company and a calendar date, or nothing. */
  function Gate(x: Extraction): Option<Observation> {
    if !ResolvedCompany(Some(x.company)) || x.date.None? then None
    else
      match ParseIso(x.date.value)
      case None => None
      case Some(day) => Some(Observation(x.company, x.stage, day, x.time, x.venue, x.confidence))
  }

  function Observe(s: Store, owner: nat, newId: nat, x: Extraction): Store {
    match Gate(x)
    case None => s
    case Some(o) => Decide(s, owner, newId, o)
  }

  /** The human path: company and stage as given, certainty, and no new key. */
  function Corrected(e: Event, company: Option<string>, stage: Option<string>): Event {
    e.(company := company.GetOr(e.company), stage := stage.GetOr(e.stage),
       confidence := 1.0, status := Confirmed, reviewReason := None)
  }

  function Edit(s: Store, owner: nat, id: nat, company: Option<string>, stage: Option<string>): Store {
    s.(events := seq(|s.events|, i requires 0 <= i < |s.events| =>
         if s.events[i].id == id && s.events[i].owner == owner then Corrected(s.events[i], company, stage)
         else s.events[i]))
  }

  /**
   One atomic step. An observation carries the id the shared sequence hands out should
   the step insert a row; ids of steps that insert nothing are gaps in the sequence.
   */
  datatype Step =
    | Email(owner: nat, newId: nat, extraction: Extraction)
    | Manual(owner: nat, id: nat, company: Option<string>, stage: Option<string>)

  function Apply(s: Store, step: Step): Store {
    match step
    case Email(owner, newId, x) => Observe(s, owner, newId, x)
    case Manual(owner, id, company, stage) => Edit(s, owner, id, company, stage)
  }

  function Run(s: Store, steps: seq<Step>): Store {
    if steps == [] then s else Apply(Run(s, steps[..|steps| - 1]), steps[|steps| - 1])
  }

  const EMPTY := Store([], [])
}
