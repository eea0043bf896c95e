/** What the texts of the change history stand for, field by field. */
module ChangeTexts {
  import opened Prelude
  import opened Calendar
  import opened Events

  /** A text for an optional value: the value if there is something in it, else "null". */
  predicate StandsFor(text: string, value: Option<string>) {
    text == if value.Some? && value.value != "" then value.value else "null"
  }

  /** A text for a venue: the venue, or "null" for none. */
  predicate NamesVenue(text: string, venue: Option<string>) {
    text == if venue.Some? then venue.value else "null"
  }

  /** The text stands for the field of the event: a date is read back, a time and a venue are given as they are. */
  predicate Encodes(e: Event, f: Field, text: string) {
    match f
    case DateField => ParseIso(text) == Some(e.date)
    case TimeField => StandsFor(text, e.time)
    case VenueField => NamesVenue(text, e.venue)
  }

  predicate SameField(e: Event, e': Event, f: Field) {
    match f
    case DateField => e.date == e'.date
    case TimeField => e.time == e'.time
    case VenueField => e.venue == e'.venue
  }

  lemma FieldTextEncodes(e: Event, f: Field)
    ensures Encodes(e, f, FieldText(e, f))
  {
    IsoRoundTrip(Iso(e.date), e.date);
  }

  // --------------------------------------------------------------------- changes

  /** The change's two texts stand for what the row says and what the message says. */
  predicate Tells(c: Change, e: Event, o: Observation) {
    match c.field
    case DateField => e.date != o.date && ParseIso(c.oldValue) == Some(e.date) && ParseIso(c.newValue) == Some(o.date)
    case TimeField => o.time.Some? && e.time != o.time && StandsFor(c.oldValue, e.time) && StandsFor(c.newValue, o.time)
    case VenueField =>
      (o.venue.isExplicit || o.venue.value.Some?) && e.venue != o.venue.value &&
      NamesVenue(c.oldValue, e.venue) && NamesVenue(c.newValue, o.venue.value)
  }

  ghost predicate Mentions(changes: seq<Change>, f: Field) {
    exists c | c in changes :: c.field == f
  }

  function Place(f: Field): nat {
    match f
    case DateField => 0
    case TimeField => 1
    case VenueField => 2
  }

  /** Row and message differ in the field, and the message states something there. */
  predicate Differs(e: Event, o: Observation, f: Field) {
    match f
    case DateField => e.date != o.date
    case TimeField => o.time.Some? && e.time != o.time
    case VenueField => (o.venue.isExplicit || o.venue.value.Some?) && e.venue != o.venue.value
  }

  /** One change of the field, telling both values, where they differ; else none. */
  predicate Told(part: seq<Change>, e: Event, o: Observation, f: Field) {
    if Differs(e, o, f) then |part| == 1 && part[0].field == f && Tells(part[0], e, o) else part == []
  }

  /** A list of changes is right: what is to be told of day, time and venue, in this order and nothing else. */
  ghost predicate RightChanges(changes: seq<Change>, e: Event, o: Observation) {
    exists d: seq<Change>, t: seq<Change>, v: seq<Change> ::
      Told(d, e, o, DateField) && Told(t, e, o, TimeField) && Told(v, e, o, VenueField) && changes == d + t + v
  }

  /** The change an observation makes to one field, if it makes one. */
  function ChangeIn(e: Event, o: Observation, f: Field): seq<Change> {
    match f
    case DateField => if e.date != o.date then [Change(f, Iso(e.date), Iso(o.date))] else []
    case TimeField => if TimeChanges(e, o) then [Change(f, TimeText(e.time), TimeText(o.time))] else []
    case VenueField => if VenueChanges(e, o) then [Change(f, VenueText(e.venue), VenueText(o.venue.value))] else []
  }

  lemma PartIsTold(e: Event, o: Observation, f: Field)
    ensures var part := ChangeIn(e, o, f);
            |part| <= 1 && (part != [] <==> Differs(e, o, f)) &&
            (part != [] ==> part[0].field == f && Tells(part[0], e, o))
  {
    IsoRoundTrip(Iso(e.date), e.date);
    IsoRoundTrip(Iso(o.date), o.date);
  }

  lemma InParts(d: seq<Change>, t: seq<Change>, v: seq<Change>)
    ensures forall c :: c in d + t + v <==> c in d || c in t || c in v
  {
  }

  lemma PartAt(d: seq<Change>, t: seq<Change>, v: seq<Change>, i: nat)
    requires |d| <= 1 && |t| <= 1 && |v| <= 1 && i < |d + t + v|
    ensures var c := (d + t + v)[i];
            if i < |d| then c == d[0] else if i < |d| + |t| then c == t[0] else c == v[0]
  {
  }

  ghost predicate OfField(part: seq<Change>, f: Field) {
    |part| <= 1 && (part != [] ==> part[0].field == f)
  }

  lemma InOrder(d: seq<Change>, t: seq<Change>, v: seq<Change>, i: nat, j: nat)
    requires OfField(d, DateField) && OfField(t, TimeField) && OfField(v, VenueField)
    requires i < j < |d + t + v|
    ensures Place((d + t + v)[i].field) < Place((d + t + v)[j].field)
  {
    PartAt(d, t, v, i);
    PartAt(d, t, v, j);
  }

  lemma InSmall(part: seq<Change>, c: Change)
    requires |part| <= 1
    ensures c in part <==> part != [] && c == part[0]
  {
  }

  lemma TellsItsField(e: Event, o: Observation, c: Change)
    requires c in ChangesOf(e, o)
    ensures Tells(c, e, o) && c in ChangeIn(e, o, c.field)
  {
    InParts(ChangeIn(e, o, DateField), ChangeIn(e, o, TimeField), ChangeIn(e, o, VenueField));
    ChangesAreParts(e, o);
    PartIsTold(e, o, DateField);
    PartIsTold(e, o, TimeField);
    PartIsTold(e, o, VenueField);
    InSmall(ChangeIn(e, o, DateField), c);
    InSmall(ChangeIn(e, o, TimeField), c);
    InSmall(ChangeIn(e, o, VenueField), c);
  }

  lemma ChangesAreParts(e: Event, o: Observation)
    ensures ChangesOf(e, o) == ChangeIn(e, o, DateField) + ChangeIn(e, o, TimeField) + ChangeIn(e, o, VenueField)
  {
  }

  lemma MentionedIff(e: Event, o: Observation, f: Field)
    ensures Mentions(ChangesOf(e, o), f) <==> Differs(e, o, f)
  {
    PartIsTold(e, o, f);
    ChangesAreParts(e, o);
    InParts(ChangeIn(e, o, DateField), ChangeIn(e, o, TimeField), ChangeIn(e, o, VenueField));
    if Differs(e, o, f) {
      var c := ChangeIn(e, o, f)[0];
      assert c in ChangeIn(e, o, f);
      assert c in ChangesOf(e, o) && c.field == f;
    }
    if Mentions(ChangesOf(e, o), f) {
      var c :| c in ChangesOf(e, o) && c.field == f;
      TellsItsField(e, o, c);
    }
  }

  lemma ChangesInOrder(e: Event, o: Observation, i: nat, j: nat)
    requires i < j < |ChangesOf(e, o)|
    ensures Place(ChangesOf(e, o)[i].field) < Place(ChangesOf(e, o)[j].field)
  {
    PartIsTold(e, o, DateField);
    PartIsTold(e, o, TimeField);
    PartIsTold(e, o, VenueField);
    ChangesAreParts(e, o);
    InOrder(ChangeIn(e, o, DateField), ChangeIn(e, o, TimeField), ChangeIn(e, o, VenueField), i, j);
  }

  lemma ChangesAreRight(e: Event, o: Observation)
    ensures RightChanges(ChangesOf(e, o), e, o)
  {
    PartIsTold(e, o, DateField);
    PartIsTold(e, o, TimeField);
    PartIsTold(e, o, VenueField);
    ChangesAreParts(e, o);
    assert Told(ChangeIn(e, o, DateField), e, o, DateField) && Told(ChangeIn(e, o, TimeField), e, o, TimeField) &&
           Told(ChangeIn(e, o, VenueField), e, o, VenueField);
  }

  // ---------------------------------------------------------------- history rows

  /** The rows one revision adds: one for each field it changed and no other, of that event and owner, telling both values. */
  ghost predicate RightRecord(added: seq<EventUpdate>, e: Event, e': Event, owner: nat) {
    && (forall u | u in added ::
          u.eventId == e.id && u.owner == owner && !SameField(e, e', u.field) &&
          Encodes(e, u.field, u.oldValue) && Encodes(e', u.field, u.newValue))
    && (forall i, j | 0 <= i < j < |added| :: added[i].field != added[j].field)
    && (forall f: Field | !SameField(e, e', f) :: exists u | u in added :: u.field == f)
  }

  lemma ToldIsEncoded(c: Change, e: Event, o: Observation)
    requires Tells(c, e, o)
    ensures !SameField(e, Revise(e, o), c.field)
    ensures Encodes(e, c.field, c.oldValue) && Encodes(Revise(e, o), c.field, c.newValue)
  {
  }

  lemma ChangedDiffers(e: Event, o: Observation, f: Field)
    requires !SameField(e, Revise(e, o), f)
    ensures Differs(e, o, f)
  {
  }

  lemma RowTells(e: Event, o: Observation, owner: nat, u: EventUpdate)
    requires u in HistoryRows(e.id, owner, ChangesOf(e, o))
    ensures u.eventId == e.id && u.owner == owner && !SameField(e, Revise(e, o), u.field)
    ensures Encodes(e, u.field, u.oldValue) && Encodes(Revise(e, o), u.field, u.newValue)
  {
    var changes := ChangesOf(e, o);
    var k :| 0 <= k < |changes| && HistoryRows(e.id, owner, changes)[k] == u;
    assert changes[k] in changes;
    TellsItsField(e, o, changes[k]);
    ToldIsEncoded(changes[k], e, o);
  }

  lemma RowThere(e: Event, o: Observation, owner: nat, f: Field)
    requires !SameField(e, Revise(e, o), f)
    ensures exists u | u in HistoryRows(e.id, owner, ChangesOf(e, o)) :: u.field == f
  {
    var changes := ChangesOf(e, o);
    ChangedDiffers(e, o, f);
    MentionedIff(e, o, f);
    var c :| c in changes && c.field == f;
    var k :| 0 <= k < |changes| && changes[k] == c;
    assert HistoryRows(e.id, owner, changes)[k] in HistoryRows(e.id, owner, changes);
  }

  lemma RecordIsRight(e: Event, o: Observation, owner: nat)
    ensures RightRecord(HistoryRows(e.id, owner, ChangesOf(e, o)), e, Revise(e, o), owner)
  {
    var added := HistoryRows(e.id, owner, ChangesOf(e, o));
    forall u | u in added
      ensures u.eventId == e.id && u.owner == owner && !SameField(e, Revise(e, o), u.field)
      ensures Encodes(e, u.field, u.oldValue) && Encodes(Revise(e, o), u.field, u.newValue)
    {
      RowTells(e, o, owner, u);
    }
    forall f: Field | !SameField(e, Revise(e, o), f) ensures exists u | u in added :: u.field == f {
      RowThere(e, o, owner, f);
    }
    forall i, j | 0 <= i < j < |added| ensures added[i].field != added[j].field {
      ChangesInOrder(e, o, i, j);
    }
  }
}
