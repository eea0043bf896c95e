/**
 The change history is a faithful chain: per event and field, each row starts from the value
 the previous one ended on, the first from the value at creation, and the last ends on the
 current value. Human edits may interleave; an aborted transaction leaves no row.
 */
module History {
  import opened Identity
  import opened Events
  import opened ChangeTexts
  import opened StoreInvariant

  /** The history of one field of one event, oldest first. */
  function RowsFor(updates: seq<EventUpdate>, id: nat, f: Field): seq<EventUpdate> {
    if updates == [] then []
    else
      var rest, last := RowsFor(updates[..|updates| - 1], id, f), updates[|updates| - 1];
      if last.eventId == id && last.field == f then rest + [last] else rest
  }

  /** The rows lead from one text to another without a break. */
  predicate Linked(from: string, rows: seq<EventUpdate>, to: string) {
    if rows == [] then from == to
    else
      var last := rows[|rows| - 1];
      last.newValue == to && Linked(from, rows[..|rows| - 1], last.oldValue)
  }

  lemma {:induction false} RowsConcat(a: seq<EventUpdate>, b: seq<EventUpdate>, id: nat, f: Field)
    ensures RowsFor(a + b, id, f) == RowsFor(a, id, f) + RowsFor(b, id, f)
  {
    if b == [] {
      assert a + b == a;
    } else {
      var n := |b| - 1;
      RowsConcat(a, b[..n], id, f);
      assert (a + b)[..|a + b| - 1] == a + b[..n];
    }
  }

  lemma {:induction false} LinkedConcat(x: string, a: seq<EventUpdate>, y: string, b: seq<EventUpdate>, z: string)
    requires Linked(x, a, y) && Linked(y, b, z)
    ensures Linked(x, a + b, z)
  {
    if b == [] {
      assert a + b == a;
    } else {
      var n := |b| - 1;
      LinkedConcat(x, a, y, b[..n], b[n].oldValue);
      assert (a + b)[..|a + b| - 1] == a + b[..n];
    }
  }

  lemma {:induction false} ForeignRows(updates: seq<EventUpdate>, id: nat, f: Field)
    requires forall k | 0 <= k < |updates| :: updates[k].eventId != id
    ensures RowsFor(updates, id, f) == []
  {
    if updates != [] {
      ForeignRows(updates[..|updates| - 1], id, f);
    }
  }

  lemma RowsOfPart(id: nat, owner: nat, e: Event, o: Observation, g: Field, f: Field)
    ensures RowsFor(HistoryRows(id, owner, ChangeIn(e, o, g)), id, f) ==
              if f == g then HistoryRows(id, owner, ChangeIn(e, o, g)) else []
  {
    var rows := HistoryRows(id, owner, ChangeIn(e, o, g));
    if rows != [] {
      assert |rows| == 1 && rows[..|rows| - 1] == [] && rows == [rows[0]];
    }
  }

  lemma HistoryRowsConcat(id: nat, owner: nat, a: seq<Change>, b: seq<Change>)
    ensures HistoryRows(id, owner, a + b) == HistoryRows(id, owner, a) + HistoryRows(id, owner, b)
  {
  }

  /** A transaction's rows hold at most one row per field: the change of that field. */
  lemma RowsOfChanges(id: nat, owner: nat, e: Event, o: Observation, f: Field)
    ensures RowsFor(HistoryRows(id, owner, ChangesOf(e, o)), id, f) == HistoryRows(id, owner, ChangeIn(e, o, f))
  {
    var d, t, v := ChangeIn(e, o, DateField), ChangeIn(e, o, TimeField), ChangeIn(e, o, VenueField);
    assert ChangesOf(e, o) == d + t + v;
    HistoryRowsConcat(id, owner, d + t, v);
    HistoryRowsConcat(id, owner, d, t);
    var rd, rt, rv := HistoryRows(id, owner, d), HistoryRows(id, owner, t), HistoryRows(id, owner, v);
    RowsConcat(rd + rt, rv, id, f);
    RowsConcat(rd, rt, id, f);
    RowsOfPart(id, owner, e, o, DateField, f);
    RowsOfPart(id, owner, e, o, TimeField, f);
    RowsOfPart(id, owner, e, o, VenueField, f);
  }

  lemma ChangeLinks(id: nat, owner: nat, e: Event, o: Observation, f: Field)
    ensures Linked(FieldText(e, f), HistoryRows(id, owner, ChangeIn(e, o, f)), FieldText(Revise(e, o), f))
  {
    var rows := HistoryRows(id, owner, ChangeIn(e, o, f));
    if rows != [] {
      assert |rows| == 1 && rows[..|rows| - 1] == [];
    }
  }

  /** The rows a step appended. */
  function Appended(s: Store, t: Store): seq<EventUpdate>
    requires |s.updates| <= |t.updates|
  {
    t.updates[|s.updates|..]
  }

  ghost predicate Chained(s: Store, t: Store, i: nat, f: Field) {
    && i < |s.events| && i < |t.events| && t.events[i].id == s.events[i].id
    && s.updates <= t.updates
    && Linked(FieldText(s.events[i], f), RowsFor(Appended(s, t), s.events[i].id, f), FieldText(t.events[i], f))
    && (RowsFor(Appended(s, t), s.events[i].id, f) == [] ==> SameField(s.events[i], t.events[i], f))
  }

  lemma UnchangedChained(s: Store, t: Store, i: nat, f: Field)
    requires i < |s.events| && i < |t.events| && t.events[i].id == s.events[i].id
    requires SameField(s.events[i], t.events[i], f) && t.updates == s.updates
    ensures Chained(s, t, i, f)
  {
    assert Appended(s, t) == [];
  }

  lemma NoChangeNoNews(e: Event, o: Observation, f: Field)
    ensures ChangeIn(e, o, f) == [] ==> SameField(e, Revise(e, o), f)
  {
  }

  lemma AdjudicateChained(s: Store, owner: nat, e: Event, o: Observation, i: nat, f: Field)
    requires Inv(s) && e in s.events && e.owner == owner && i < |s.events|
    ensures Chained(s, Adjudicate(s, owner, e, o), i, f)
  {
    var t := Adjudicate(s, owner, e, o);
    if t == s {
      UnchangedChained(s, t, i, f);
    } else {
      var rows := HistoryRows(e.id, owner, ChangesOf(e, o));
      assert Appended(s, t) == rows;
      var j :| 0 <= j < |s.events| && s.events[j] == e;
      assert t.events[j] == Revise(e, o);
      if i == j {
        RowsOfChanges(e.id, owner, e, o, f);
        ChangeLinks(e.id, owner, e, o, f);
        NoChangeNoNews(e, o, f);
      } else {
        ForeignRows(rows, s.events[i].id, f);
      }
    }
  }

  lemma StepChained(s: Store, step: Step, i: nat, f: Field)
    requires Inv(s) && StepOk(s, step) && i < |s.events|
    ensures Chained(s, Apply(s, step), i, f)
  {
    var t := Apply(s, step);
    match step
    case Email(owner, newId, x) =>
      GateUsable(x);
      if Gate(x).Some? {
        var o := Gate(x).value;
        MatchCompatible(s, owner, o);
        var m := Match(s.events, owner, o);
        if o.confidence >= CONFIDENCE_THRESHOLD && m.Some? {
          AdjudicateChained(s, owner, m.value, o, i, f);
        } else {
          UnchangedChained(s, t, i, f);
        }
      } else {
        UnchangedChained(s, t, i, f);
      }
    case Manual(owner, id, company, stage) =>
      UnchangedChained(s, t, i, f);
  }

  lemma AppendedJoins(s: Store, mid: Store, t: Store)
    requires s.updates <= mid.updates <= t.updates
    ensures Appended(s, t) == Appended(s, mid) + Appended(mid, t)
  {
  }

  lemma ChainedTrans(s: Store, mid: Store, t: Store, i: nat, f: Field)
    requires Chained(s, mid, i, f) && Chained(mid, t, i, f)
    ensures Chained(s, t, i, f)
  {
    var id := s.events[i].id;
    AppendedJoins(s, mid, t);
    RowsConcat(Appended(s, mid), Appended(mid, t), id, f);
    LinkedConcat(FieldText(s.events[i], f), RowsFor(Appended(s, mid), id, f), FieldText(mid.events[i], f),
                 RowsFor(Appended(mid, t), id, f), FieldText(t.events[i], f));
  }

  lemma {:induction false} RunChained(s: Store, steps: seq<Step>, i: nat, f: Field)
    requires Inv(s) && RunOk(s, steps) && i < |s.events|
    ensures Chained(s, Run(s, steps), i, f)
  {
    if steps == [] {
      UnchangedChained(s, s, i, f);
    } else {
      var init, step := steps[..|steps| - 1], steps[|steps| - 1];
      var mid := Run(s, init);
      RunChained(s, init, i, f);
      RunInv(s, init);
      StepChained(mid, step, i, f);
      ChainedTrans(s, mid, Apply(mid, step), i, f);
    }
  }

  // ------------------------------------------------------------ what the chain says

  /**
   The rows tell how a field of `e` became that of `e'`: without rows it is the same; else the first
   row starts at the value of `e`, each row starts where the one before ended, and the last one ends
   at the value of `e'`.
   */
  ghost predicate Tells(rows: seq<EventUpdate>, e: Event, e': Event, f: Field) {
    && (rows == [] ==> SameField(e, e', f))
    && (rows != [] ==> Encodes(e, f, rows[0].oldValue) && Encodes(e', f, rows[|rows| - 1].newValue))
    && (forall k | 0 <= k < |rows| - 1 :: rows[k].newValue == rows[k + 1].oldValue)
  }

  lemma {:induction false} LinkedMeans(from: string, rows: seq<EventUpdate>, to: string)
    requires Linked(from, rows, to)
    ensures rows == [] ==> from == to
    ensures rows != [] ==> rows[0].oldValue == from && rows[|rows| - 1].newValue == to
    ensures forall k | 0 <= k < |rows| - 1 :: rows[k].newValue == rows[k + 1].oldValue
  {
    if rows != [] {
      var init := rows[..|rows| - 1];
      LinkedMeans(from, init, rows[|rows| - 1].oldValue);
      forall k | 0 <= k < |rows| - 1 ensures rows[k].newValue == rows[k + 1].oldValue {
        if k < |init| - 1 {
          assert init[k].newValue == init[k + 1].oldValue;
        }
      }
    }
  }

  lemma LinkedTells(rows: seq<EventUpdate>, e: Event, e': Event, f: Field)
    requires Linked(FieldText(e, f), rows, FieldText(e', f)) && (rows == [] ==> SameField(e, e', f))
    ensures Tells(rows, e, e', f)
  {
    LinkedMeans(FieldText(e, f), rows, FieldText(e', f));
    FieldTextEncodes(e, f);
    FieldTextEncodes(e', f);
  }

  /** The history of one field of one event consists of its rows, in the order written. */
  lemma RowsForOne(u: EventUpdate, id: nat, f: Field)
    ensures RowsFor([u], id, f) == if u.eventId == id && u.field == f then [u] else []
  {
    assert [u][..0] == [];
  }

  /** Along any run, the rows an event gained tell how its values then became its values now, field by field. */
  lemma HistoryIsFaithful(s: Store, steps: seq<Step>, i: nat, f: Field)
    requires Inv(s) && RunOk(s, steps) && i < |s.events|
    ensures var t := Run(s, steps);
            i < |t.events| && t.events[i].id == s.events[i].id && s.updates <= t.updates &&
            Tells(RowsFor(t.updates[|s.updates|..], s.events[i].id, f), s.events[i], t.events[i], f)
  {
    RunChained(s, steps, i, f);
    var t := Run(s, steps);
    LinkedTells(RowsFor(Appended(s, t), s.events[i].id, f), s.events[i], t.events[i], f);
  }

  /** A step inserted one row, and it is the last. */
  ghost predicate Born(s: Store, birth: Step, b: Store) {
    b == Apply(s, birth) && |b.events| > |s.events|
  }

  /** A row a step has just inserted has no history yet. */
  lemma NewbornHasNoHistory(s: Store, birth: Step, b: Store, f: Field)
    requires Inv(s) && StepOk(s, birth) && Born(s, birth, b)
    ensures |b.events| == |s.events| + 1 && b.updates == s.updates
    ensures RowsFor(b.updates, b.events[|s.events|].id, f) == []
  {
    var id := b.events[|s.events|].id;
    assert birth.Email? && id == birth.newId;
    forall k | 0 <= k < |s.updates|
      ensures s.updates[k].eventId != id
    {
      assert Owned(s, s.updates[k]);
    }
    ForeignRows(b.updates, id, f);
  }

  lemma RowsAfterNone(before: seq<EventUpdate>, after: seq<EventUpdate>, id: nat, f: Field)
    requires before <= after && RowsFor(before, id, f) == []
    ensures RowsFor(after, id, f) == RowsFor(after[|before|..], id, f)
  {
    assert after == before + after[|before|..];
    RowsConcat(before, after[|before|..], id, f);
  }

  /** From birth to now: the whole history of a field tells how the value the event was created with became the present one. */
  lemma WholeHistory(s: Store, birth: Step, b: Store, later: seq<Step>, f: Field)
    requires Inv(s) && StepOk(s, birth) && Born(s, birth, b) && RunOk(b, later)
    ensures var t, n := Run(b, later), |s.events|;
            n < |b.events| && n < |t.events| && t.events[n].id == b.events[n].id &&
            Tells(RowsFor(t.updates, b.events[n].id, f), b.events[n], t.events[n], f)
  {
    StepInv(s, birth);
    NewbornHasNoHistory(s, birth, b, f);
    HistoryIsFaithful(b, later, |s.events|, f);
    RowsAfterNone(b.updates, Run(b, later).updates, b.events[|s.events|].id, f);
  }

  /** One row revised, and its changes recorded, in one act. */
  ghost predicate RevisedWithHistory(s: Store, t: Store, owner: nat, o: Observation, i: int) {
    && 0 <= i < |s.events|
    && |t.events| == |s.events| && t.events == s.events[i := t.events[i]]
    && Improved(s.events[i], t.events[i], owner, o)
    && s.updates <= t.updates && RightRecord(t.updates[|s.updates|..], s.events[i], t.events[i], owner)
  }

  lemma AppendedIs(a: seq<EventUpdate>, b: seq<EventUpdate>)
    ensures a <= a + b && (a + b)[|a|..] == b
  {
  }

  lemma OneRowReplaced(s: Store, owner: nat, i: nat, row: Event)
    requires UniqueIds(s.events) && i < |s.events| && s.events[i].owner == owner && row.id == s.events[i].id
    ensures ReplaceRow(s.events, owner, row) == s.events[i := row]
  {
  }

  lemma AdjudicationIsOneAct(s: Store, owner: nat, e: Event, o: Observation)
    requires Inv(s) && Usable(o) && e in s.events && e.owner == owner
    requires !e.status.Confirmed? ==> Compatible(e, owner, o)
    ensures var t := Adjudicate(s, owner, e, o);
            t == s || exists i :: RevisedWithHistory(s, t, owner, o, i)
  {
    var t := Adjudicate(s, owner, e, o);
    if t != s {
      var i :| 0 <= i < |s.events| && s.events[i] == e;
      OneRowReplaced(s, owner, i, Revise(e, o));
      RecordIsRight(e, o, owner);
      AppendedIs(s.updates, HistoryRows(e.id, owner, ChangesOf(e, o)));
      assert RevisedWithHistory(s, t, owner, o, i);
    }
  }

  lemma DecisionIsOneAct(s: Store, owner: nat, newId: nat, o: Observation)
    requires Inv(s) && Usable(o)
    ensures var t := Decide(s, owner, newId, o);
            t.updates == s.updates || exists i :: RevisedWithHistory(s, t, owner, o, i)
  {
    MatchCompatible(s, owner, o);
    var m := Match(s.events, owner, o);
    if m.Some? {
      AdjudicationIsOneAct(s, owner, m.value, o);
    }
  }

  /** No history without the change it records: a step that writes history has revised the row it speaks of, and no other. */
  lemma NoHistoryWithoutChange(s: Store, owner: nat, newId: nat, x: Extraction)
    requires Inv(s) && FreshId(s, newId) && WellFormed(x)
    ensures var t := Observe(s, owner, newId, x);
            t.updates == s.updates || (Gate(x).Some? && exists i :: RevisedWithHistory(s, t, owner, Gate(x).value, i))
  {
    GateUsable(x);
    if Gate(x).Some? {
      DecisionIsOneAct(s, owner, newId, Gate(x).value);
    }
  }
}
