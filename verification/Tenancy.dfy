/**
 Tenants do not affect each other. An owner's view of the tables after any interleaving of
 everybody's steps is what that owner's steps alone would have left.
 */
module Tenancy {
  import opened Prelude
  import opened Events

  function EventsOf(events: seq<Event>, owner: nat): seq<Event> {
    if events == [] then []
    else
      var rest, last := EventsOf(events[..|events| - 1], owner), events[|events| - 1];
      if last.owner == owner then rest + [last] else rest
  }

  function UpdatesOf(updates: seq<EventUpdate>, owner: nat): seq<EventUpdate> {
    if updates == [] then []
    else
      var rest, last := UpdatesOf(updates[..|updates| - 1], owner), updates[|updates| - 1];
      if last.owner == owner then rest + [last] else rest
  }

  /** What one owner can see. */
  function View(s: Store, owner: nat): Store {
    Store(EventsOf(s.events, owner), UpdatesOf(s.updates, owner))
  }

  function StepsOf(steps: seq<Step>, owner: nat): seq<Step> {
    if steps == [] then []
    else
      var rest, last := StepsOf(steps[..|steps| - 1], owner), steps[|steps| - 1];
      if last.owner == owner then rest + [last] else rest
  }

  // ------------------------------------------------------------ queries commute

  lemma {:induction false} FindLast(events: seq<Event>, owner: nat, key: string)
    requires events != []
    ensures var init := FindByKey(events[..|events| - 1], owner, key); var last := events[|events| - 1];
            FindByKey(events, owner, key) ==
              if init.Some? then init else if last.owner == owner && last.key == key then Some(last) else None
  {
    if |events| > 1 {
      FindLast(events[1..], owner, key);
      assert events[1..][..|events| - 2] == events[..|events| - 1][1..];
    }
  }

  lemma {:induction false} FindCommutes(events: seq<Event>, owner: nat, key: string)
    ensures FindByKey(EventsOf(events, owner), owner, key) == FindByKey(events, owner, key)
  {
    if events != [] {
      var init, last := events[..|events| - 1], events[|events| - 1];
      FindCommutes(init, owner, key);
      FindLast(events, owner, key);
      if last.owner == owner {
        var mine := EventsOf(events, owner);
        assert mine[..|mine| - 1] == EventsOf(init, owner);
        FindLast(mine, owner, key);
      }
    }
  }

  lemma {:induction false} BestCommutes(events: seq<Event>, owner: nat, o: Observation)
    ensures Best(EventsOf(events, owner), owner, o) == Best(events, owner, o)
  {
    if events != [] {
      var init, last := events[..|events| - 1], events[|events| - 1];
      BestCommutes(init, owner, o);
      if last.owner == owner {
        var mine := EventsOf(events, owner);
        assert mine[..|mine| - 1] == EventsOf(init, owner) && mine[|mine| - 1] == last;
      }
    }
  }

  lemma {:induction false} LooseCommutes(events: seq<Event>, owner: nat, o: Observation)
    ensures LooseRows(EventsOf(events, owner), owner, o) == LooseRows(events, owner, o)
  {
    if events != [] {
      var init, last := events[..|events| - 1], events[|events| - 1];
      LooseCommutes(init, owner, o);
      if last.owner == owner {
        var mine := EventsOf(events, owner);
        assert mine[..|mine| - 1] == EventsOf(init, owner) && mine[|mine| - 1] == last;
      }
    }
  }

  /** Recognition sees its owner's rows and nothing else; in particular the loose tier's count is a count over them. */
  lemma MatchCommutes(events: seq<Event>, owner: nat, o: Observation)
    ensures Match(EventsOf(events, owner), owner, o) == Match(events, owner, o)
  {
    FindCommutes(events, owner, KeyOf(o));
    BestCommutes(events, owner, o);
    LooseCommutes(events, owner, o);
  }

  lemma {:induction false} TakenCommutes(events: seq<Event>, owner: nat, id: nat, key: string)
    ensures KeyTaken(EventsOf(events, owner), owner, id, key) <==> KeyTaken(events, owner, id, key)
  {
    if events != [] {
      var n := |events| - 1;
      var init, last := events[..n], events[n];
      TakenCommutes(init, owner, id, key);
      assert forall i | 0 <= i < n :: init[i] == events[i];
      assert KeyTaken(events, owner, id, key) <==>
          KeyTaken(init, owner, id, key) || (last.owner == owner && last.key == key && last.id != id);
      var mine, rest := EventsOf(events, owner), EventsOf(init, owner);
      if last.owner == owner {
        assert mine == rest + [last];
        assert forall i | 0 <= i < |rest| :: mine[i] == rest[i];
        assert mine[|rest|] == last;
      }
    }
  }

  // ------------------------------------------------------------- writes commute

  lemma {:induction false} UpdatesConcat(a: seq<EventUpdate>, b: seq<EventUpdate>, owner: nat)
    ensures UpdatesOf(a + b, owner) == UpdatesOf(a, owner) + UpdatesOf(b, owner)
  {
    if b == [] {
      assert a + b == a;
    } else {
      var n := |b| - 1;
      UpdatesConcat(a, b[..n], owner);
      assert (a + b)[..|a + b| - 1] == a + b[..n];
    }
  }

  lemma {:induction false} UpdatesAllOf(rows: seq<EventUpdate>, owner: nat, writer: nat)
    requires forall i | 0 <= i < |rows| :: rows[i].owner == writer
    ensures UpdatesOf(rows, owner) == if owner == writer then rows else []
  {
    if rows != [] {
      UpdatesAllOf(rows[..|rows| - 1], owner, writer);
    }
  }

  lemma {:induction false} ReplaceCommutes(events: seq<Event>, owner: nat, writer: nat, row: Event)
    requires row.owner == writer
    ensures EventsOf(ReplaceRow(events, writer, row), owner) ==
              if owner == writer then ReplaceRow(EventsOf(events, owner), owner, row) else EventsOf(events, owner)
  {
    if events != [] {
      var n := |events| - 1;
      var init, last := events[..n], events[n];
      ReplaceCommutes(init, owner, writer, row);
      var all := ReplaceRow(events, writer, row);
      assert all[..n] == ReplaceRow(init, writer, row);
      if last.owner == owner {
        var mine, rest := EventsOf(events, owner), EventsOf(init, owner);
        assert mine == rest + [last];
        assert ReplaceRow(mine, owner, row) == ReplaceRow(rest, owner, row) + [all[n]] || owner != writer;
      }
    }
  }

  lemma EventsAppend(events: seq<Event>, last: Event, owner: nat)
    ensures EventsOf(events + [last], owner) == EventsOf(events, owner) + if last.owner == owner then [last] else []
  {
    assert (events + [last])[..|events|] == events;
  }

  /** What an edit makes of one row. */
  function EditedRow(e: Event, writer: nat, id: nat, company: Option<string>, stage: Option<string>): Event {
    if e.id == id && e.owner == writer then Corrected(e, company, stage) else e
  }

  lemma EditAppend(events: seq<Event>, updates: seq<EventUpdate>, last: Event, writer: nat, id: nat,
                   company: Option<string>, stage: Option<string>)
    ensures Edit(Store(events + [last], updates), writer, id, company, stage).events ==
              Edit(Store(events, updates), writer, id, company, stage).events + [EditedRow(last, writer, id, company, stage)]
  {
  }

  lemma {:induction false} EditCommutes(events: seq<Event>, updates: seq<EventUpdate>, owner: nat, writer: nat, id: nat,
                                        company: Option<string>, stage: Option<string>)
    ensures EventsOf(Edit(Store(events, updates), writer, id, company, stage).events, owner) ==
              if owner == writer then Edit(Store(EventsOf(events, owner), []), owner, id, company, stage).events
              else EventsOf(events, owner)
  {
    if events != [] {
      var n := |events| - 1;
      var init, last := events[..n], events[n];
      assert events == init + [last];
      EditCommutes(init, updates, owner, writer, id, company, stage);
      EditAppend(init, updates, last, writer, id, company, stage);
      var before := Edit(Store(init, updates), writer, id, company, stage).events;
      EventsAppend(before, EditedRow(last, writer, id, company, stage), owner);
      EditAppend(EventsOf(init, owner), [], last, owner, id, company, stage);
    }
  }

  lemma CreateCommutes(s: Store, owner: nat, writer: nat, newId: nat, o: Observation, status: Status, reason: Option<string>)
    ensures View(Create(s, writer, newId, o, status, reason), owner) ==
              if owner == writer then Create(View(s, owner), owner, newId, o, status, reason) else View(s, owner)
  {
    FindCommutes(s.events, writer, KeyOf(o));
    var t := Create(s, writer, newId, o, status, reason);
    if t != s {
      assert t.events[..|t.events| - 1] == s.events;
    }
  }

  /** A match belongs to its owner, so what it triggers is written under that owner. */
  lemma AdjudicateCommutes(s: Store, owner: nat, writer: nat, e: Event, o: Observation)
    requires e.owner == writer
    ensures View(Adjudicate(s, writer, e, o), owner) ==
              if owner == writer then Adjudicate(View(s, owner), owner, e, o) else View(s, owner)
  {
    if Accepted(e, o) {
      var row, rows := Revise(e, o), HistoryRows(e.id, writer, ChangesOf(e, o));
      TakenCommutes(s.events, writer, e.id, row.key);
      ReplaceCommutes(s.events, owner, writer, row);
      UpdatesConcat(s.updates, rows, owner);
      UpdatesAllOf(rows, owner, writer);
    }
  }

  lemma {:induction false} BestOwner(events: seq<Event>, owner: nat, o: Observation)
    ensures Best(events, owner, o).Some? ==> Best(events, owner, o).value.owner == owner
  {
    if events != [] {
      BestOwner(events[..|events| - 1], owner, o);
    }
  }

  lemma {:induction false} LooseOwner(events: seq<Event>, owner: nat, o: Observation)
    ensures forall i | 0 <= i < |LooseRows(events, owner, o)| :: LooseRows(events, owner, o)[i].owner == owner
  {
    if events != [] {
      LooseOwner(events[..|events| - 1], owner, o);
    }
  }

  lemma {:induction false} FindOwner(events: seq<Event>, owner: nat, key: string)
    ensures FindByKey(events, owner, key).Some? ==> FindByKey(events, owner, key).value.owner == owner
  {
    if events != [] {
      FindOwner(events[1..], owner, key);
    }
  }

  lemma MatchOwner(events: seq<Event>, owner: nat, o: Observation)
    ensures Match(events, owner, o).Some? ==> Match(events, owner, o).value.owner == owner
  {
    FindOwner(events, owner, KeyOf(o));
    BestOwner(events, owner, o);
    LooseOwner(events, owner, o);
  }

  lemma DecideCommutes(s: Store, owner: nat, writer: nat, newId: nat, o: Observation)
    ensures View(Decide(s, writer, newId, o), owner) ==
              if owner == writer then Decide(View(s, owner), owner, newId, o) else View(s, owner)
  {
    CreateCommutes(s, owner, writer, newId, o, Review, Some(DoubtReason(o)));
    CreateCommutes(s, owner, writer, newId, o, Scheduled, None);
    MatchCommutes(s.events, writer, o);
    MatchOwner(s.events, writer, o);
    var m := Match(s.events, writer, o);
    if m.Some? {
      AdjudicateCommutes(s, owner, writer, m.value, o);
    }
  }

  lemma StepCommutes(s: Store, step: Step, owner: nat)
    ensures View(Apply(s, step), owner) ==
              if step.owner == owner then Apply(View(s, owner), step) else View(s, owner)
  {
    match step
    case Email(writer, newId, x) =>
      if Gate(x).Some? {
        DecideCommutes(s, owner, writer, newId, Gate(x).value);
      }
    case Manual(writer, id, company, stage) =>
      EditCommutes(s.events, s.updates, owner, writer, id, company, stage);
  }

  /**
   Non-interference: for every interleaving of any owners' observations and edits, from any
   state, an owner's events and history equal those of running that owner's steps alone.
   */
  lemma {:induction false} TenantsDoNotInterfere(s: Store, steps: seq<Step>, owner: nat)
    ensures View(Run(s, steps), owner) == Run(View(s, owner), StepsOf(steps, owner))
  {
    if steps != [] {
      var n := |steps| - 1;
      var init, last := steps[..n], steps[n];
      TenantsDoNotInterfere(s, init, owner);
      StepCommutes(Run(s, init), last, owner);
      if last.owner == owner {
        var mine := StepsOf(steps, owner);
        assert mine[..|mine| - 1] == StepsOf(init, owner);
      }
    }
  }

  /** A view has the owner's rows and no others. */
  lemma {:induction false} EventsOfAre(events: seq<Event>, owner: nat)
    ensures forall e :: e in EventsOf(events, owner) <==> e in events && e.owner == owner
  {
    if events != [] {
      var init, last := events[..|events| - 1], events[|events| - 1];
      EventsOfAre(init, owner);
      assert forall e :: e in events <==> e in init || e == last;
    }
  }

  lemma {:induction false} UpdatesOfAre(updates: seq<EventUpdate>, owner: nat)
    ensures forall u :: u in UpdatesOf(updates, owner) <==> u in updates && u.owner == owner
  {
    if updates != [] {
      var init, last := updates[..|updates| - 1], updates[|updates| - 1];
      UpdatesOfAre(init, owner);
      assert forall u :: u in updates <==> u in init || u == last;
    }
  }

  lemma {:induction false} StepsOfAre(steps: seq<Step>, owner: nat)
    ensures forall s :: s in StepsOf(steps, owner) <==> s in steps && s.owner == owner
  {
    if steps != [] {
      var init, last := steps[..|steps| - 1], steps[|steps| - 1];
      StepsOfAre(init, owner);
      assert forall s :: s in steps <==> s in init || s == last;
    }
  }
}
