/**
 "Highest trust wins, not last write": when the order of updates to one event matters and when
 it does not. The README promises order-independence without a condition. Here is the exact
 condition for any two observations, whatever they leave unsaid, and for any number of full
 statements. OrderInGeneral.dfy goes on to any number of any observations; OrderOfRuns.dfy and
 OrderFromNothing.dfy carry all of it over to runs of the whole engine.
 */
module OrderIndependence {
  import opened Prelude
  import opened Calendar
  import opened Events

  /** What adjudication makes of one row, key collisions aside. */
  function Judge(e: Event, o: Observation): Event {
    if Accepted(e, o) then Revise(e, o) else e
  }

  function JudgeAll(e: Event, obs: seq<Observation>): Event {
    if obs == [] then e else Judge(JudgeAll(e, obs[..|obs| - 1]), obs[|obs| - 1])
  }

  // -------------------------------------------------------------------- beliefs

  datatype Values = Values(date: Day, time: Option<string>, venue: Option<string>)

  /** What is believed of an activity, and how much. */
  datatype Belief = Belief(values: Values, trust: real)

  function BeliefOf(e: Event): Belief {
    Belief(Values(e.date, e.time, e.venue), e.confidence)
  }

  predicate SaysVenue(o: Observation) {
    o.venue.isExplicit || o.venue.value.Some?
  }

  /** The values an observation leads to: its own where it states some, the old ones elsewhere. */
  function Over(v: Values, o: Observation): Values {
    Values(o.date, if o.time.Some? then o.time else v.time, if SaysVenue(o) then o.venue.value else v.venue)
  }

  /** An observation is taken if it has something to say and is trusted no less. */
  function Weigh(b: Belief, o: Observation): Belief {
    if Over(b.values, o) != b.values && o.confidence >= b.trust then Belief(Over(b.values, o), o.confidence) else b
  }

  function WeighAll(b: Belief, obs: seq<Observation>): Belief {
    if obs == [] then b else Weigh(WeighAll(b, obs[..|obs| - 1]), obs[|obs| - 1])
  }

  /** Adjudicating an unconfirmed event weighs the observation, and keeps identity and key in step. */
  lemma JudgeIsWeigh(e: Event, o: Observation)
    requires !e.status.Confirmed?
    ensures BeliefOf(Judge(e, o)) == Weigh(BeliefOf(e), o)
    ensures var r := Judge(e, o);
            !r.status.Confirmed? && (r.id, r.owner, r.company, r.stage) == (e.id, e.owner, e.company, e.stage) &&
            (e.key == OwnKey(e) ==> r.key == OwnKey(r))
  {
  }

  lemma {:induction false} JudgeAllIsWeigh(e: Event, obs: seq<Observation>)
    requires !e.status.Confirmed?
    ensures BeliefOf(JudgeAll(e, obs)) == WeighAll(BeliefOf(e), obs)
    ensures var r := JudgeAll(e, obs);
            !r.status.Confirmed? && (r.id, r.owner, r.company, r.stage) == (e.id, e.owner, e.company, e.stage) &&
            (e.key == OwnKey(e) ==> r.key == OwnKey(r))
  {
    if obs != [] {
      JudgeAllIsWeigh(e, obs[..|obs| - 1]);
      JudgeIsWeigh(JudgeAll(e, obs[..|obs| - 1]), obs[|obs| - 1]);
    }
  }

  /** A confirmed event is beyond every observation. */
  lemma {:induction false} ConfirmedStays(e: Event, obs: seq<Observation>)
    requires e.status.Confirmed?
    ensures JudgeAll(e, obs) == e
  {
    if obs != [] {
      ConfirmedStays(e, obs[..|obs| - 1]);
    }
  }

  // ------------------------------------------------------ two: any observations

  /** Nothing both state is stated differently. */
  predicate Agreeing(a: Observation, b: Observation) {
    && a.date == b.date
    && (a.time.Some? && b.time.Some? ==> a.time == b.time)
    && (SaysVenue(a) && SaysVenue(b) ==> a.venue.value == b.venue.value)
  }

  /** `b` has news on a field `a` is silent about. */
  predicate AddsTo(v: Values, a: Observation, b: Observation) {
    || (a.time.None? && b.time.Some? && b.time != v.time)
    || (!SaysVenue(a) && SaysVenue(b) && b.venue.value != v.venue)
  }

  /**
   When a stronger and a weaker observation, both trusted enough, depend on their order: a
   stronger one with no news lets the weaker through if they disagree; a stronger one with news
   shuts the weaker out, which shows if the weaker adds to it, or if the weaker alone brings the
   same values at less trust.
   */
  predicate StrengthShows(v: Values, strong: Observation, weak: Observation) {
    if Over(v, strong) == v then !Agreeing(strong, weak)
    else AddsTo(v, strong, weak) || Over(v, weak) == Over(v, strong)
  }

  /** Two observations whose order shows. */
  predicate OrderSensitive(b: Belief, x: Observation, y: Observation) {
    && x.confidence >= b.trust && y.confidence >= b.trust
    && if x.confidence == y.confidence then !Agreeing(x, y)
       else if x.confidence > y.confidence then StrengthShows(b.values, x, y)
       else StrengthShows(b.values, y, x)
  }

  lemma EqualTrustSwap(b: Belief, x: Observation, y: Observation)
    requires x.confidence == y.confidence >= b.trust
    ensures Weigh(Weigh(b, x), y) == Weigh(Weigh(b, y), x) <==> Agreeing(x, y)
  {
  }

  lemma UnequalTrustSwap(b: Belief, strong: Observation, weak: Observation)
    requires strong.confidence > weak.confidence >= b.trust
    ensures Weigh(Weigh(b, strong), weak) == Weigh(Weigh(b, weak), strong) <==> !StrengthShows(b.values, strong, weak)
  {
  }

  lemma SwapIff(b: Belief, x: Observation, y: Observation)
    ensures Weigh(Weigh(b, x), y) == Weigh(Weigh(b, y), x) <==> !OrderSensitive(b, x, y)
  {
    if x.confidence >= b.trust && y.confidence >= b.trust {
      if x.confidence == y.confidence {
        EqualTrustSwap(b, x, y);
      } else if x.confidence > y.confidence {
        UnequalTrustSwap(b, x, y);
      } else {
        UnequalTrustSwap(b, y, x);
      }
    }
  }

  /**
   Two updates of any event commute in day, time, venue and confidence exactly when it is confirmed
   or they are not order-sensitive.
   */
  lemma SwapCommutesIff(e: Event, a: Observation, b: Observation)
    ensures BeliefOf(Judge(Judge(e, a), b)) == BeliefOf(Judge(Judge(e, b), a)) <==>
              e.status.Confirmed? || !OrderSensitive(BeliefOf(e), a, b)
  {
    if !e.status.Confirmed? {
      JudgeIsWeigh(e, a);
      JudgeIsWeigh(e, b);
      JudgeIsWeigh(Judge(e, a), b);
      JudgeIsWeigh(Judge(e, b), a);
      SwapIff(BeliefOf(e), a, b);
    }
  }

  // ------------------------------------------------------ many: full statements

  /** An observation that states day, time and venue. */
  predicate FullyStated(o: Observation) {
    o.time.Some? && SaysVenue(o)
  }

  ghost predicate AllFull(obs: seq<Observation>) {
    forall o | o in obs :: FullyStated(o)
  }

  function Stated(o: Observation): Values {
    Values(o.date, o.time, o.venue.value)
  }

  lemma OverFull(v: Values, o: Observation)
    requires FullyStated(o)
    ensures Over(v, o) == Stated(o)
  {
  }

  /** Every rearrangement comes to the same belief. */
  ghost predicate OrderFree(b: Belief, xs: seq<Observation>) {
    forall ys: seq<Observation> | multiset(ys) == multiset(xs) :: WeighAll(b, ys) == WeighAll(b, xs)
  }

  /** None is trusted more than `t`, which is trusted enough to be heard. */
  ghost predicate Top(b: Belief, xs: seq<Observation>, t: Observation) {
    t in xs && t.confidence >= b.trust && forall o | o in xs :: o.confidence <= t.confidence
  }

  /** The strongest all say one new thing, and no weaker one that is heard says it too. */
  ghost predicate Decisive(b: Belief, xs: seq<Observation>, t: Observation) {
    && Top(b, xs, t) && Stated(t) != b.values
    && forall o | o in xs && o.confidence >= b.trust :: Stated(o) == Stated(t) <==> o.confidence == t.confidence
  }

  /** All that are heard only repeat what is believed. */
  ghost predicate NoNews(b: Belief, xs: seq<Observation>) {
    forall o | o in xs && o.confidence >= b.trust :: Stated(o) == b.values
  }

  ghost predicate Undisputed(b: Belief, xs: seq<Observation>) {
    NoNews(b, xs) || exists t :: Decisive(b, xs, t)
  }

  lemma LastOrBefore(xs: seq<Observation>)
    requires xs != []
    ensures forall o :: o in xs <==> o in xs[..|xs| - 1] || o == xs[|xs| - 1]
  {
  }

  lemma {:induction false} NoNewsStays(b: Belief, xs: seq<Observation>)
    requires AllFull(xs) && NoNews(b, xs)
    ensures WeighAll(b, xs) == b
  {
    if xs != [] {
      LastOrBefore(xs);
      NoNewsStays(b, xs[..|xs| - 1]);
      OverFull(b.values, xs[|xs| - 1]);
    }
  }

  /** On the way to a decisive statement: there once one as strong was heard, and before that believing something else. */
  lemma {:induction false} DecisiveWins(b: Belief, xs: seq<Observation>, all: seq<Observation>, t: Observation)
    requires AllFull(all) && Decisive(b, all, t) && forall o | o in xs :: o in all
    ensures var r := WeighAll(b, xs);
            if exists o | o in xs :: o.confidence == t.confidence then r == Belief(Stated(t), t.confidence)
            else b.trust <= r.trust <= t.confidence && r.values != Stated(t)
  {
    if xs != [] {
      var init, last := xs[..|xs| - 1], xs[|xs| - 1];
      LastOrBefore(xs);
      DecisiveWins(b, init, all, t);
      OverFull(WeighAll(b, init).values, last);
    }
  }

  lemma SameElements(xs: seq<Observation>, ys: seq<Observation>)
    requires multiset(xs) == multiset(ys)
    ensures forall o :: o in xs <==> o in ys
  {
    forall o ensures o in xs <==> o in ys {
      assert o in xs <==> o in multiset(xs);
      assert o in ys <==> o in multiset(ys);
    }
  }

  /** What an undisputed collection comes to, in whatever order. */
  lemma UndisputedOutcome(b: Belief, xs: seq<Observation>, ys: seq<Observation>)
    requires AllFull(xs) && Undisputed(b, xs) && multiset(ys) == multiset(xs)
    ensures NoNews(b, xs) ==> WeighAll(b, ys) == b
    ensures forall t | Decisive(b, xs, t) :: WeighAll(b, ys) == Belief(Stated(t), t.confidence)
  {
    SameElements(xs, ys);
    if NoNews(b, xs) {
      NoNewsStays(b, ys);
    }
    forall t | Decisive(b, xs, t) ensures WeighAll(b, ys) == Belief(Stated(t), t.confidence) {
      DecisiveWins(b, ys, xs, t);
      assert t in ys;
    }
  }

  // ------------------------------------------------ and nothing less will do

  lemma WeighAllAppend(b: Belief, xs: seq<Observation>, o: Observation)
    ensures WeighAll(b, xs + [o]) == Weigh(WeighAll(b, xs), o)
  {
    assert (xs + [o])[..|xs|] == xs;
  }

  lemma {:induction false} WeighAllJoins(b: Belief, xs: seq<Observation>, ys: seq<Observation>)
    ensures WeighAll(b, xs + ys) == WeighAll(WeighAll(b, xs), ys)
    decreases |ys|
  {
    if ys == [] {
      assert xs + ys == xs;
    } else {
      var init, last := ys[..|ys| - 1], ys[|ys| - 1];
      assert xs + ys == (xs + init) + [last];
      WeighAllJoins(b, xs, init);
      WeighAllAppend(b, xs + init, last);
    }
  }

  /** Trust never falls, and comes from the statements heard. */
  lemma {:induction false} TrustBounds(b: Belief, xs: seq<Observation>, m: real)
    requires forall o | o in xs :: o.confidence <= m
    ensures b.trust <= WeighAll(b, xs).trust
    ensures b.trust <= m ==> WeighAll(b, xs).trust <= m
  {
    if xs != [] {
      LastOrBefore(xs);
      TrustBounds(b, xs[..|xs| - 1], m);
    }
  }

  lemma {:induction false} TrustStaysBelow(b: Belief, xs: seq<Observation>, m: real)
    requires b.trust < m && forall o | o in xs :: o.confidence < m
    ensures WeighAll(b, xs).trust < m
  {
    if xs != [] {
      LastOrBefore(xs);
      TrustStaysBelow(b, xs[..|xs| - 1], m);
    }
  }

  /** One statement taken out of its place. */
  lemma PullOut(xs: seq<Observation>, o: Observation) returns (rest: seq<Observation>)
    requires o in xs
    ensures multiset(xs) == multiset(rest) + multiset{o}
    ensures forall x | x in rest :: x in xs
  {
    var i :| 0 <= i < |xs| && xs[i] == o;
    rest := xs[..i] + xs[i + 1..];
    assert xs == xs[..i] + [o] + xs[i + 1..];
  }

  /** With a strongest statement last, it decides what is believed. */
  lemma StrongestLast(b: Belief, xs: seq<Observation>, t: Observation) returns (ys: seq<Observation>)
    requires Top(b, xs, t) && FullyStated(t)
    ensures multiset(ys) == multiset(xs) && WeighAll(b, ys).values == Stated(t)
  {
    var rest := PullOut(xs, t);
    ys := rest + [t];
    TrustBounds(b, rest, t.confidence);
    WeighAllAppend(b, rest, t);
    OverFull(WeighAll(b, rest).values, t);
  }

  /** The statements of one trust, and the others. */
  function Of(xs: seq<Observation>, m: real): seq<Observation> {
    if xs == [] then [] else Of(xs[..|xs| - 1], m) + if xs[|xs| - 1].confidence == m then [xs[|xs| - 1]] else []
  }

  function NotOf(xs: seq<Observation>, m: real): seq<Observation> {
    if xs == [] then [] else NotOf(xs[..|xs| - 1], m) + if xs[|xs| - 1].confidence != m then [xs[|xs| - 1]] else []
  }

  lemma {:induction false} Parted(xs: seq<Observation>, m: real)
    ensures multiset(Of(xs, m)) + multiset(NotOf(xs, m)) == multiset(xs)
    ensures forall o :: o in Of(xs, m) <==> o in xs && o.confidence == m
    ensures forall o :: o in NotOf(xs, m) <==> o in xs && o.confidence != m
  {
    if xs != [] {
      var init, last := xs[..|xs| - 1], xs[|xs| - 1];
      assert xs == init + [last];
      Parted(init, m);
    }
  }

  /** If the strongest only repeat what is believed at less trust, hearing them first leaves the trust below theirs. */
  lemma RepeatersFirst(b: Belief, xs: seq<Observation>, m: real) returns (ys: seq<Observation>)
    requires AllFull(xs) && b.trust < m && forall o | o in xs :: o.confidence <= m
    requires forall o | o in xs && o.confidence == m :: Stated(o) == b.values
    ensures multiset(ys) == multiset(xs) && WeighAll(b, ys).trust < m
  {
    Parted(xs, m);
    ys := Of(xs, m) + NotOf(xs, m);
    NoNewsStays(b, Of(xs, m));
    WeighAllJoins(b, Of(xs, m), NotOf(xs, m));
    TrustStaysBelow(b, NotOf(xs, m), m);
  }

  /** A statement that is taken first leaves at least its trust at the end. */
  lemma TakenFirst(b: Belief, first: seq<Observation>, rest: seq<Observation>, m: real)
    requires WeighAll(b, first).trust == m && forall o | o in rest :: o.confidence <= m
    ensures WeighAll(b, first + rest).trust == m
  {
    WeighAllJoins(b, first, rest);
    TrustBounds(WeighAll(b, first), rest, m);
  }

  lemma OneWeighed(b: Belief, o: Observation)
    requires FullyStated(o) && Stated(o) != b.values && o.confidence >= b.trust
    ensures WeighAll(b, [o]) == Belief(Stated(o), o.confidence)
  {
    assert [o] == [] + [o];
    WeighAllAppend(b, [], o);
    OverFull(b.values, o);
  }

  /** Two strongest statements that differ: each wins when it comes last. */
  lemma StrongestDiffer(b: Belief, xs: seq<Observation>, t: Observation, u: Observation)
    requires Top(b, xs, t) && Top(b, xs, u) && FullyStated(t) && FullyStated(u) && Stated(t) != Stated(u)
    ensures !OrderFree(b, xs)
  {
    var ys := StrongestLast(b, xs, t);
    var zs := StrongestLast(b, xs, u);
    assert WeighAll(b, ys) != WeighAll(b, zs);
  }

  /** The strongest repeat what is believed, and a weaker one that is heard does not. */
  lemma StrongestRepeat(b: Belief, xs: seq<Observation>, t: Observation, o: Observation)
    requires AllFull(xs) && Top(b, xs, t) && Stated(t) == b.values
    requires forall x | x in xs && x.confidence == t.confidence :: Stated(x) == b.values
    requires o in xs && o.confidence >= b.trust && Stated(o) != b.values
    ensures !OrderFree(b, xs)
  {
    var low := RepeatersFirst(b, xs, t.confidence);
    var others := PullOut(xs, o);
    assert t in multiset(xs) && t != o;
    assert t in multiset(others);
    var rest := PullOut(others, t);
    var high := [o] + [t] + rest;
    OneWeighed(b, o);
    OneWeighed(Belief(Stated(o), o.confidence), t);
    WeighAllJoins(b, [o], [t]);
    TakenFirst(b, [o] + [t], rest, t.confidence);
    assert multiset(high) == multiset(xs);
    assert WeighAll(b, low) != WeighAll(b, high);
  }

  /** The strongest say something new, and a weaker one that is heard says it too. */
  lemma StrongestEchoed(b: Belief, xs: seq<Observation>, t: Observation, o: Observation)
    requires AllFull(xs) && Top(b, xs, t) && Stated(t) != b.values
    requires forall x | x in xs && x.confidence == t.confidence :: Stated(x) == Stated(t)
    requires o in xs && b.trust <= o.confidence < t.confidence && Stated(o) == Stated(t)
    ensures !OrderFree(b, xs)
  {
    var low := EchoFirst(b, xs, t, o);
    var high := NewsFirst(b, xs, t);
    assert WeighAll(b, low) != WeighAll(b, high);
  }

  /** The echo heard first leaves the strongest nothing new to say, and the trust below theirs. */
  lemma EchoFirst(b: Belief, xs: seq<Observation>, t: Observation, o: Observation) returns (ys: seq<Observation>)
    requires AllFull(xs) && Top(b, xs, t) && Stated(t) != b.values
    requires forall x | x in xs && x.confidence == t.confidence :: Stated(x) == Stated(t)
    requires o in xs && b.trust <= o.confidence < t.confidence && Stated(o) == Stated(t)
    ensures multiset(ys) == multiset(xs) && WeighAll(b, ys).trust < t.confidence
  {
    var others := PullOut(xs, o);
    OneWeighed(b, o);
    var after := RepeatersFirst(Belief(Stated(o), o.confidence), others, t.confidence);
    WeighAllJoins(b, [o], after);
    ys := [o] + after;
  }

  /** A strongest statement heard first, if it is new, leaves its trust at the end. */
  lemma NewsFirst(b: Belief, xs: seq<Observation>, t: Observation) returns (ys: seq<Observation>)
    requires AllFull(xs) && Top(b, xs, t) && Stated(t) != b.values
    ensures multiset(ys) == multiset(xs) && WeighAll(b, ys).trust == t.confidence
  {
    var rest := PullOut(xs, t);
    OneWeighed(b, t);
    TakenFirst(b, [t], rest, t.confidence);
    ys := [t] + rest;
  }

  lemma {:induction false} StrongestExists(b: Belief, xs: seq<Observation>, o: Observation) returns (t: Observation)
    requires o in xs && o.confidence >= b.trust
    ensures Top(b, xs, t)
  {
    var init, last := xs[..|xs| - 1], xs[|xs| - 1];
    LastOrBefore(xs);
    if forall x | x in init :: x.confidence <= last.confidence {
      t := last;
    } else {
      var x :| x in init && x.confidence > last.confidence;
      t := StrongestExists(b, init, if o in init then o else x);
    }
  }

  lemma DisputedIsNotFree(b: Belief, xs: seq<Observation>)
    requires AllFull(xs) && !Undisputed(b, xs)
    ensures !OrderFree(b, xs)
  {
    var o :| o in xs && o.confidence >= b.trust && Stated(o) != b.values;
    var t := StrongestExists(b, xs, o);
    if u :| u in xs && u.confidence == t.confidence && Stated(u) != Stated(t) {
      StrongestDiffer(b, xs, t, u);
    } else if Stated(t) == b.values {
      StrongestRepeat(b, xs, t, o);
    } else {
      assert !Decisive(b, xs, t);
      var x :| x in xs && x.confidence >= b.trust && !(Stated(x) == Stated(t) <==> x.confidence == t.confidence);
      StrongestEchoed(b, xs, t, x);
    }
  }

  /**
   Order independence, exactly. Any number of full statements come to one belief in every order if
   and only if all that are trusted enough to be heard repeat what is believed, or the most trusted
   of them all say one new thing that no less trusted one of them says.
   */
  lemma OrderFreeIff(b: Belief, xs: seq<Observation>)
    requires AllFull(xs)
    ensures OrderFree(b, xs) <==> Undisputed(b, xs)
  {
    if Undisputed(b, xs) {
      forall ys: seq<Observation> | multiset(ys) == multiset(xs) ensures WeighAll(b, ys) == WeighAll(b, xs) {
        UndisputedOutcome(b, xs, ys);
        UndisputedOutcome(b, xs, xs);
      }
    } else {
      DisputedIsNotFree(b, xs);
    }
  }

  /** Every rearrangement leaves the event with the same day, time, venue and confidence. */
  ghost predicate EventOrderFree(e: Event, xs: seq<Observation>) {
    forall ys: seq<Observation> | multiset(ys) == multiset(xs) :: BeliefOf(JudgeAll(e, ys)) == BeliefOf(JudgeAll(e, xs))
  }

  /** The order of updates to an event is the order of what is weighed, unless it is confirmed. */
  lemma EventFreeIsFree(e: Event, xs: seq<Observation>)
    ensures EventOrderFree(e, xs) <==> e.status.Confirmed? || OrderFree(BeliefOf(e), xs)
  {
    if e.status.Confirmed? {
      forall ys: seq<Observation> ensures JudgeAll(e, ys) == e {
        ConfirmedStays(e, ys);
      }
    } else {
      forall ys: seq<Observation> ensures BeliefOf(JudgeAll(e, ys)) == WeighAll(BeliefOf(e), ys) {
        JudgeAllIsWeigh(e, ys);
      }
      assert EventOrderFree(e, xs) ==> OrderFree(BeliefOf(e), xs);
    }
  }

  /** The same of any event: the order does not show exactly when it is confirmed or the statements are undisputed. */
  lemma JudgeOrderFreeIff(e: Event, xs: seq<Observation>)
    requires AllFull(xs)
    ensures EventOrderFree(e, xs) <==> e.status.Confirmed? || Undisputed(BeliefOf(e), xs)
  {
    EventFreeIsFree(e, xs);
    OrderFreeIff(BeliefOf(e), xs);
  }

  /** Trusts and values that are pairwise different, the event's own included, leave nothing to dispute. */
  lemma DifferentIsUndisputed(b: Belief, xs: seq<Observation>)
    requires forall i, j | 0 <= i < |xs| && 0 <= j < |xs| && i != j ::
               xs[i].confidence != xs[j].confidence && Stated(xs[i]) != Stated(xs[j])
    requires forall o | o in xs :: Stated(o) != b.values
    ensures Undisputed(b, xs)
  {
    if !NoNews(b, xs) {
      var o :| o in xs && o.confidence >= b.trust && Stated(o) != b.values;
      var t := StrongestExists(b, xs, o);
      forall x | x in xs && x.confidence >= b.trust
        ensures Stated(x) == Stated(t) <==> x.confidence == t.confidence
      {
        var i :| 0 <= i < |xs| && xs[i] == t;
        var j :| 0 <= j < |xs| && xs[j] == x;
      }
      assert Decisive(b, xs, t);
    }
  }
}
