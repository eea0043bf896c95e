/**
 Order independence of any observations, whatever they leave unsaid and however many, about an
 activity already believed in or one nobody has heard of. A collection and all its parts come to one
 belief each in every order exactly when no two members are order-sensitive where others of them can
 lead. One way each offending pair is a part that shows it; the other way a rearrangement is a chain
 of exchanges of neighbours.
 */
module OrderInGeneral {
  import opened Prelude
  import opened Calendar
  import opened Events
  import opened OrderIndependence

  // --------------------------------------------------------------------- hearing

  /** What the first message about an activity makes believed. */
  function First(o: Observation): Belief {
    Belief(Stated(o), o.confidence)
  }

  /** One more observation, on what is believed so far if anything is. */
  function Hear(m: Option<Belief>, o: Observation): Belief {
    if m.None? then First(o) else Weigh(m.value, o)
  }

  function HearAll(m: Option<Belief>, obs: seq<Observation>): Option<Belief> {
    if obs == [] then m else Some(Hear(HearAll(m, obs[..|obs| - 1]), obs[|obs| - 1]))
  }

  lemma HearAllAppend(m: Option<Belief>, xs: seq<Observation>, o: Observation)
    ensures HearAll(m, xs + [o]) == Some(Hear(HearAll(m, xs), o))
  {
    assert (xs + [o])[..|xs|] == xs;
  }

  lemma {:induction false} HearAllJoins(m: Option<Belief>, xs: seq<Observation>, ys: seq<Observation>)
    ensures HearAll(m, xs + ys) == HearAll(HearAll(m, xs), ys)
    decreases |ys|
  {
    if ys == [] {
      assert xs + ys == xs;
    } else {
      var init, last := ys[..|ys| - 1], ys[|ys| - 1];
      assert xs + ys == (xs + init) + [last];
      HearAllJoins(m, xs, init);
      HearAllAppend(m, xs + init, last);
    }
  }

  lemma {:induction false} HearAllIsWeighAll(b: Belief, obs: seq<Observation>)
    ensures HearAll(Some(b), obs) == Some(WeighAll(b, obs))
  {
    if obs != [] {
      HearAllIsWeighAll(b, obs[..|obs| - 1]);
    }
  }

  // ----------------------------------------------------------------- two, anywhere

  /**
   When the order of the first two messages shows, one trusted more: the weaker one adds to it, or
   says the same and, heard first, leaves it no news.
   */
  predicate FirstShows(strong: Observation, weak: Observation) {
    || Stated(weak) == Stated(strong)
    || (strong.time.None? && weak.time.Some?)
    || (!SaysVenue(strong) && weak.venue.value.Some?)
  }

  predicate FirstSensitive(x: Observation, y: Observation) {
    if x.confidence == y.confidence then !Agreeing(x, y)
    else if x.confidence > y.confidence then FirstShows(x, y) else FirstShows(y, x)
  }

  lemma FirstTwoUnequal(strong: Observation, weak: Observation)
    requires strong.confidence > weak.confidence
    ensures Weigh(First(strong), weak) == Weigh(First(weak), strong) <==> !FirstShows(strong, weak)
  {
  }

  lemma FirstTwoEqual(x: Observation, y: Observation)
    requires x.confidence == y.confidence
    ensures Weigh(First(x), y) == Weigh(First(y), x) <==> Agreeing(x, y)
  {
  }

  lemma FirstTwoIff(x: Observation, y: Observation)
    ensures Weigh(First(x), y) == Weigh(First(y), x) <==> !FirstSensitive(x, y)
  {
    if x.confidence == y.confidence {
      FirstTwoEqual(x, y);
    } else if x.confidence > y.confidence {
      FirstTwoUnequal(x, y);
    } else {
      FirstTwoUnequal(y, x);
    }
  }

  predicate Sensitive(m: Option<Belief>, x: Observation, y: Observation) {
    if m.None? then FirstSensitive(x, y) else OrderSensitive(m.value, x, y)
  }

  lemma HearTwoIff(m: Option<Belief>, x: Observation, y: Observation)
    ensures Hear(Some(Hear(m, x)), y) == Hear(Some(Hear(m, y)), x) <==> !Sensitive(m, x, y)
  {
    if m.None? {
      FirstTwoIff(x, y);
    } else {
      SwapIff(m.value, x, y);
    }
  }

  // ---------------------------------------------------------------- many, and parts

  /** Every rearrangement comes to the same. */
  ghost predicate OneOutcome(m: Option<Belief>, xs: seq<Observation>) {
    forall ys: seq<Observation> | multiset(ys) == multiset(xs) :: HearAll(m, ys) == HearAll(m, xs)
  }

  /** `ys` is made of members of `xs`, each used once. */
  ghost predicate Part(ys: seq<Observation>, xs: seq<Observation>) {
    multiset(ys) <= multiset(xs)
  }

  /** Once the members `zs` were heard, the order of two others does not show. */
  ghost predicate CalmAfter(m: Option<Belief>, xs: seq<Observation>, zs: seq<Observation>, x: Observation, y: Observation) {
    Part(zs + [x, y], xs) ==> !Sensitive(HearAll(m, zs), x, y)
  }

  /** Wherever some of the members lead, no two others are order-sensitive. */
  ghost predicate Calm(m: Option<Belief>, xs: seq<Observation>) {
    forall zs: seq<Observation>, x: Observation, y: Observation :: CalmAfter(m, xs, zs, x, y)
  }

  /** Every part comes to one belief in every order. */
  ghost predicate PartsHaveOneOutcome(m: Option<Belief>, xs: seq<Observation>) {
    forall ys: seq<Observation> | Part(ys, xs) :: OneOutcome(m, ys)
  }

  lemma CalmParts(m: Option<Belief>, xs: seq<Observation>, ys: seq<Observation>)
    requires Calm(m, xs) && Part(ys, xs)
    ensures Calm(m, ys)
  {
    forall zs: seq<Observation>, x: Observation, y: Observation ensures CalmAfter(m, ys, zs, x, y) {
      assert CalmAfter(m, xs, zs, x, y);
    }
  }

  lemma HearTwo(m: Option<Belief>, zs: seq<Observation>, x: Observation, y: Observation)
    ensures HearAll(m, zs + [x, y]) == Some(Hear(Some(Hear(HearAll(m, zs), x)), y))
  {
    assert zs + [x, y] == (zs + [x]) + [y];
    HearAllAppend(m, zs, x);
    HearAllAppend(m, zs + [x], y);
  }

  lemma SwappedEnd(zs: seq<Observation>, x: Observation, y: Observation)
    ensures multiset(zs + [y, x]) == multiset(zs + [x, y])
  {
  }

  lemma SameOutcome(m: Option<Belief>, xs: seq<Observation>, ys: seq<Observation>)
    requires OneOutcome(m, xs) && multiset(ys) == multiset(xs)
    ensures HearAll(m, ys) == HearAll(m, xs)
  {
  }

  lemma FreePairSwaps(m: Option<Belief>, zs: seq<Observation>, x: Observation, y: Observation)
    requires OneOutcome(m, zs + [x, y])
    ensures var w := HearAll(m, zs);
            Hear(Some(Hear(w, x)), y) == Hear(Some(Hear(w, y)), x)
  {
    SwappedEnd(zs, x, y);
    SameOutcome(m, zs + [x, y], zs + [y, x]);
    HearTwo(m, zs, x, y);
    HearTwo(m, zs, y, x);
  }

  /** A pair whose order shows is a part whose order shows. */
  lemma OneOutcomeMeansCalm(m: Option<Belief>, xs: seq<Observation>)
    requires PartsHaveOneOutcome(m, xs)
    ensures Calm(m, xs)
  {
    forall zs: seq<Observation>, x: Observation, y: Observation ensures CalmAfter(m, xs, zs, x, y) {
      if Part(zs + [x, y], xs) {
        FreePairSwaps(m, zs, x, y);
        HearTwoIff(HearAll(m, zs), x, y);
      }
    }
  }

  /** Two neighbours exchanged. */
  lemma NeighboursSwap(m: Option<Belief>, pre: seq<Observation>, x: Observation, y: Observation, post: seq<Observation>)
    requires !Sensitive(HearAll(m, pre), x, y)
    ensures HearAll(m, (pre + [x, y]) + post) == HearAll(m, (pre + [y, x]) + post)
  {
    HearTwo(m, pre, x, y);
    HearTwo(m, pre, y, x);
    HearTwoIff(HearAll(m, pre), x, y);
    HearAllJoins(m, pre + [x, y], post);
    HearAllJoins(m, pre + [y, x], post);
  }

  /** The same list, with the neighbour of `o` brought forward. */
  lemma Regrouped<T>(pre: seq<T>, o: T, p: T, rest: seq<T>)
    ensures pre + [o] + ([p] + rest) == (pre + [o, p]) + rest
    ensures (pre + [p]) + [o] + rest == (pre + [p, o]) + rest
    ensures (pre + [p]) + rest + [o] == pre + ([p] + rest) + [o]
  {
  }

  lemma FrontIsPart(front: seq<Observation>, rest: seq<Observation>, xs: seq<Observation>)
    requires Part(front + rest, xs)
    ensures Part(front, xs)
  {
  }

  lemma SwappedIsPart(pre: seq<Observation>, x: Observation, y: Observation, post: seq<Observation>, xs: seq<Observation>)
    requires Part((pre + [x, y]) + post, xs)
    ensures Part((pre + [y, x]) + post, xs)
  {
    SwappedEnd(pre, x, y);
    assert multiset((pre + [y, x]) + post) == multiset(pre + [y, x]) + multiset(post);
  }

  /** One observation moved to the end, neighbour by neighbour. */
  lemma {:induction false} MovedLast(m: Option<Belief>, xs: seq<Observation>, pre: seq<Observation>, o: Observation,
                                     post: seq<Observation>)
    requires Calm(m, xs) && Part(pre + [o] + post, xs)
    ensures HearAll(m, pre + [o] + post) == HearAll(m, pre + post + [o])
    decreases |post|
  {
    if post == [] {
      assert pre + [o] + post == pre + post + [o];
    } else {
      var p, rest := post[0], post[1..];
      assert post == [p] + rest;
      Regrouped(pre, o, p, rest);
      FrontIsPart(pre + [o, p], rest, xs);
      assert CalmAfter(m, xs, pre, o, p);
      NeighboursSwap(m, pre, o, p, rest);
      SwappedIsPart(pre, o, p, rest, xs);
      MovedLast(m, xs, pre + [p], o, rest);
    }
  }

  /** The last of one arrangement, found in another. */
  lemma Found(xs: seq<Observation>, ys: seq<Observation>) returns (pre: seq<Observation>, post: seq<Observation>)
    requires xs != [] && multiset(ys) == multiset(xs)
    ensures var last := xs[|xs| - 1];
            ys == pre + [last] + post && multiset(pre + post) == multiset(xs[..|xs| - 1])
  {
    var init, last := xs[..|xs| - 1], xs[|xs| - 1];
    assert xs == init + [last];
    assert last in multiset(ys);
    var i :| 0 <= i < |ys| && ys[i] == last;
    pre, post := ys[..i], ys[i + 1..];
    assert ys == pre + [last] + post;
    assert multiset(ys) == multiset(pre + post) + multiset{last};
    assert multiset(xs) == multiset(init) + multiset{last};
    assert multiset(pre + post) == multiset(ys) - multiset{last};
  }

  lemma InitIsPart(xs: seq<Observation>)
    requires xs != []
    ensures Part(xs[..|xs| - 1], xs) && xs == xs[..|xs| - 1] + [xs[|xs| - 1]]
  {
    assert xs == xs[..|xs| - 1] + [xs[|xs| - 1]];
  }

  lemma NothingElse(ys: seq<Observation>, xs: seq<Observation>)
    requires multiset(ys) == multiset(xs) && xs == []
    ensures ys == []
  {
    assert |ys| == |multiset(ys)|;
  }

  /** A calm collection comes to one belief in every order. */
  lemma {:induction false} CalmMeansOneOutcome(m: Option<Belief>, xs: seq<Observation>, ys: seq<Observation>)
    requires Calm(m, xs) && multiset(ys) == multiset(xs)
    ensures HearAll(m, ys) == HearAll(m, xs)
    decreases |xs|
  {
    if xs == [] {
      NothingElse(ys, xs);
    } else {
      var init, last := xs[..|xs| - 1], xs[|xs| - 1];
      var pre, post := Found(xs, ys);
      MovedLast(m, xs, pre, last, post);
      InitIsPart(xs);
      CalmParts(m, xs, init);
      CalmMeansOneOutcome(m, init, pre + post);
      HearAllAppend(m, pre + post, last);
    }
  }

  /**
   Order independence of any observations: all parts of a collection come to one belief each,
   whatever the order, if and only if no two members are order-sensitive where others of them lead.
   */
  lemma PartsHaveOneOutcomeIff(m: Option<Belief>, xs: seq<Observation>)
    ensures PartsHaveOneOutcome(m, xs) <==> Calm(m, xs)
  {
    if PartsHaveOneOutcome(m, xs) {
      OneOutcomeMeansCalm(m, xs);
    }
    if Calm(m, xs) {
      forall ys: seq<Observation>, zs: seq<Observation> | Part(ys, xs) && multiset(zs) == multiset(ys)
        ensures HearAll(m, zs) == HearAll(m, ys)
      {
        CalmParts(m, xs, ys);
        CalmMeansOneOutcome(m, ys, zs);
      }
    }
  }

  // ----------------------------------------------------- full statements, from nothing

  /** The most trusted all say one thing, and no less trusted one says it. */
  ghost predicate Foremost(xs: seq<Observation>, t: Observation) {
    && t in xs && (forall o | o in xs :: o.confidence <= t.confidence)
    && forall o | o in xs :: Stated(o) == Stated(t) <==> o.confidence == t.confidence
  }

  /** A belief no full statement repeats and every one outweighs. */
  function Blank(d: Day): Belief {
    Belief(Values(d, None, None), 0.0)
  }

  ghost predicate Trusted(xs: seq<Observation>) {
    forall o | o in xs :: o.confidence >= 0.0
  }

  lemma FirstOnBlank(d: Day, o: Observation)
    requires FullyStated(o) && o.confidence >= 0.0
    ensures Weigh(Blank(d), o) == First(o)
  {
  }

  lemma {:induction false} HearFromBlank(d: Day, xs: seq<Observation>)
    requires AllFull(xs) && Trusted(xs) && xs != []
    ensures HearAll(None, xs) == Some(WeighAll(Blank(d), xs))
  {
    var init, last := xs[..|xs| - 1], xs[|xs| - 1];
    LastOrBefore(xs);
    if init == [] {
      FirstOnBlank(d, last);
    } else {
      HearFromBlank(d, init);
    }
  }

  lemma UndisputedOnBlank(d: Day, xs: seq<Observation>)
    requires AllFull(xs) && Trusted(xs) && xs != []
    ensures Undisputed(Blank(d), xs) <==> exists t :: Foremost(xs, t)
  {
    assert xs[0] in xs;
    assert !NoNews(Blank(d), xs);
    forall t ensures Decisive(Blank(d), xs, t) <==> Foremost(xs, t) {
    }
  }

  /** What foremost statements come to, in whatever order: themselves. */
  lemma ForemostIsBelieved(xs: seq<Observation>, ys: seq<Observation>, t: Observation)
    requires AllFull(xs) && Trusted(xs) && Foremost(xs, t) && multiset(ys) == multiset(xs)
    ensures HearAll(None, ys) == Some(First(t))
  {
    var d := t.date;
    SameElements(xs, ys);
    assert t in ys;
    HearFromBlank(d, ys);
    assert Decisive(Blank(d), xs, t);
    UndisputedOutcome(Blank(d), xs, ys);
  }

  /** From nothing, full statements come to one belief in every order exactly when some are foremost. */
  lemma FromNothingIff(xs: seq<Observation>)
    requires AllFull(xs) && Trusted(xs) && xs != []
    ensures OneOutcome(None, xs) <==> exists t :: Foremost(xs, t)
  {
    var d := xs[0].date;
    forall ys: seq<Observation> | multiset(ys) == multiset(xs)
      ensures HearAll(None, ys) == Some(WeighAll(Blank(d), ys))
    {
      SameElements(xs, ys);
      assert xs[0] in ys;
      HearFromBlank(d, ys);
    }
    assert OneOutcome(None, xs) <==> OrderFree(Blank(d), xs);
    OrderFreeIff(Blank(d), xs);
    UndisputedOnBlank(d, xs);
  }
}
