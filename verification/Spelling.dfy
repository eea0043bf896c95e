/**
 What the identity tokens say, without the operations that compute them: which round a model's
 answer names, what a canonical company consists of, which companies are values at all, and where
 each field of a merged extraction comes from.
 */
module Spelling {
  import opened Prelude
  import opened Ascii
  import opened Identity

  // ------------------------------------------------------------------------ keys

  /** A key is company, stage and date in that order, a bar between two. */
  lemma KeyIs(company: string, stage: string, date: string)
    ensures var k, n := EventKey(company, stage, date), |company| + 1 + |stage|;
            |k| == n + 1 + |date| && k[..|company|] == company && k[|company|] == '|' &&
            k[|company| + 1..n] == stage && k[n] == '|' && k[n + 1..] == date
  {
  }

  // ---------------------------------------------------------------------- rounds

  lemma LowerWords()
    ensures Lower("oa") == "oa" && Lower("interview") == "interview" && Lower("ppt") == "ppt"
    ensures Lower("registration") == "registration" && Lower("unknown") == "unknown"
  {
  }

  /** The model's answer names a round exactly when it says one of the four, whatever its case and the blanks around it. */
  lemma CanonicalStageIs(stage: Option<string>, r: string)
    ensures CanonicalStage(stage) == Some(r) <==>
              stage.Some? &&
              ((r == "OA" && Says(stage.value, "oa")) || (r == "Interview" && Says(stage.value, "interview")) ||
               (r == "PPT" && Says(stage.value, "ppt")) || (r == "Registration" && Says(stage.value, "registration")))
  {
    if stage.Some? {
      LowerWords();
      SaysIs(stage.value, "oa");
      SaysIs(stage.value, "interview");
      SaysIs(stage.value, "ppt");
      SaysIs(stage.value, "registration");
    }
  }

  // ------------------------------------------------------------------- companies

  /** The words of a text: its longest stretches without a blank. */
  function Words(s: string): seq<string> {
    if s == [] then []
    else
      var rest := Words(s[1..]);
      if BlankCode(s[0]) then rest
      else if |s| == 1 || BlankCode(s[1]) || rest == [] then [[s[0]]] + rest
      else [[s[0]] + rest[0]] + rest[1..]
  }

  /** Words with one space between two. */
  function Joined(ws: seq<string>): string {
    if ws == [] then [] else if |ws| == 1 then ws[0] else ws[0] + [' '] + Joined(ws[1..])
  }

  lemma {:induction false} StartKeepsWords(s: string)
    ensures Words(TrimStart(s)) == Words(s)
  {
    if s != [] && IsSpace(s[0]) {
      IsSpaceIs(s[0]);
      StartKeepsWords(s[1..]);
    }
  }

  lemma BlankEndKeepsWords(s: string, c: char)
    requires BlankCode(c)
    ensures Words(s + [c]) == Words(s)
    decreases |s|
  {
    if s != [] {
      assert (s + [c])[1..] == s[1..] + [c];
      BlankEndKeepsWords(s[1..], c);
    } else {
      assert (s + [c])[1..] == [];
    }
  }

  lemma {:induction false} EndKeepsWords(s: string)
    ensures Words(TrimEnd(s)) == Words(s)
    decreases |s|
  {
    if s != [] && IsSpace(s[|s| - 1]) {
      var init, last := s[..|s| - 1], s[|s| - 1];
      IsSpaceIs(last);
      assert s == init + [last];
      BlankEndKeepsWords(init, last);
      EndKeepsWords(init);
    }
  }

  lemma {:induction false} HasWords(s: string)
    requires s != [] && !BlankCode(s[|s| - 1])
    ensures Words(s) != []
  {
    if |s| > 1 {
      HasWords(s[1..]);
    }
  }

  lemma BlankFirst(c: char, rest: string)
    requires BlankCode(c)
    ensures Words([c] + rest) == Words(rest)
    ensures Collapse([c] + rest) ==
              if Collapse(rest) != [] && Collapse(rest)[0] == ' ' then Collapse(rest) else [' '] + Collapse(rest)
  {
    IsSpaceIs(c);
    assert ([c] + rest)[1..] == rest;
  }

  lemma WordEnds(c: char, rest: string)
    requires !BlankCode(c) && (rest == [] || BlankCode(rest[0]))
    ensures Words([c] + rest) == [[c]] + Words(rest) && Collapse([c] + rest) == [c] + Collapse(rest)
  {
    IsSpaceIs(c);
    assert ([c] + rest)[1..] == rest;
  }

  lemma WordGoesOn(c: char, rest: string)
    requires !BlankCode(c) && rest != [] && !BlankCode(rest[0]) && Words(rest) != []
    ensures Words([c] + rest) == [[c] + Words(rest)[0]] + Words(rest)[1..] && Collapse([c] + rest) == [c] + Collapse(rest)
  {
    IsSpaceIs(c);
    assert ([c] + rest)[1..] == rest;
  }

  lemma OneMoreWord(w: string, ws: seq<string>)
    requires ws != []
    ensures Joined([w] + ws) == w + [' '] + Joined(ws)
  {
    assert ([w] + ws)[1..] == ws;
  }

  /** What collapsing makes of a text that does not end in a blank: its words, behind a space if it began with a blank. */
  ghost predicate Collapses(s: string) {
    s != [] && Collapse(s) == (if BlankCode(s[0]) then [' '] else []) + Joined(Words(s))
  }

  lemma CollapseStep(c: char, rest: string)
    requires rest != [] && !BlankCode(rest[|rest| - 1]) && Collapses(rest)
    ensures Collapses([c] + rest)
  {
    var s := [c] + rest;
    assert s[0] == c;
    HasWords(rest);
    JoinedStarts(rest);
    if BlankCode(c) {
      BlankFirst(c, rest);
    } else if BlankCode(rest[0]) {
      WordEnds(c, rest);
      OneMoreWord([c], Words(rest));
    } else {
      WordGoesOn(c, rest);
      JoinedGrows(c, Words(rest));
    }
  }

  lemma {:induction false} CollapseJoins(s: string)
    requires s != [] && !BlankCode(s[|s| - 1])
    ensures Collapses(s)
  {
    assert s == [s[0]] + s[1..];
    if |s| == 1 {
      WordEnds(s[0], s[1..]);
    } else {
      CollapseJoins(s[1..]);
      CollapseStep(s[0], s[1..]);
    }
  }

  lemma JoinedStarts(s: string)
    requires s != [] && !BlankCode(s[|s| - 1])
    ensures Joined(Words(s)) != [] && Joined(Words(s))[0] != ' '
  {
    HasWords(s);
    WordsStart(s);
    JoinedBegins(Words(s));
  }

  lemma JoinedBegins(ws: seq<string>)
    requires ws != [] && ws[0] != []
    ensures Joined(ws) != [] && Joined(ws)[0] == ws[0][0]
  {
  }

  lemma {:induction false} WordsStart(s: string)
    ensures Words(s) != [] ==> Words(s)[0] != [] && !BlankCode(Words(s)[0][0])
  {
    if s != [] {
      WordsStart(s[1..]);
    }
  }

  lemma JoinedGrows(c: char, ws: seq<string>)
    requires ws != []
    ensures Joined([[c] + ws[0]] + ws[1..]) == [c] + Joined(ws)
  {
    var more := [[c] + ws[0]] + ws[1..];
    assert more[1..] == ws[1..];
  }

  lemma TrimKeepsWords(c: string)
    ensures Words(Trim(c)) == Words(c)
  {
    StartKeepsWords(c);
    EndKeepsWords(TrimStart(c));
  }

  lemma TrimmedCollapses(t: string)
    requires Trimmed(t)
    ensures Collapse(t) == Joined(Words(t))
  {
    if t != [] {
      IsSpaceIs(t[0]);
      IsSpaceIs(t[|t| - 1]);
      CollapseJoins(t);
    }
  }

  lemma TrimmedJoins(c: string)
    ensures Collapse(Trim(c)) == Joined(Words(c))
  {
    TrimKeepsWords(c);
    TrimIsTrimmed(c);
    TrimmedCollapses(Trim(c));
  }

  /** A canonical company is its words, one space between two, without one final period, in lower case. */
  lemma CanonicalIs(c: string)
    ensures var t := Joined(Words(c));
            var u := if t != [] && t[|t| - 1] == '.' then t[..|t| - 1] else t;
            SameIgnoringCase(Canonical(c), u) && forall i | 0 <= i < |Canonical(c)| :: !(65 <= Canonical(c)[i] as int <= 90)
  {
    TrimmedJoins(c);
    var u := DropPeriod(Joined(Words(c)));
    LowerIdempotent(u);
    LowerIs(Lower(u), u);
  }

  // ------------------------------------------------------------------- viability

  /** The words that are no company. */
  predicate NoiseWord(w: string) {
    w in {"http", "https", "www", "for", "the", "list", "students", "all", "our", "dear", "you", "this"}
  }

  lemma NoiseIsLower(w: string)
    requires NoiseWord(w)
    ensures Lower(w) == w
  {
  }

  ghost predicate SaysNoise(c: string) {
    exists w :: NoiseWord(w) && Says(c, w)
  }

  lemma NoiseSet(w: string)
    ensures w in NOISE <==> NoiseWord(w)
  {
  }

  lemma OneNoise(c: string, w: string)
    requires NoiseWord(w)
    ensures Lower(Trim(c)) == w <==> Says(c, w)
  {
    NoiseIsLower(w);
    SaysIs(c, w);
  }

  lemma NoiseIs(c: string, v: string)
    requires v == Lower(Trim(c))
    ensures NoiseWord(v) <==> SaysNoise(c)
  {
    forall w | NoiseWord(w) ensures v == w <==> Says(c, w) {
      OneNoise(c, w);
    }
  }

  /** A company is a value exactly when, blanks aside, it has two characters and is neither the placeholder nor noise. */
  lemma ResolvedCompanyIs(company: Option<string>)
    ensures ResolvedCompany(company) <==>
              company.Some? && (exists t :: Bare(company.value, t) && |t| >= 2) &&
              !Says(company.value, "unknown") && !SaysNoise(company.value)
  {
    if company.Some? {
      var c := company.value;
      TrimIs(c, Trim(c));
      LowerWords();
      SaysIs(c, "unknown");
      NoiseIs(c, Lower(Trim(c)));
      NoiseSet(Lower(Trim(c)));
      if t :| Bare(c, t) && |t| >= 2 {
        TrimIs(c, t);
      }
    }
  }

  // ----------------------------------------------------------------------- merge

  /** Some round the model may name. */
  ghost predicate NamesRound(stage: Option<string>) {
    stage.Some? && (Says(stage.value, "oa") || Says(stage.value, "interview") || Says(stage.value, "ppt") ||
                    Says(stage.value, "registration"))
  }

  /**
   Field by field: the patterns' company when they resolved one, else the model's when that is a value,
   in canonical spelling; the model's round when it names one; the model's date unless empty, time and
   venue when it gave them, a venue of the model counting as stated; and the patterns' values otherwise.
   */
  lemma MergedFields(ai: AiFields, regex: PatternFields, confidence: real)
    ensures var m := MergeExtraction(ai, regex, confidence);
            && m.company == Canonical(if ResolvedCompany(Some(regex.company)) || !ResolvedCompany(ai.company) then regex.company
                                      else ai.company.value)
            && (NamesRound(ai.stage) ==> CanonicalStage(ai.stage) == Some(m.stage))
            && (!NamesRound(ai.stage) ==> m.stage == regex.stage)
            && (ai.date.Some? && ai.date.value != "" ==> m.date == ai.date)
            && (ai.date.None? || ai.date.value == "" ==> m.date == regex.date)
            && m.time == (if ai.time.Some? then ai.time else regex.time)
            && (ai.venue.Some? ==> m.venue.value == ai.venue && m.venue.isExplicit)
            && (ai.venue.None? ==> m.venue == regex.venue)
            && m.confidence == confidence
  {
    SomeRound(ai.stage);
  }

  lemma SomeRound(stage: Option<string>)
    ensures CanonicalStage(stage).Some? <==> NamesRound(stage)
  {
    if CanonicalStage(stage).Some? {
      CanonicalStageIs(stage, CanonicalStage(stage).value);
    }
    CanonicalStageIs(stage, "OA");
    CanonicalStageIs(stage, "Interview");
    CanonicalStageIs(stage, "PPT");
    CanonicalStageIs(stage, "Registration");
  }
}
