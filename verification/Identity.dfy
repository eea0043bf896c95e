/**
 Identity tokens: the recognition key, and what extraction lets into it.

 A key is the exact string `company|stage|date`. Keys are compared as whole strings, so
 they identify a (company, stage, date) triple only when the last two parts hold no bar.
 The stage vocabulary and the ISO date guarantee that; the company may hold anything.
 */
module Identity {
  import opened Prelude
  import opened Ascii

  // ---------------------------------------------------------------------- keys

  function EventKey(company: string, stage: string, date: string): string {
    company + "|" + stage + "|" + date
  }

  /** A string is split in only one way at its last bar. */
  lemma LastBarSplit(a: string, b: string, c: string, d: string)
    requires a + "|" + b == c + "|" + d
    requires '|' !in b && '|' !in d
    ensures a == c && b == d
  {
    var left, right := a + "|" + b, c + "|" + d;
    assert left[|a|] == '|' && right[|c|] == '|';
    assert forall i | |a| < i < |left| :: left[i] == b[i - |a| - 1];
    assert forall i | |c| < i < |right| :: right[i] == d[i - |c| - 1];
    assert |a| == |c|;
    assert a == left[..|a|] && c == right[..|a|];
    assert b == left[|a| + 1..] && d == right[|a| + 1..];
  }

  /** Equal keys mean equal parts, whatever the companies hold. */
  lemma KeyInjective(c1: string, s1: string, d1: string, c2: string, s2: string, d2: string)
    requires '|' !in s1 && '|' !in s2 && '|' !in d1 && '|' !in d2
    ensures EventKey(c1, s1, d1) == EventKey(c2, s2, d2) <==> c1 == c2 && s1 == s2 && d1 == d2
  {
    if EventKey(c1, s1, d1) == EventKey(c2, s2, d2) {
      LastBarSplit(c1 + "|" + s1, d1, c2 + "|" + s2, d2);
      LastBarSplit(c1, s1, c2, s2);
    }
  }

  // -------------------------------------------------------------------- stages

  const UNKNOWN := "unknown"

  /** What may reach a key as a stage: a round, or the marker for "not extracted". */
  predicate IsStage(s: string) {
    s == "OA" || s == "Interview" || s == "PPT" || s == "Registration" || s == UNKNOWN
  }

  /** The model's round in the canonical spelling, if it is one the system speaks. */
  function CanonicalStage(stage: Option<string>): Option<string> {
    if stage.None? then None
    else
      var normalized := Lower(Trim(stage.value));
      if normalized == "oa" then Some("OA")
      else if normalized == "interview" then Some("Interview")
      else if normalized == "ppt" then Some("PPT")
      else if normalized == "registration" then Some("Registration")
      else None
  }

  /** An accepted round is in the vocabulary. */
  lemma CanonicalStageIsStage(stage: Option<string>)
    ensures CanonicalStage(stage).Some? ==> IsStage(CanonicalStage(stage).value)
  {
  }

  lemma StageHasNoBar(s: string)
    requires IsStage(s)
    ensures '|' !in s
  {
  }

  // ----------------------------------------------------------------- companies

  /** `replace(/\s+/g, " ")`: every whitespace run becomes one space. */
  function Collapse(s: string): string {
    if s == [] then []
    else
      var rest := Collapse(s[1..]);
      if !IsSpace(s[0]) then [s[0]] + rest
      else if rest != [] && rest[0] == ' ' then rest
      else [' '] + rest
  }

  /** `replace(/\.$/, "")`: one trailing period goes. */
  function DropPeriod(s: string): string {
    if s != [] && s[|s| - 1] == '.' then s[..|s| - 1] else s
  }

  /** One spelling per company. A value that is not a string becomes the placeholder. */
  function CanonicalCompany(company: Option<string>): string {
    match company
    case Some(c) => Lower(DropPeriod(Collapse(Trim(c))))
    case None => UNKNOWN
  }

  function Canonical(company: string): string {
    CanonicalCompany(Some(company))
  }

  /** No whitespace but single spaces. */
  ghost predicate Collapsed(s: string) {
    && (forall i | 0 <= i < |s| :: IsSpace(s[i]) ==> s[i] == ' ')
    && (forall i, j | 0 <= i < j < |s| && j == i + 1 :: s[i] != ' ' || s[j] != ' ')
  }

  lemma {:induction false} CollapseShape(s: string)
    ensures Collapsed(Collapse(s))
  {
    if s != [] {
      var rest := Collapse(s[1..]);
      CollapseShape(s[1..]);
      var head := if IsSpace(s[0]) then ' ' else s[0];
      assert Collapse(s) == rest || Collapse(s) == [head] + rest;
      if Collapse(s) == [head] + rest && rest != [] {
        assert head != ' ' || rest[0] != ' ';
      }
    }
  }

  lemma CollapseHead(s: string)
    ensures s != [] && !IsSpace(s[0]) ==> Collapse(s) != [] && Collapse(s)[0] == s[0]
  {
  }

  lemma {:induction false} CollapseFixes(s: string)
    requires Collapsed(s)
    ensures Collapse(s) == s
  {
    if s != [] {
      var tail := s[1..];
      assert Collapsed(tail) by {
        forall i, j | 0 <= i < j < |tail| && j == i + 1
          ensures tail[i] != ' ' || tail[j] != ' '
        {
          assert s[i + 1] != ' ' || s[j + 1] != ' ';
        }
      }
      CollapseFixes(tail);
      assert tail != [] ==> s[0] != ' ' || s[1] != ' ';
    }
  }

  predicate EndsBadly(s: string) {
    s != [] && (s[|s| - 1] == '.' || s[|s| - 1] == ' ')
  }

  /** Lower case, single spaces, none in front. */
  ghost predicate CanonicalForm(s: string) {
    Collapsed(s) && (s == [] || !IsSpace(s[0])) && Lower(s) == s
  }

  /** The shape of every canonical company. */
  lemma CanonicalShape(c: string)
    ensures CanonicalForm(Canonical(c))
  {
    var t := Trim(c);
    TrimIsTrimmed(c);
    CollapseShape(t);
    CollapseHead(t);
    var v := DropPeriod(Collapse(t));
    assert Collapsed(v);
    LowerIdempotent(v);
    var r := Lower(v);
    assert forall i | 0 <= i < |v| :: IsSpace(r[i]) == IsSpace(v[i]) && (r[i] == ' ' <==> v[i] == ' ');
    assert Collapsed(r);
  }

  /** A canonical form that ends in a period or a space is changed by another pass; any other is not. */
  lemma FormFixedPoint(r: string)
    requires CanonicalForm(r)
    ensures Canonical(r) == r <==> !EndsBadly(r)
  {
    var t := Trim(r);
    TrimIsTrimmed(r);
    if r != [] && r[|r| - 1] == ' ' {
      assert |t| < |r|;
      CollapseNoLonger(t);
      assert |Canonical(r)| < |r|;
    } else {
      assert Trimmed(r);
      CanonicalOfTidy(r);
    }
  }

  /** Canonicalising twice differs from once exactly when one pass leaves a final period or space. */
  lemma CanonicalFixedPoint(c: string)
    ensures Canonical(Canonical(c)) == Canonical(c) <==> !EndsBadly(Canonical(c))
  {
    CanonicalShape(c);
    FormFixedPoint(Canonical(c));
  }

  lemma {:induction false} CollapseNoLonger(s: string)
    ensures |Collapse(s)| <= |s|
  {
    if s != [] {
      CollapseNoLonger(s[1..]);
    }
  }

  /** One pass is not always enough. */
  lemma CanonicalNotIdempotent()
    ensures Canonical("x..") == "x." && Canonical("x.") == "x"
  {
    CanonicalOfTidy("x..");
    CanonicalOfTidy("x.");
    assert DropPeriod("x..") == "x." && DropPeriod("x.") == "x";
  }

  lemma CanonicalOfTidy(s: string)
    requires Collapsed(s) && Trimmed(s)
    ensures Canonical(s) == Lower(DropPeriod(s))
  {
    TrimIsTrimmed(s);
    CollapseFixes(s);
  }

  // ---------------------------------------------------------------- viability

  const NOISE: set<string> := {"http", "https", "www", "for", "the", "list", "students", "all", "our", "dear", "you", "this"}

  /** Whether a company is a value rather than a placeholder or a fragment. */
  predicate ResolvedCompany(company: Option<string>) {
    && company.Some?
    && var value := Trim(company.value);
       && value != [] && Lower(value) != UNKNOWN
       && Lower(value) !in NOISE
       && |value| >= 2
  }

  // --------------------------------------------------------------------- merge

  /** A venue, and whether the message stated it. */
  datatype VenueMeta = VenueMeta(value: Option<string>, isExplicit: bool)

  /** What the model returned. A field it omitted, or gave in another type, is `None`. */
  datatype AiFields = AiFields(company: Option<string>, stage: Option<string>, date: Option<string>,
                               time: Option<string>, venue: Option<string>)

  /** What the patterns found. */
  datatype PatternFields = PatternFields(company: string, stage: string, date: Option<string>,
                                         time: Option<string>, venue: VenueMeta)

  datatype Extraction = Extraction(company: string, stage: string, date: Option<string>,
                                   time: Option<string>, venue: VenueMeta, confidence: real)

  /** The patterns' company wins whenever they resolved one. */
  function ChosenCompany(ai: Option<string>, regex: string): string {
    if ResolvedCompany(Some(regex)) then regex
    else if ResolvedCompany(ai) then ai.value
    else regex
  }

  function MergeExtraction(ai: AiFields, regex: PatternFields, confidence: real): Extraction {
    Extraction(
      Canonical(ChosenCompany(ai.company, regex.company)),
      CanonicalStage(ai.stage).GetOr(regex.stage),
      if ai.date.Some? && ai.date.value != "" then ai.date else regex.date,
      if ai.time.Some? then ai.time else regex.time,
      if ai.venue.Some? then VenueMeta(ai.venue, true) else regex.venue,
      confidence)
  }

  /** What the rest of the pipeline relies on: a stage of the vocabulary, confidence within [0,1]. */
  predicate WellFormed(x: Extraction) {
    IsStage(x.stage) && 0.0 <= x.confidence <= 1.0
  }

  /** Whatever the model answers, the merged stage is in the vocabulary. */
  lemma MergedStage(ai: AiFields, regex: PatternFields, confidence: real)
    requires IsStage(regex.stage)
    ensures IsStage(MergeExtraction(ai, regex, confidence).stage)
    ensures WellFormed(MergeExtraction(ai, regex, confidence)) <==> 0.0 <= confidence <= 1.0
  {
    CanonicalStageIsStage(ai.stage);
  }

  /** The merged company is canonical, and a company the patterns resolved is never displaced by the model's. */
  lemma MergedCompany(ai: AiFields, ai': AiFields, regex: PatternFields, confidence: real)
    ensures CanonicalForm(MergeExtraction(ai, regex, confidence).company)
    ensures ResolvedCompany(Some(regex.company)) ==>
              MergeExtraction(ai, regex, confidence).company == MergeExtraction(ai', regex, confidence).company
  {
    var chosen := ChosenCompany(ai.company, regex.company);
    CanonicalShape(chosen);
    assert MergeExtraction(ai, regex, confidence).company == Canonical(chosen);
  }
}
