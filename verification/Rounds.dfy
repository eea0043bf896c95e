/**
 What contradicts what. A round is silent when it is blank or the marker for "not extracted";
 two rounds contradict each other when neither is silent and they differ, blanks around them and
 case aside. Within the vocabulary that is: both stated, and not the same.
 */
module Rounds {
  import opened Prelude
  import opened Ascii
  import opened Identity
  import opened Events

  ghost predicate Silent(stage: string) {
    Bare(stage, "") || Says(stage, "unknown")
  }

  /** Nothing against the two being one round. */
  ghost predicate Uncontradicted(c: string, i: string) {
    Silent(c) || Silent(i) || SameText(c, i)
  }

  lemma LowerNothing(s: string)
    ensures Lower(s) == "" <==> s == ""
  {
  }

  lemma LowerUnknown()
    ensures Lower("unknown") == "unknown"
  {
  }

  lemma ResolveRoundIs(stage: string)
    ensures ResolveRound(stage).None? <==> Silent(stage)
    ensures ResolveRound(stage).Some? ==> ResolveRound(stage).value == Lower(Trim(stage))
  {
    TrimIs(stage, "");
    LowerNothing(Trim(stage));
    LowerUnknown();
    SaysIs(stage, "unknown");
  }

  /** Of any two texts: they contradict exactly when neither is silent and they do not say the same. */
  lemma RelationIs(c: string, i: string)
    ensures ClassifyRound(c, i).Contradicts? <==> !Uncontradicted(c, i)
    ensures ClassifyRound(c, i).Unknown? <==> Silent(c) || Silent(i)
    ensures PassesGate(ClassifyRound(c, i)) <==> Uncontradicted(c, i)
  {
    ResolveRoundIs(c);
    ResolveRoundIs(i);
    SameTextIs(c, i);
  }

  predicate Vocabulary(s: string) {
    s in {"OA", "Interview", "PPT", "Registration", "unknown"}
  }

  lemma StageIs(s: string)
    ensures IsStage(s) <==> Vocabulary(s)
  {
  }

  lemma VocabularyLower()
    ensures Lower("OA") == "oa" && Lower("Interview") == "interview" && Lower("PPT") == "ppt"
    ensures Lower("Registration") == "registration" && Lower("unknown") == "unknown"
  {
  }

  lemma LowerApart(c: string, i: string)
    requires Vocabulary(c) && Vocabulary(i)
    ensures Lower(c) == Lower(i) <==> c == i
    ensures Lower(c) == "unknown" <==> c == "unknown"
    ensures Lower(c) != ""
  {
    VocabularyLower();
  }

  lemma VocabularyEnds(s: string)
    requires Vocabulary(s)
    ensures Trimmed(s)
  {
  }

  lemma TrimmedStays(s: string)
    requires Trimmed(s)
    ensures Trim(s) == s
  {
    TrimIsTrimmed(s);
  }

  lemma VocabularySilent(s: string)
    requires Vocabulary(s)
    ensures Silent(s) <==> s == "unknown"
  {
    VocabularyEnds(s);
    TrimmedStays(s);
    LowerApart(s, s);
    TrimIs(s, "");
    LowerNothing(s);
    LowerUnknown();
    SaysIs(s, "unknown");
  }

  lemma VocabularySame(c: string, i: string)
    requires Vocabulary(c) && Vocabulary(i)
    ensures SameText(c, i) <==> c == i
  {
    VocabularyEnds(c);
    VocabularyEnds(i);
    TrimmedStays(c);
    TrimmedStays(i);
    LowerApart(c, i);
    SameTextIs(c, i);
  }

  /** In the vocabulary: two rounds contradict exactly when both are stated and they differ. */
  lemma StagesContradict(c: string, i: string)
    requires IsStage(c) && IsStage(i)
    ensures ClassifyRound(c, i).Contradicts? <==> c != "unknown" && i != "unknown" && c != i
    ensures PassesGate(ClassifyRound(c, i)) <==> c == i || c == "unknown" || i == "unknown"
  {
    StageIs(c);
    StageIs(i);
    VocabularySilent(c);
    VocabularySilent(i);
    VocabularySame(c, i);
    RelationIs(c, i);
  }
}
