/**
 The decisions the clean-up script was written with, and the proof that they hang together, so
 that the results about consistent decisions are results about these. Names of several words are
 written word by word.
 */
module CleanupDecisions {
  import opened Prelude
  import opened Ascii
  import opened Identity
  import opened CleanupPlan

  // ---------------------------------------------------------------------- spelling

  /** A word: not empty, no whitespace. */
  ghost predicate Word(s: string) {
    s != [] && forall i | 0 <= i < |s| :: !IsSpace(s[i])
  }

  /** A text with single spaces inside and none at its ends. */
  ghost predicate Phrase(s: string) {
    s != [] && Collapsed(s) && !IsSpace(s[0]) && !IsSpace(s[|s| - 1])
  }

  function Join(a: string, b: string): (r: string)
    ensures |r| == |a| + 1 + |b| && r[|a|] == ' '
    ensures forall i | 0 <= i < |a| :: r[i] == a[i]
    ensures forall i | 0 <= i < |b| :: r[|a| + 1 + i] == b[i]
  {
    a + [' '] + b
  }

  lemma WordIsPhrase(a: string)
    requires Word(a)
    ensures Phrase(a)
  {
  }

  lemma JoinIsPhrase(a: string, b: string)
    requires Phrase(a) && Word(b)
    ensures Phrase(Join(a, b))
  {
    var s := Join(a, b);
    forall i | 0 <= i < |s| ensures IsSpace(s[i]) ==> s[i] == ' ' {
      if i > |a| {
        assert s[i] == b[i - |a| - 1];
      }
    }
    forall i, j | 0 <= i < j < |s| && j == i + 1 ensures s[i] != ' ' || s[j] != ' ' {
      if j > |a| {
        assert i == |a| || s[i] == b[i - |a| - 1];
        assert s[j] == b[j - |a| - 1];
      }
    }
    assert s[|s| - 1] == b[|b| - 1];
  }

  lemma LowerJoin(a: string, b: string)
    ensures Lower(Join(a, b)) == Join(Lower(a), Lower(b))
  {
    var left, right := Lower(Join(a, b)), Join(Lower(a), Lower(b));
    forall i | 0 <= i < |left| ensures left[i] == right[i] {
      if i > |a| {
        assert Join(a, b)[i] == b[i - |a| - 1] && right[i] == Lower(b)[i - |a| - 1];
      }
    }
  }

  /** A phrase, with or without its final period, comes out in lower case without it. */
  lemma PhraseCanonical(s: string)
    requires Phrase(s) && s[|s| - 1] != '.'
    ensures Canonical(s) == Lower(s) && Canonical(s + ['.']) == Lower(s)
  {
    CanonicalOfTidy(s);
    var t := s + ['.'];
    assert Trimmed(t) && DropPeriod(t) == s;
    assert Collapsed(t);
    CanonicalOfTidy(t);
  }

  // --------------------------------------------------------------------- decisions

  const HUL_FIRST := "Hindustan"
  const HUL_SECOND := "Unilever"
  const HUL_THIRD := "Ltd"
  const HUL_NAME := Join(Join(HUL_FIRST, HUL_SECOND), HUL_THIRD)
  const HUL_FINAL := Join(Join("hindustan", "unilever"), "ltd")
  const ZANSKAR := "zanskar"

  const EXPECTED_EVENTS: map<nat, Expected> := map[
    54 := Expected("least", "OA", "2026-08-26", Some("09:45"), Some("online"), 0.97, "rescheduled", 10),
    55 := Expected("stipulated", "Interview", "2026-08-20", Some("09:30"), Some("zoom"), 1.0, "scheduled", 0),
    68 := Expected(HUL_NAME + ['.'], "Registration", "2026-08-26", Some("23:45"), Some("campus"), 1.0, "scheduled", 0),
    71 := Expected(HUL_NAME, "Registration", "2026-08-26", Some("23:45"), Some("tpo"), 1.0, "scheduled", 0),
    72 := Expected(ZANSKAR, "Registration", "2026-08-27", Some("18:30"), Some("campus"), 0.97, "scheduled", 0),
    76 := Expected("https", "OA", "2026-08-27", Some("16:45"), Some("HackerRank"), 1.0, "scheduled", 0),
    77 := Expected("Zanskar", "Registration", "2026-08-27", Some("23:59"), Some("tpo"), 0.93, "scheduled", 0)
  ]

  const DELETE_IDS: seq<nat> := [71, 77, 76, 55, 54]

  const APPROVED: Approved :=
    Approved(68, 71, 72, 77, DELETE_IDS, 54, 10, EXPECTED_EVENTS,
             map[37 := "TPO", 17 := "naukri.com", 23 := "ti"], "campus", "tpo", HUL_FINAL, 77, 263)

  lemma FirstWord()
    ensures Word(HUL_FIRST) && Lower(HUL_FIRST) == "hindustan"
  {
  }

  lemma SecondWord()
    ensures Word(HUL_SECOND) && Lower(HUL_SECOND) == "unilever"
  {
  }

  lemma ThirdWord()
    ensures Word(HUL_THIRD) && Lower(HUL_THIRD) == "ltd" && HUL_THIRD[|HUL_THIRD| - 1] != '.'
  {
  }

  /** The kept row's company comes out as its post-condition spells it. */
  lemma KeptIsSpelt()
    ensures Canonical(HUL_NAME + ['.']) == HUL_FINAL
  {
    FirstWord();
    SecondWord();
    ThirdWord();
    WordIsPhrase(HUL_FIRST);
    JoinIsPhrase(HUL_FIRST, HUL_SECOND);
    JoinIsPhrase(Join(HUL_FIRST, HUL_SECOND), HUL_THIRD);
    LowerJoin(HUL_FIRST, HUL_SECOND);
    LowerJoin(Join(HUL_FIRST, HUL_SECOND), HUL_THIRD);
    PhraseCanonical(HUL_NAME);
  }

  lemma SparedIsCanonical()
    ensures Canonical(ZANSKAR) == ZANSKAR
  {
    assert Word(ZANSKAR) && Lower(ZANSKAR) == ZANSKAR && ZANSKAR[|ZANSKAR| - 1] != '.';
    WordIsPhrase(ZANSKAR);
    PhraseCanonical(ZANSKAR);
  }

  lemma ExpectedKept()
    ensures 68 in EXPECTED_EVENTS && EXPECTED_EVENTS[68].updates == 0 && EXPECTED_EVENTS[68].company == HUL_NAME + ['.']
  {
  }

  lemma ExpectedSpared()
    ensures 72 in EXPECTED_EVENTS && EXPECTED_EVENTS[72].company == ZANSKAR
  {
  }

  lemma DeleteIds()
    ensures 71 in DELETE_IDS && 77 in DELETE_IDS && 54 in DELETE_IDS && 68 !in DELETE_IDS && 72 !in DELETE_IDS
    ensures forall i, j | 0 <= i < j < |DELETE_IDS| :: DELETE_IDS[i] != DELETE_IDS[j]
  {
    assert DELETE_IDS[0] == 71 && DELETE_IDS[1] == 77 && DELETE_IDS[4] == 54;
  }

  lemma IdsAreConsistent()
    ensures ConsistentIds(APPROVED)
  {
    DeleteIds();
  }

  lemma SurvivorsAreConsistent()
    ensures ConsistentSurvivors(APPROVED)
  {
    KeptIsSpelt();
    SparedIsCanonical();
    ExpectedKept();
    ExpectedSpared();
  }

  /** The script's decisions are consistent. */
  lemma DecisionsAreConsistent()
    ensures Consistent(APPROVED)
  {
    IdsAreConsistent();
    SurvivorsAreConsistent();
  }
}
