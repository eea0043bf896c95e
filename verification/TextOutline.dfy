/**
 What normalisation keeps. The outline of a text lists its characters and, between them,
 its gaps: how many line breaks a gap holds (two stand for more) and whether the text
 resumes after an indentation. The normaliser returns the one clean text that has the
 outline of its input, whitespace at the two ends aside.
 */
module TextOutline {
  import opened Ascii
  import opened TextNormalizer

  datatype Token = Mark(c: char) | Gap(breaks: nat, indented: bool)

  predicate IsGapChar(c: char) {
    c == ' ' || c == '\t' || c == '\n' || c == '\r'
  }

  /** A character standing alone. */
  function Alone(c: char): Token {
    if !IsGapChar(c) then Mark(c) else if IsBlank(c) then Gap(0, true) else Gap(1, false)
  }

  /** A character in front of a token: a gap character widens a gap. */
  function Joined(c: char, t: Token): seq<Token> {
    if t.Mark? || !IsGapChar(c) then [Alone(c), t]
    else if IsBlank(c) then [t]
    else [Gap(if t.breaks < 2 then t.breaks + 1 else 2, t.indented)]
  }

  /** One more character in front of an outline. */
  function Prepend(c: char, rest: seq<Token>): seq<Token> {
    if rest == [] then [Alone(c)] else Joined(c, rest[0]) + rest[1..]
  }

  /** A carriage return before a newline is part of the same line break. */
  function Outline(s: string): seq<Token> {
    if s == [] then []
    else if s[0] == '\r' && |s| > 1 && s[1] == '\n' then Outline(s[1..])
    else Prepend(s[0], Outline(s[1..]))
  }

  predicate IsSpaceToken(t: Token) {
    t.Gap? || IsSpace(t.c)
  }

  function DropBack(ts: seq<Token>): (r: seq<Token>)
    ensures |r| <= |ts| && r == ts[..|r|]
    ensures r == [] || !IsSpaceToken(r[|r| - 1])
    ensures forall i :: |r| <= i < |ts| ==> IsSpaceToken(ts[i])
  {
    if ts == [] || !IsSpaceToken(ts[|ts| - 1]) then ts else DropBack(ts[..|ts| - 1])
  }

  function DropFront(ts: seq<Token>): seq<Token> {
    if ts == [] || !IsSpaceToken(ts[0]) then ts else DropFront(ts[1..])
  }

  /** The outline between the first and the last visible character. */
  function Core(s: string): seq<Token> {
    DropFront(DropBack(Outline(s)))
  }

  // --------------------------------------------------------- dropping at the back

  ghost predicate AllSpace(ts: seq<Token>) {
    forall i :: 0 <= i < |ts| ==> IsSpaceToken(ts[i])
  }

  lemma DropBackOne(ts: seq<Token>, last: Token)
    requires IsSpaceToken(last)
    ensures DropBack(ts + [last]) == DropBack(ts)
  {
    assert (ts + [last])[..|ts|] == ts;
  }

  lemma LastOfTwo(a: seq<Token>, b: seq<Token>)
    requires b != []
    ensures a + b == (a + b[..|b| - 1]) + [b[|b| - 1]]
  {
  }

  lemma DropBackNone(a: seq<Token>)
    requires a == [] || !IsSpaceToken(a[|a| - 1])
    ensures DropBack(a) == a && a + [] == a
  {
  }

  lemma {:induction false} DropBackConcat(a: seq<Token>, tail: seq<Token>)
    requires AllSpace(tail) && (a == [] || !IsSpaceToken(a[|a| - 1]))
    ensures DropBack(a + tail) == a
  {
    if tail == [] {
      DropBackNone(a);
    } else {
      var init, last := tail[..|tail| - 1], tail[|tail| - 1];
      LastOfTwo(a, tail);
      DropBackConcat(a, init);
      DropBackOne(a + init, last);
    }
  }

  /** What is left at the back depends on the rest only through what is left there. */
  function Prepended(c: char, kept: seq<Token>): seq<Token> {
    if kept != [] then Prepend(c, kept) else if IsSpace(c) then [] else [Mark(c)]
  }

  lemma PrependConcat(c: char, kept: seq<Token>, tail: seq<Token>)
    requires kept != [] && !IsSpaceToken(kept[|kept| - 1])
    ensures Prepend(c, kept + tail) == Prepend(c, kept) + tail
    ensures Prepend(c, kept) != [] && !IsSpaceToken(Prepend(c, kept)[|Prepend(c, kept)| - 1])
  {
    var head := Joined(c, kept[0]);
    assert (kept + tail)[0] == kept[0];
    assert (kept + tail)[1..] == kept[1..] + tail;
    assert head + (kept[1..] + tail) == (head + kept[1..]) + tail;
    if |kept| == 1 {
      assert Prepend(c, kept) == head;
    } else {
      assert Prepend(c, kept)[|Prepend(c, kept)| - 1] == kept[|kept| - 1];
    }
  }

  lemma PrependAllSpace(c: char, rest: seq<Token>)
    requires AllSpace(rest)
    ensures IsSpace(c) ==> AllSpace(Prepend(c, rest))
    ensures !IsSpace(c) ==> Prepend(c, rest) == [Mark(c)] + rest
  {
  }

  lemma DropBackPrepend(c: char, rest: seq<Token>)
    ensures DropBack(Prepend(c, rest)) == Prepended(c, DropBack(rest))
  {
    var kept := DropBack(rest);
    var tail := rest[|kept|..];
    assert rest == kept + tail;
    if kept != [] {
      PrependConcat(c, kept, tail);
      DropBackConcat(Prepend(c, kept), tail);
    } else {
      PrependAllSpace(c, rest);
      if IsSpace(c) {
        DropBackConcat([], Prepend(c, rest));
        assert [] + Prepend(c, rest) == Prepend(c, rest);
      } else {
        DropBackConcat([Mark(c)], rest);
      }
    }
  }

  function Back(s: string): seq<Token> {
    DropBack(Outline(s))
  }

  lemma BackStep(s: string)
    requires s != [] && !(s[0] == '\r' && |s| > 1 && s[1] == '\n')
    ensures Back(s) == Prepended(s[0], Back(s[1..]))
  {
    DropBackPrepend(s[0], Outline(s[1..]));
  }

  // ------------------------------------------------------------ the passes keep it

  lemma {:induction false} UnixLinesOutline(s: string)
    ensures Outline(UnixLines(s)) == Outline(s)
    decreases |s|
  {
    if s != [] {
      UnixLinesOutline(s[1..]);
      UnixLinesResult(s);
      var r := UnixLines(s);
      if |s| > 1 && s[0] == '\r' && s[1] == '\n' {
        UnixLinesOutline(s[2..]);
        assert s[1..][1..] == s[2..];
        assert r[1..] == UnixLines(s[2..]);
      } else {
        assert r[1..] == UnixLines(s[1..]);
        assert r[0] != '\r';
      }
    }
  }

  lemma {:induction false} SqueezeOutline(s: string)
    requires Without(s, '\r')
    ensures Outline(SqueezeBlanks(s)) == Outline(s)
  {
    if s != [] {
      SqueezeOutline(s[1..]);
      var rest, r := SqueezeBlanks(s[1..]), SqueezeBlanks(s);
      if r != rest {
        assert r[1..] == rest;
      } else {
        assert Outline(rest)[0].Gap?;
      }
    }
  }

  lemma FirstToken(s: string)
    requires s != [] && Without(s, '\r')
    ensures Outline(s) != []
    ensures s[0] == '\n' ==> Outline(s)[0].Gap? && Outline(s)[0].breaks >= 1
  {
  }

  /** A space before a line break, or at the end, leaves no trace. */
  lemma SpaceBeforeBreak(rest: string)
    requires Without(rest, '\r') && (rest == [] || rest[0] == '\n')
    ensures Prepended(' ', Back(rest)) == Back(rest)
  {
    var kept := Back(rest);
    if kept != [] {
      FirstToken(rest);
      assert kept[0] == Outline(rest)[0];
      assert Joined(' ', kept[0]) == [kept[0]];
    }
  }

  lemma {:induction false} StripOutline(s: string)
    requires Without(s, '\r')
    ensures Without(StripLineEnds(s), '\r') && Back(StripLineEnds(s)) == Back(s)
  {
    if s != [] {
      StripOutline(s[1..]);
      BackStep(s);
      var rest, r := StripLineEnds(s[1..]), StripLineEnds(s);
      if s[0] == ' ' && (rest == [] || rest[0] == '\n') {
        SpaceBeforeBreak(rest);
      } else {
        assert r[1..] == rest;
        BackStep(r);
      }
    }
  }

  lemma TwoBreaks(s: string)
    requires |s| > 1 && s[0] == '\n' && s[1] == '\n' && Without(s, '\r')
    ensures Outline(s) != [] && Outline(s)[0].Gap? && Outline(s)[0].breaks == 2
  {
    var one := Outline(s[1..]);
    assert s[1..][0] == '\n';
    assert Without(s[1..], '\r');
    FirstToken(s[1..]);
    assert Outline(s) == Prepend('\n', one);
    GapsStayWithinTwo(s[1..]);
  }

  lemma {:induction false} GapsStayWithinTwo(s: string)
    ensures forall t :: t in Outline(s) && t.Gap? ==> t.breaks <= 2
  {
    if s != [] {
      GapsStayWithinTwo(s[1..]);
    }
  }

  lemma {:induction false} CapOutline(s: string)
    requires Without(s, '\r')
    ensures Without(CapNewlines(s), '\r') && Outline(CapNewlines(s)) == Outline(s)
  {
    if s != [] {
      CapOutline(s[1..]);
      var rest, r := CapNewlines(s[1..]), CapNewlines(s);
      if s[0] == '\n' && |rest| > 1 && rest[0] == '\n' && rest[1] == '\n' {
        TwoBreaks(rest);
        assert Prepend('\n', Outline(rest)) == Outline(rest);
      } else {
        assert r[1..] == rest;
      }
    }
  }

  // ---------------------------------------------------------------- trim keeps it

  lemma DropFrontPrepend(c: char, kept: seq<Token>)
    requires IsSpace(c)
    ensures DropFront(Prepended(c, kept)) == DropFront(kept)
  {
    var p := Prepended(c, kept);
    if kept != [] && kept[0].Gap? && IsGapChar(c) {
      assert p[1..] == kept[1..];
    } else if kept != [] {
      assert p[1..] == kept;
    }
  }

  lemma {:induction false} TrimStartCore(s: string)
    requires Without(s, '\r')
    ensures Core(TrimStart(s)) == Core(s)
  {
    if s != [] && IsSpace(s[0]) {
      TrimStartCore(s[1..]);
      BackStep(s);
      DropFrontPrepend(s[0], Back(s[1..]));
    }
  }

  lemma {:induction false} BackDropsSpace(s: string, c: char)
    requires Without(s, '\r') && c != '\r' && IsSpace(c)
    ensures Back(s + [c]) == Back(s)
  {
    if s == [] {
      assert s + [c] == [c];
      BackStep([c]);
    } else {
      BackDropsSpace(s[1..], c);
      BackStep(s);
      BackStep(s + [c]);
      assert (s + [c])[1..] == s[1..] + [c];
    }
  }

  lemma {:induction false} TrimEndBack(s: string)
    requires Without(s, '\r')
    ensures Back(TrimEnd(s)) == Back(s)
  {
    if s != [] && IsSpace(s[|s| - 1]) {
      var n := |s| - 1;
      TrimEndBack(s[..n]);
      BackDropsSpace(s[..n], s[n]);
      assert s == s[..n] + [s[n]];
    }
  }

  lemma TrimCore(s: string)
    requires Without(s, '\r')
    ensures Core(Trim(s)) == Core(s)
  {
    TrimStartCore(s);
    assert Without(TrimStart(s), '\r');
    TrimEndBack(TrimStart(s));
  }

  /** Every character, gap, line break, paragraph break and indentation of the input is in the output. */
  lemma NormalizeKeepsCore(raw: string)
    ensures Core(Normalize(raw)) == Core(raw)
  {
    var a := UnixLines(raw);
    UnixLinesOutline(raw);
    UnixLinesResult(raw);
    var b := SqueezeBlanks(a);
    SqueezeOutline(a);
    SqueezeResult(a);
    var c := StripLineEnds(b);
    StripOutline(b);
    CapOutline(c);
    TrimCore(CapNewlines(c));
  }

  // --------------------------------------------------------------------- uniqueness

  function Breaks(n: nat): string {
    if n == 0 then [] else if n == 1 then ['\n'] else ['\n', '\n']
  }

  function Written(t: Token): string {
    match t
    case Mark(c) => [c]
    case Gap(breaks, indented) => Breaks(breaks) + if indented then [' '] else []
  }

  function Write(ts: seq<Token>): string {
    if ts == [] then [] else Written(ts[0]) + Write(ts[1..])
  }

  /** A tidy text is written back from its outline. */
  lemma {:induction false} WriteOutline(s: string)
    requires Tidy(s)
    ensures Write(Outline(s)) == s
  {
    if s != [] {
      SliceStaysTidy(s, 1, |s|);
      assert s[1..|s|] == s[1..];
      WriteOutline(s[1..]);
      WriteStep(s);
    }
  }

  lemma WriteAlone(c: char, rest: seq<Token>)
    requires c != '\t' && c != '\r'
    requires !(IsGapChar(c) && rest != [] && rest[0].Gap?)
    ensures Write(Prepend(c, rest)) == [c] + Write(rest)
  {
    var p := Prepend(c, rest);
    assert p == [Alone(c)] + rest;
    assert p[1..] == rest;
    assert Written(Alone(c)) == [c];
  }

  lemma OneMoreBreak(breaks: nat, indented: bool)
    requires breaks < 2
    ensures Written(Gap(breaks + 1, indented)) == ['\n'] + Written(Gap(breaks, indented))
  {
    assert Breaks(breaks + 1) == ['\n'] + Breaks(breaks);
  }

  lemma Associate(a: string, b: string, c: string)
    ensures (a + b) + c == a + (b + c)
  {
  }

  lemma WriteBreak(rest: seq<Token>)
    requires rest != [] && rest[0].Gap? && rest[0].breaks < 2
    ensures Write(Prepend('\n', rest)) == ['\n'] + Write(rest)
  {
    var g, tail := rest[0], rest[1..];
    var p := [Gap(g.breaks + 1, g.indented)] + tail;
    assert Prepend('\n', rest) == p;
    assert p[1..] == tail;
    OneMoreBreak(g.breaks, g.indented);
    Associate(['\n'], Written(g), Write(tail));
  }

  lemma WriteStep(s: string)
    requires s != [] && Tidy(s) && Write(Outline(s[1..])) == s[1..]
    ensures Write(Outline(s)) == s
  {
    var c, rest := s[0], Outline(s[1..]);
    assert c != '\r' && c != '\t';
    if IsGapChar(c) && rest != [] && rest[0].Gap? {
      TidyTail(s);
      GapStart(s[1..]);
      GapFollows(s);
      WriteBreak(rest);
    } else {
      WriteAlone(c, rest);
    }
  }

  lemma TidyTail(s: string)
    requires s != [] && Tidy(s)
    ensures Tidy(s[1..])
  {
    SliceStaysTidy(s, 1, |s|);
    assert s[1..|s|] == s[1..];
  }

  /** In a tidy text only a newline stands before a gap, and before a gap of fewer than two breaks. */
  lemma GapFollows(s: string)
    requires Tidy(s) && |s| > 1 && IsGapChar(s[0])
    requires s[1] == ' ' || s[1] == '\n'
    ensures s[0] == '\n'
    ensures |s| > 2 ==> s[1] != '\n' || s[2] != '\n'
  {
    var c, d := s[0], s[1];
    assert c != '\r' && c != '\t';
    assert (c != ' ' || d != ' ') && (c != ' ' || d != '\n');
    if |s| > 2 {
      var e := s[2];
      assert c != '\n' || d != '\n' || e != '\n';
    }
  }

  /** The first token of an outline is a gap exactly when the text starts with a gap character. */
  lemma FirstIsGap(s: string)
    requires s != [] && Without(s, '\r')
    ensures Outline(s) != [] && (Outline(s)[0].Gap? <==> IsGapChar(s[0]))
  {
    assert Outline(s) == Prepend(s[0], Outline(s[1..]));
  }

  /** A space in a tidy text is a gap of its own. */
  lemma SpaceStart(s: string)
    requires Tidy(s) && s != [] && s[0] == ' '
    ensures Outline(s) != [] && Outline(s)[0] == Gap(0, true)
  {
    var rest := Outline(s[1..]);
    assert Outline(s) == Prepend(' ', rest);
    if |s| > 1 {
      var d := s[1];
      assert d != '\r' && d != '\t' && d != ' ' && d != '\n';
      FirstIsGap(s[1..]);
    }
  }

  /** How a tidy text whose outline opens with a gap begins. */
  lemma GapStart(s: string)
    requires Tidy(s) && Outline(s) != [] && Outline(s)[0].Gap?
    ensures s != [] && (s[0] == ' ' || s[0] == '\n')
    ensures Outline(s)[0].breaks <= 2
    ensures Outline(s)[0].breaks == 2 ==> |s| > 1 && s[0] == '\n' && s[1] == '\n'
  {
    FirstIsGap(s);
    assert s[0] != '\r' && s[0] != '\t';
    if s[0] == ' ' {
      SpaceStart(s);
    } else if |s| > 1 {
      TidyTail(s);
      FirstIsGap(s[1..]);
      assert s[1] != '\r' && s[1] != '\t';
      if s[1] == ' ' {
        SpaceStart(s[1..]);
      }
    }
  }

  /** A trimmed text has nothing to drop. */
  lemma TrimmedCore(s: string)
    requires Clean(s)
    ensures Core(s) == Outline(s)
  {
    if s != [] {
      OutlineStep(s);
      PrependStarts(s[0], Outline(s[1..]));
      OutlineLast(s);
    }
  }

  lemma PrependStarts(c: char, rest: seq<Token>)
    requires !IsSpace(c)
    ensures !IsSpaceToken(Prepend(c, rest)[0])
  {
  }

  lemma PrependEnds(c: char, rest: seq<Token>)
    requires rest != [] && !IsSpaceToken(rest[|rest| - 1])
    ensures Prepend(c, rest) != [] && !IsSpaceToken(Prepend(c, rest)[|Prepend(c, rest)| - 1])
  {
    PrependConcat(c, rest, []);
  }

  lemma OutlineStep(s: string)
    requires s != [] && Without(s, '\r')
    ensures Outline(s) == Prepend(s[0], Outline(s[1..]))
  {
  }

  lemma {:induction false} OutlineLast(s: string)
    requires s != [] && Without(s, '\r') && !IsSpace(s[|s| - 1])
    ensures Outline(s) != [] && !IsSpaceToken(Outline(s)[|Outline(s)| - 1])
  {
    OutlineStep(s);
    if |s| > 1 {
      OutlineLast(s[1..]);
      PrependEnds(s[0], Outline(s[1..]));
    }
  }

  /**
   The normaliser, characterised: its output is the one clean text with the core outline
   of its input.
   */
  lemma NormalizeIsTheCleanText(raw: string, t: string)
    ensures t == Normalize(raw) <==> Clean(t) && Core(t) == Core(raw)
  {
    var n := Normalize(raw);
    NormalizeIsClean(raw);
    NormalizeKeepsCore(raw);
    if Clean(t) && Core(t) == Core(raw) {
      TrimmedCore(t);
      TrimmedCore(n);
      WriteOutline(t);
      WriteOutline(n);
    }
  }
}
