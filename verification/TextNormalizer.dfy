/**
 The text normaliser: five rewriting passes over extracted document text. Its fixed points
 are exactly the clean texts, and its output is clean. What it keeps of the text is in
 TextOutline.dfy.
 */
module TextNormalizer {
  import opened Ascii

  /** `replace(/\r\n?/g, "\n")` */
  function UnixLines(s: string): string
    decreases |s|
  {
    if s == [] then []
    else if s[0] != '\r' then [s[0]] + UnixLines(s[1..])
    else if |s| > 1 && s[1] == '\n' then ['\n'] + UnixLines(s[2..])
    else ['\n'] + UnixLines(s[1..])
  }

  predicate IsBlank(c: char) {
    c == ' ' || c == '\t'
  }

  /** `replace(/[ \t]+/g, " ")` */
  function SqueezeBlanks(s: string): string {
    if s == [] then []
    else
      var rest := SqueezeBlanks(s[1..]);
      if !IsBlank(s[0]) then [s[0]] + rest
      else if rest != [] && rest[0] == ' ' then rest
      else [' '] + rest
  }

  /** `replace(/ +$/gm, "")` */
  function StripLineEnds(s: string): string {
    if s == [] then []
    else
      var rest := StripLineEnds(s[1..]);
      if s[0] == ' ' && (rest == [] || rest[0] == '\n') then rest else [s[0]] + rest
  }

  /** `replace(/\n{3,}/g, "\n\n")` */
  function CapNewlines(s: string): string {
    if s == [] then []
    else
      var rest := CapNewlines(s[1..]);
      if s[0] == '\n' && |rest| > 1 && rest[0] == '\n' && rest[1] == '\n' then rest else [s[0]] + rest
  }

  function Normalize(raw: string): string {
    Trim(CapNewlines(StripLineEnds(SqueezeBlanks(UnixLines(raw)))))
  }

  // ---------------------------------------------------------------- clean text

  predicate Without(s: string, c: char) {
    forall i | 0 <= i < |s| :: s[i] != c
  }

  /** `a` is never directly followed by `b`. */
  ghost predicate NeverBefore(s: string, a: char, b: char) {
    forall i, j | 0 <= i < j < |s| && j == i + 1 :: s[i] != a || s[j] != b
  }

  ghost predicate NoTripleNewline(s: string) {
    forall i, j, k | 0 <= i < j < k < |s| && j == i + 1 && k == j + 1 :: s[i] != '\n' || s[j] != '\n' || s[k] != '\n'
  }

  /** What the first four passes establish. */
  ghost predicate Tidy(s: string) {
    && Without(s, '\r') && Without(s, '\t')
    && NeverBefore(s, ' ', ' ')
    && NeverBefore(s, ' ', '\n')
    && NoTripleNewline(s)
  }

  ghost predicate Clean(s: string) {
    Tidy(s) && Trimmed(s)
  }

  // ------------------------------------------------------------ what passes keep

  lemma NeverBeforeTail(s: string, a: char, b: char)
    requires s != [] && NeverBefore(s, a, b)
    ensures NeverBefore(s[1..], a, b)
  {
    var t := s[1..];
    forall i, j | 0 <= i < j < |t| && j == i + 1
      ensures t[i] != a || t[j] != b
    {
      assert s[i + 1] != a || s[j + 1] != b;
    }
  }

  lemma NeverBeforeCons(c: char, s: string, a: char, b: char)
    requires NeverBefore(s, a, b) && (c != a || s == [] || s[0] != b)
    ensures NeverBefore([c] + s, a, b)
  {
    var t := [c] + s;
    forall i, j | 0 <= i < j < |t| && j == i + 1
      ensures t[i] != a || t[j] != b
    {
      if i > 0 {
        assert t[i] == s[i - 1] && t[j] == s[j - 1];
      }
    }
  }

  lemma NoTripleTail(s: string)
    requires s != [] && NoTripleNewline(s)
    ensures NoTripleNewline(s[1..])
  {
    var t := s[1..];
    forall i, j, k | 0 <= i < j < k < |t| && j == i + 1 && k == j + 1
      ensures t[i] != '\n' || t[j] != '\n' || t[k] != '\n'
    {
      assert s[i + 1] != '\n' || s[j + 1] != '\n' || s[k + 1] != '\n';
    }
  }

  lemma NoTripleCons(c: char, s: string)
    requires NoTripleNewline(s)
    requires c != '\n' || |s| < 2 || s[0] != '\n' || s[1] != '\n'
    ensures NoTripleNewline([c] + s)
  {
    var t := [c] + s;
    forall i, j, k | 0 <= i < j < k < |t| && j == i + 1 && k == j + 1
      ensures t[i] != '\n' || t[j] != '\n' || t[k] != '\n'
    {
      if i > 0 {
        assert t[i] == s[i - 1] && t[j] == s[j - 1] && t[k] == s[k - 1];
      }
    }
  }

  lemma {:induction false} UnixLinesResult(s: string)
    ensures Without(UnixLines(s), '\r')
    decreases |s|
  {
    if s != [] {
      UnixLinesResult(s[1..]);
      if |s| > 1 {
        UnixLinesResult(s[2..]);
      }
    }
  }

  lemma {:induction false} SqueezeResult(s: string)
    ensures var r := SqueezeBlanks(s);
            && (Without(s, '\r') ==> Without(r, '\r'))
            && Without(r, '\t') && NeverBefore(r, ' ', ' ')
  {
    if s != [] {
      SqueezeResult(s[1..]);
      var rest := SqueezeBlanks(s[1..]);
      var head := if IsBlank(s[0]) then ' ' else s[0];
      if SqueezeBlanks(s) == [head] + rest && (head != ' ' || rest == [] || rest[0] != ' ') {
        NeverBeforeCons(head, rest, ' ', ' ');
      }
    }
  }

  /** Stripping line ends leaves no space before a newline, and puts no two spaces together. */
  lemma {:induction false} StripResult(s: string)
    requires Without(s, '\r') && Without(s, '\t') && NeverBefore(s, ' ', ' ')
    ensures var r := StripLineEnds(s);
            && Without(r, '\r') && Without(r, '\t')
            && NeverBefore(r, ' ', ' ') && NeverBefore(r, ' ', '\n')
            && (r != [] && s[0] != ' ' ==> r[0] != ' ')
  {
    if s != [] {
      NeverBeforeTail(s, ' ', ' ');
      StripResult(s[1..]);
      var rest := StripLineEnds(s[1..]);
      if s[0] == ' ' && |s| > 1 {
        assert s[0] != ' ' || s[1] != ' ';
      }
      if StripLineEnds(s) == [s[0]] + rest && !(s[0] == ' ' && (rest == [] || rest[0] == '\n')) {
        NeverBeforeCons(s[0], rest, ' ', ' ');
        NeverBeforeCons(s[0], rest, ' ', '\n');
      }
    }
  }

  lemma {:induction false} CapResult(s: string)
    requires Without(s, '\r') && Without(s, '\t') && NeverBefore(s, ' ', ' ') && NeverBefore(s, ' ', '\n')
    ensures var r := CapNewlines(s);
            && Without(r, '\r') && Without(r, '\t')
            && NeverBefore(r, ' ', ' ') && NeverBefore(r, ' ', '\n')
            && NoTripleNewline(r)
            && (s == [] <==> r == []) && (s != [] ==> r[0] == s[0])
  {
    if s != [] {
      NeverBeforeTail(s, ' ', ' ');
      NeverBeforeTail(s, ' ', '\n');
      CapResult(s[1..]);
      var rest := CapNewlines(s[1..]);
      if !(s[0] == '\n' && |rest| > 1 && rest[0] == '\n' && rest[1] == '\n') {
        if |s| > 1 {
          assert s[0] != ' ' || (s[1] != ' ' && s[1] != '\n');
        }
        NeverBeforeCons(s[0], rest, ' ', ' ');
        NeverBeforeCons(s[0], rest, ' ', '\n');
        NoTripleCons(s[0], rest);
      }
    }
  }

  /** Any stretch of a tidy text is tidy. */
  lemma SliceStaysTidy(s: string, lo: nat, hi: nat)
    requires lo <= hi <= |s| && Tidy(s)
    ensures Tidy(s[lo..hi])
  {
    var t := s[lo..hi];
    forall i, j | 0 <= i < j < |t| && j == i + 1
      ensures (t[i] != ' ' || t[j] != ' ') && (t[i] != ' ' || t[j] != '\n')
    {
      assert s[lo + i] == t[i] && s[lo + j] == t[j];
    }
    forall i, j, k | 0 <= i < j < k < |t| && j == i + 1 && k == j + 1
      ensures t[i] != '\n' || t[j] != '\n' || t[k] != '\n'
    {
      assert s[lo + i] == t[i] && s[lo + j] == t[j] && s[lo + k] == t[k];
    }
  }

  lemma TrimStaysTidy(s: string)
    requires Tidy(s)
    ensures Tidy(Trim(s))
  {
    var lo, hi := TrimIsSlice(s);
    SliceStaysTidy(s, lo, hi);
  }

  lemma PassesTidy(raw: string)
    ensures Tidy(CapNewlines(StripLineEnds(SqueezeBlanks(UnixLines(raw)))))
  {
    var a := UnixLines(raw);
    UnixLinesResult(raw);
    SqueezeResult(a);
    StripResult(SqueezeBlanks(a));
    CapResult(StripLineEnds(SqueezeBlanks(a)));
  }

  /** The output has no carriage return, no tab, no two spaces together, no space before a newline, no three newlines. */
  lemma NormalizeIsClean(raw: string)
    ensures Clean(Normalize(raw))
  {
    var d := CapNewlines(StripLineEnds(SqueezeBlanks(UnixLines(raw))));
    PassesTidy(raw);
    TrimStaysTidy(d);
    TrimIsTrimmed(d);
  }

  // ------------------------------------------------------------- clean is fixed

  lemma {:induction false} UnixLinesFixes(s: string)
    requires Without(s, '\r')
    ensures UnixLines(s) == s
  {
    if s != [] {
      UnixLinesFixes(s[1..]);
    }
  }

  lemma {:induction false} SqueezeFixes(s: string)
    requires Without(s, '\t') && NeverBefore(s, ' ', ' ')
    ensures SqueezeBlanks(s) == s
  {
    if s != [] {
      NeverBeforeTail(s, ' ', ' ');
      SqueezeFixes(s[1..]);
      if |s| > 1 {
        assert s[0] != ' ' || s[1] != ' ';
      }
    }
  }

  lemma {:induction false} StripFixes(s: string)
    requires NeverBefore(s, ' ', '\n') && (s == [] || s[|s| - 1] != ' ')
    ensures StripLineEnds(s) == s
  {
    if s != [] {
      NeverBeforeTail(s, ' ', '\n');
      StripFixes(s[1..]);
      if |s| > 1 {
        assert s[0] != ' ' || s[1] != '\n';
      }
    }
  }

  lemma {:induction false} CapFixes(s: string)
    requires NoTripleNewline(s)
    ensures CapNewlines(s) == s
  {
    if s != [] {
      NoTripleTail(s);
      CapFixes(s[1..]);
      if |s| > 2 {
        assert s[0] != '\n' || s[1] != '\n' || s[2] != '\n';
      }
    }
  }

  /** The texts the normaliser leaves alone are exactly the clean ones. */
  lemma FixedPointsAreClean(s: string)
    ensures Normalize(s) == s <==> Clean(s)
  {
    NormalizeIsClean(s);
    if Clean(s) {
      UnixLinesFixes(s);
      SqueezeFixes(s);
      StripFixes(s);
      CapFixes(s);
      TrimIsTrimmed(s);
    }
  }

  /** Normalising twice is normalising once. */
  lemma NormalizeIdempotent(raw: string)
    ensures Normalize(Normalize(raw)) == Normalize(raw)
  {
    NormalizeIsClean(raw);
    FixedPointsAreClean(Normalize(raw));
  }
}
