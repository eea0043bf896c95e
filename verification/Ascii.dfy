/**
 The string operations the source borrows from JavaScript, on ASCII text:
 `toLowerCase`, `trim` and the whitespace class `\s`.
 */
module Ascii {

  predicate IsSpace(c: char) {
    c == ' ' || c == '\t' || c == '\n' || c == '\r' || c == '\U{000B}' || c == '\U{000C}'
  }

  function LowerChar(c: char): char {
    if 'A' <= c <= 'Z' then (c as int + 32) as char else c
  }

  function Lower(s: string): (r: string)
    ensures |r| == |s|
    ensures forall i :: 0 <= i < |s| ==> r[i] == LowerChar(s[i])
  {
    seq(|s|, i requires 0 <= i < |s| => LowerChar(s[i]))
  }

  function TrimStart(s: string): (r: string)
    ensures r == [] || !IsSpace(r[0])
    ensures |r| <= |s| && r == s[|s| - |r|..]
    ensures forall i :: 0 <= i < |s| - |r| ==> IsSpace(s[i])
  {
    if s == [] || !IsSpace(s[0]) then s else TrimStart(s[1..])
  }

  function TrimEnd(s: string): (r: string)
    ensures r == [] || !IsSpace(r[|r| - 1])
    ensures |r| <= |s| && r == s[..|r|]
    ensures forall i :: |r| <= i < |s| ==> IsSpace(s[i])
  {
    if s == [] || !IsSpace(s[|s| - 1]) then s else TrimEnd(s[..|s| - 1])
  }

  function Trim(s: string): string {
    TrimEnd(TrimStart(s))
  }

  /** A string with no whitespace at either end, which is what `trim` returns. */
  predicate Trimmed(s: string) {
    s == [] || (!IsSpace(s[0]) && !IsSpace(s[|s| - 1]))
  }

  lemma TrimIsTrimmed(s: string)
    ensures Trimmed(Trim(s))
    ensures Trimmed(s) ==> Trim(s) == s
  {
    var t := TrimStart(s);
    var r := TrimEnd(t);
    if r != [] {
      assert r[0] == t[0];
    }
    if Trimmed(s) {
      assert t == s;
      assert r == s;
    }
  }

  lemma TrimIsSlice(s: string) returns (lo: nat, hi: nat)
    ensures lo <= hi <= |s| && Trim(s) == s[lo..hi]
  {
    var t := TrimStart(s);
    lo := |s| - |t|;
    hi := lo + |TrimEnd(t)|;
  }

  lemma LowerIdempotent(s: string)
    ensures Lower(Lower(s)) == Lower(s)
  {
  }

  // -------------------------------------------------------------- what they mean

  /** A blank of any kind, by its code: the space, and tab to carriage return. */
  predicate BlankCode(c: char) {
    c as int == 32 || 9 <= c as int <= 13
  }

  lemma IsSpaceIs(c: char)
    ensures IsSpace(c) <==> BlankCode(c)
  {
  }

  /** The same letter in either case, or the same character. */
  predicate SameLetter(c: char, d: char) {
    || c == d
    || (65 <= c as int <= 90 && d as int == c as int + 32)
    || (65 <= d as int <= 90 && c as int == d as int + 32)
  }

  predicate SameIgnoringCase(a: string, b: string) {
    |a| == |b| && forall i | 0 <= i < |a| :: SameLetter(a[i], b[i])
  }

  lemma LowerCharIs(c: char, d: char)
    ensures LowerChar(c) == LowerChar(d) <==> SameLetter(c, d)
  {
  }

  lemma LowerIs(a: string, b: string)
    ensures Lower(a) == Lower(b) <==> SameIgnoringCase(a, b)
  {
    forall i | 0 <= i < |a| && i < |b| ensures Lower(a)[i] == Lower(b)[i] <==> SameLetter(a[i], b[i]) {
      LowerCharIs(a[i], b[i]);
    }
    if Lower(a) == Lower(b) {
      assert |a| == |b|;
      assert forall i | 0 <= i < |a| :: Lower(a)[i] == Lower(b)[i];
    }
  }

  /** `t` is `s` without the blanks around it. */
  ghost predicate Bare(s: string, t: string) {
    exists lo: int, hi: int :: BareAt(s, t, lo, hi)
  }

  ghost predicate BareAt(s: string, t: string, lo: int, hi: int) {
    && 0 <= lo <= hi <= |s| && t == s[lo..hi]
    && (forall i | 0 <= i < lo :: BlankCode(s[i]))
    && (forall i | hi <= i < |s| :: BlankCode(s[i]))
    && (lo < hi ==> !BlankCode(s[lo]) && !BlankCode(s[hi - 1]))
  }

  lemma StartIsBare(s: string)
    ensures var t := TrimStart(s);
            (forall i | 0 <= i < |s| - |t| :: BlankCode(s[i])) && (t != [] ==> !BlankCode(t[0]))
  {
    var t := TrimStart(s);
    forall i | 0 <= i < |s| - |t| ensures BlankCode(s[i]) {
      IsSpaceIs(s[i]);
    }
    if t != [] {
      IsSpaceIs(t[0]);
    }
  }

  lemma EndIsBare(s: string)
    ensures var t := TrimEnd(s);
            (forall i | |t| <= i < |s| :: BlankCode(s[i])) && (t != [] ==> !BlankCode(t[|t| - 1]))
  {
    var t := TrimEnd(s);
    forall i | |t| <= i < |s| ensures BlankCode(s[i]) {
      IsSpaceIs(s[i]);
    }
    if t != [] {
      IsSpaceIs(t[|t| - 1]);
    }
  }

  lemma BareOfTail(s: string, t: string, lo: nat, n: nat)
    requires lo <= |s| && t == s[lo..] && n <= |t|
    requires (forall i | 0 <= i < lo :: BlankCode(s[i])) && (forall i | n <= i < |t| :: BlankCode(t[i]))
    requires n > 0 ==> !BlankCode(t[0]) && !BlankCode(t[n - 1])
    ensures Bare(s, t[..n])
  {
    var hi := lo + n;
    forall i | hi <= i < |s| ensures BlankCode(s[i]) {
      assert s[i] == t[i - lo];
    }
    assert t[..n] == s[lo..hi];
    if n > 0 {
      assert s[lo] == t[0] && s[hi - 1] == t[n - 1];
    }
    assert BareAt(s, t[..n], lo, hi);
  }

  lemma TrimIsBare(s: string)
    ensures Bare(s, Trim(s))
  {
    var t := TrimStart(s);
    var r := TrimEnd(t);
    StartIsBare(s);
    EndIsBare(t);
    if r != [] {
      assert r[0] == t[0];
    }
    BareOfTail(s, t, |s| - |t|, |r|);
  }

  lemma BareStartsLater(s: string, t: string, u: string, a: int, b: int, c: int, d: int)
    requires BareAt(s, t, a, b) && BareAt(s, u, c, d) && a < b
    ensures c <= a && b <= d
  {
    assert !BlankCode(s[a]) && !BlankCode(s[b - 1]);
  }

  /** Only one text is left. */
  lemma BareIsOne(s: string, t: string, u: string)
    requires Bare(s, t) && Bare(s, u)
    ensures t == u
  {
    var a, b :| BareAt(s, t, a, b);
    var c, d :| BareAt(s, u, c, d);
    if a < b {
      BareStartsLater(s, t, u, a, b, c, d);
    }
    if c < d {
      BareStartsLater(s, u, t, c, d, a, b);
    }
  }

  lemma TrimIs(s: string, t: string)
    ensures t == Trim(s) <==> Bare(s, t)
  {
    TrimIsBare(s);
    if Bare(s, t) {
      BareIsOne(s, t, Trim(s));
    }
  }

  /** Two texts that agree letter by letter, whatever the case, once the blanks around them are gone. */
  ghost predicate SameText(a: string, b: string) {
    exists x: string, y: string :: Bare(a, x) && Bare(b, y) && SameIgnoringCase(x, y)
  }

  lemma SameTextIs(a: string, b: string)
    ensures Lower(Trim(a)) == Lower(Trim(b)) <==> SameText(a, b)
  {
    TrimIs(a, Trim(a));
    TrimIs(b, Trim(b));
    LowerIs(Trim(a), Trim(b));
    if SameText(a, b) {
      var x, y :| Bare(a, x) && Bare(b, y) && SameIgnoringCase(x, y);
      BareIsOne(a, x, Trim(a));
      BareIsOne(b, y, Trim(b));
    }
  }

  /** A text that says the lower-case word `w`, whatever its case and the blanks around it. */
  ghost predicate Says(a: string, w: string) {
    exists x: string :: Bare(a, x) && SameIgnoringCase(x, w)
  }

  lemma SaysIs(a: string, w: string)
    requires Lower(w) == w
    ensures Lower(Trim(a)) == w <==> Says(a, w)
  {
    TrimIs(a, Trim(a));
    LowerIs(Trim(a), w);
    if Says(a, w) {
      var x :| Bare(a, x) && SameIgnoringCase(x, w);
      BareIsOne(a, x, Trim(a));
    }
  }
}
