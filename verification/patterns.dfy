/** The two regular-expression shapes the bot uses to pull numbers out of text:
    `Label\s+(\d+)` with the `i` flag (ticket topics) and `label(\d+)` with the
    `i` flag (channel names). `String.prototype.match` without the `g` flag
    returns the leftmost match, and there the greedy `\d+` takes every digit
    that follows; the capture group is the result. */
module Patterns {
  import opened Options
  import opened Text

  /** `Label\s+(\d+)` when `spaced`, `label(\d+)` otherwise. The label is
      written in lower case; the `i` flag lets either case match it. */
  datatype Pattern = Pattern(word: string, spaced: bool)

  predicate EqualsIgnoringCase(a: string, word: string) {
    |a| == |word| && forall i :: 0 <= i < |a| ==> AsciiLower(a[i]) == word[i]
  }

  /** Length of the run of `\s` characters at the start of `s`. */
  function SpaceCount(s: string): (n: nat)
    ensures n <= |s|
    ensures forall i :: 0 <= i < n ==> IsRegexSpace(s[i])
    ensures n < |s| ==> !IsRegexSpace(s[n])
  {
    if |s| > 0 && IsRegexSpace(s[0]) then 1 + SpaceCount(s[1..]) else 0
  }

  /** The longest prefix of `s` made of digits: what a greedy `\d+` consumes. */
  function LeadingDigits(s: string): (d: string)
    ensures |d| <= |s| && d == s[..|d|]
    ensures IsDigits(d)
    ensures |d| < |s| ==> !IsDigit(s[|d|])
  {
    if |s| > 0 && IsDigit(s[0]) then [s[0]] + LeadingDigits(s[1..]) else []
  }

  /** The capture of the pattern when a match starts at the first character
      of `s`; None when no match starts there. */
  function MatchHere(s: string, p: Pattern): (r: Option<string>)
    ensures r.Some? ==> |r.value| >= 1 && IsDigits(r.value)
    ensures r.Some? ==> |p.word| <= |s| && EqualsIgnoringCase(s[..|p.word|], p.word)
  {
    if |s| < |p.word| || !EqualsIgnoringCase(s[..|p.word|], p.word) then None
    else
      var rest := s[|p.word|..];
      var gap := if p.spaced then SpaceCount(rest) else 0;
      if p.spaced && gap == 0 then None
      else
        var digits := LeadingDigits(rest[gap..]);
        if |digits| == 0 then None else Some(digits)
  }

  /** Some match of the pattern starts somewhere in `s`. */
  ghost predicate Occurs(s: string, p: Pattern) {
    exists i :: 0 <= i <= |s| && MatchHere(s[i..], p).Some?
  }

  /** `s.match(regex)?.[1] ?? null`: the capture of the leftmost match. */
  function FirstMatch(s: string, p: Pattern): (r: Option<string>)
    ensures r.Some? ==> |r.value| >= 1 && IsDigits(r.value)
    decreases |s|
  {
    var here := MatchHere(s, p);
    if here.Some? then here
    else if |s| == 0 then None
    else FirstMatch(s[1..], p)
  }

  /** The search finds a match exactly when one occurs, and the one it finds
      is the leftmost: no match starts before it. */
  lemma {:induction false} FirstMatchIsLeftmost(s: string, p: Pattern)
    ensures FirstMatch(s, p).None? <==> !Occurs(s, p)
    ensures FirstMatch(s, p).Some? ==>
      exists i :: 0 <= i <= |s| && MatchHere(s[i..], p) == FirstMatch(s, p)
        && forall j :: 0 <= j < i ==> MatchHere(s[j..], p).None?
    decreases |s|
  {
    var r := FirstMatch(s, p);
    assert s[0..] == s;
    if MatchHere(s, p).Some? {
    } else if |s| == 0 {
      assert forall i :: 0 <= i <= |s| ==> s[i..] == s;
    } else {
      FirstMatchIsLeftmost(s[1..], p);
      assert r == FirstMatch(s[1..], p);
      if r.Some? {
        var i :| 0 <= i <= |s[1..]| && MatchHere(s[1..][i..], p) == r
          && forall j :: 0 <= j < i ==> MatchHere(s[1..][j..], p).None?;
        assert s[1..][i..] == s[i + 1..];
        forall j | 1 <= j < i + 1 ensures MatchHere(s[j..], p).None? {
          assert s[1..][j - 1..] == s[j..];
        }
        assert forall j :: 0 <= j < i + 1 ==> MatchHere(s[j..], p).None?;
      } else {
        forall i | 1 <= i <= |s| ensures MatchHere(s[i..], p).None? {
          assert s[1..][i - 1..] == s[i..];
        }
      }
    }
  }

  /** A match cannot start at a character that differs from the label's
      first letter. */
  lemma NoMatchAtOtherLetter(s: string, p: Pattern)
    requires |p.word| >= 1 && |s| >= 1 && AsciiLower(s[0]) != p.word[0]
    ensures MatchHere(s, p).None?
  {
    if |s| >= |p.word| {
      assert AsciiLower(s[..|p.word|][0]) != p.word[0];
    }
  }

  /** Nor at a character whose successor differs from the label's second
      letter. */
  lemma NoMatchBeforeOtherLetter(s: string, p: Pattern)
    requires |p.word| >= 2 && |s| >= 2 && AsciiLower(s[1]) != p.word[1]
    ensures MatchHere(s, p).None?
  {
    if |s| >= |p.word| {
      assert AsciiLower(s[..|p.word|][1]) != p.word[1];
    }
  }

  /** No character of `a` is the letter `c` in either case. */
  predicate Avoids(a: string, c: char) {
    forall x :: x in a ==> AsciiLower(x) != c
  }

  lemma AvoidsConcat(a: string, b: string, c: char)
    requires Avoids(a, c) && Avoids(b, c)
    ensures Avoids(a + b, c)
  {}

  /** A digit string holds no letter. */
  lemma DigitsAvoidLetters(digits: string, c: char)
    requires IsDigits(digits) && 'a' <= c <= 'z'
    ensures Avoids(digits, c)
  {}

  /** Where no match starts, the search moves on to the next character. */
  lemma SkipOne(s: string, p: Pattern)
    requires |s| >= 1 && MatchHere(s, p).None?
    ensures FirstMatch(s, p) == FirstMatch(s[1..], p)
  {}

  /** An unspaced label followed by something other than a digit starts no
      match. */
  lemma NoDigitAfterWord(s: string, p: Pattern)
    requires !p.spaced && |s| > |p.word| && !IsDigit(s[|p.word|])
    ensures MatchHere(s, p).None?
  {
    var rest := s[|p.word|..];
    assert rest[0] == s[|p.word|];
  }

  /** Characters none of which can start a match may be skipped: the search
      continues after them with the same result. */
  lemma {:induction false} SkipNonStarters(a: string, b: string, p: Pattern)
    requires |p.word| >= 1
    requires Avoids(a, p.word[0])
    ensures FirstMatch(a + b, p) == FirstMatch(b, p)
    decreases |a|
  {
    if |a| > 0 {
      assert a[0] in a;
      NoMatchAtOtherLetter(a + b, p);
      assert (a + b)[1..] == a[1..] + b;
      SkipNonStarters(a[1..], b, p);
    } else {
      assert a + b == b;
    }
  }

  /** A character that matches the label's first letter but is followed by
      something other than its second letter starts no match either. */
  lemma SkipFalseStart(h: char, t: string, b: string, p: Pattern)
    requires |p.word| >= 2 && |t| >= 1 && AsciiLower(t[0]) != p.word[1]
    requires Avoids(t, p.word[0])
    ensures FirstMatch([h] + t + b, p) == FirstMatch(b, p)
  {
    var x := [h] + t + b;
    assert x[1] == t[0];
    NoMatchBeforeOtherLetter(x, p);
    SkipOne(x, p);
    assert x[1..] == t + b;
    SkipNonStarters(t, b, p);
  }

  /** Text spelling the label (in any case), the separator the pattern asks
      for, a digit string and then a non-digit (or the end) is a match whose
      capture is exactly that digit string. */
  lemma MatchesField(w: string, sep: string, digits: string, rest: string, p: Pattern)
    requires EqualsIgnoringCase(w, p.word) && |digits| >= 1 && IsDigits(digits)
    requires p.spaced ==> |sep| == 1 && IsRegexSpace(sep[0])
    requires !p.spaced ==> sep == []
    requires |rest| >= 1 ==> !IsDigit(rest[0])
    ensures MatchHere(w + sep + digits + rest, p) == Some(digits)
  {
    var after := sep + digits + rest;
    var s := w + after;
    assert w + sep + digits + rest == s;
    assert s[..|w|] == w;
    assert s[|w|..] == after;
    var gap := if p.spaced then SpaceCount(after) else 0;
    SeparatorSpan(sep, digits + rest, p.spaced);
    assert after == sep + (digits + rest);
    assert after[gap..] == digits + rest;
    LeadingDigitsOf(digits, rest);
  }

  /** The same, seen from the search: such text found at the start is the
      leftmost match. */
  lemma FieldAtStart(w: string, digits: string, rest: string, p: Pattern)
    requires EqualsIgnoringCase(w, p.word) && p.spaced && |digits| >= 1 && IsDigits(digits)
    requires |rest| >= 1 ==> !IsDigit(rest[0])
    ensures FirstMatch(w + " " + digits + rest, p) == Some(digits)
  {
    MatchesField(w, " ", digits, rest, p);
    FirstMatchAtStart(w + " " + digits + rest, p);
  }

  /** The same for a label glued to its digits. */
  lemma GluedFieldAtStart(w: string, digits: string, rest: string, p: Pattern)
    requires EqualsIgnoringCase(w, p.word) && !p.spaced && |digits| >= 1 && IsDigits(digits)
    requires |rest| >= 1 ==> !IsDigit(rest[0])
    ensures FirstMatch(w + digits + rest, p) == Some(digits)
  {
    var glued: string := w + digits + rest;
    var sep: string := [];
    assert w + sep == w;
    MatchesField(w, sep, digits, rest, p);
    FirstMatchAtStart(glued, p);
  }

  /** A match at the very start is the leftmost one. */
  lemma FirstMatchAtStart(s: string, p: Pattern)
    requires MatchHere(s, p).Some?
    ensures FirstMatch(s, p) == MatchHere(s, p)
  {}

  lemma SeparatorSpan(sep: string, t: string, spaced: bool)
    requires |t| >= 1 && IsDigit(t[0])
    requires spaced ==> |sep| == 1 && IsRegexSpace(sep[0])
    requires !spaced ==> sep == []
    ensures spaced ==> SpaceCount(sep + t) == 1
    ensures |sep| == (if spaced then 1 else 0)
  {
    if spaced {
      var x := sep + t;
      assert x[0] == sep[0];
      assert x[1..] == t;
      assert !IsRegexSpace(t[0]);
    }
  }

  lemma {:induction false} LeadingDigitsOf(digits: string, rest: string)
    requires IsDigits(digits)
    requires |rest| >= 1 ==> !IsDigit(rest[0])
    ensures LeadingDigits(digits + rest) == digits
    decreases |digits|
  {
    if |digits| == 0 {
      assert digits + rest == rest;
    } else {
      assert (digits + rest)[1..] == digits[1..] + rest;
      LeadingDigitsOf(digits[1..], rest);
    }
  }
}
