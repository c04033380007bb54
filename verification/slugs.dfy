/** The two name sanitisers: the game channel's status suffix
    (`sanitizeStatus`, src/index.js:478-481) and the user part of a ticket
    channel's name (src/index.js:205-206). Both lower-case the text, drop
    every character outside `[a-z0-9-]`, cut the rest to a maximum length and
    fall back to a fixed word when nothing is left. */
module Slugs {
  import opened Options
  import opened Text

  predicate IsSlugChar(c: char) {
    'a' <= c <= 'z' || '0' <= c <= '9' || c == '-'
  }

  predicate IsSlug(s: string) {
    forall i :: 0 <= i < |s| ==> IsSlugChar(s[i])
  }

  /** `toLowerCase`, as far as the `[^a-z0-9\-]` filter that follows can see
      it. ASCII capitals become small letters. Exactly two non-ASCII
      characters lower-case to something containing ASCII: U+0130 (capital I
      with dot) becomes "i" followed by U+0307, and U+212A (Kelvin sign)
      becomes "k". Every other character lower-cases to non-ASCII text (or to
      itself), which the filter removes just as it removes the character
      itself, so it is kept unchanged here. */
  function LowerCaseForSlug(s: string): (r: string)
    ensures |r| >= |s|
  {
    if |s| == 0 then [] else LowerChar(s[0]) + LowerCaseForSlug(s[1..])
  }

  function LowerChar(c: char): (r: string)
    ensures |r| >= 1
  {
    if 'A' <= c <= 'Z' then [AsciiLower(c)]
    else if c == '\U{0130}' then "i\U{0307}"
    else if c == '\U{212A}' then "k"
    else [c]
  }

  /** What `LowerCaseForSlug` does to one character. */
  lemma LowerCaseForSlugChar(c: char)
    ensures 'A' <= c <= 'Z' ==> LowerCaseForSlug([c]) == [(c as int + 32) as char]
    ensures c == '\U{0130}' ==> LowerCaseForSlug([c]) == ['i', '\U{0307}']
    ensures c == '\U{212A}' ==> LowerCaseForSlug([c]) == ['k']
    ensures !('A' <= c <= 'Z') && c != '\U{0130}' && c != '\U{212A}' ==> LowerCaseForSlug([c]) == [c]
  {
    assert [c][1..] == [];
  }

  /** Lower-casing works character by character: with `LowerCaseForSlugChar`
      this fixes its value on every text. */
  lemma {:induction false} LowerCaseForSlugConcat(a: string, b: string)
    ensures LowerCaseForSlug(a + b) == LowerCaseForSlug(a) + LowerCaseForSlug(b)
    decreases |a|
  {
    if |a| == 0 {
      assert a + b == b;
    } else {
      var head, tail, rest := LowerChar(a[0]), LowerCaseForSlug(a[1..]), LowerCaseForSlug(b);
      LowerCaseForSlugStep(a, b);
      LowerCaseForSlugConcat(a[1..], b);
      assert head + (tail + rest) == (head + tail) + rest;
    }
  }

  lemma LowerCaseForSlugStep(a: string, b: string)
    requires |a| > 0
    ensures LowerCaseForSlug(a + b) == LowerChar(a[0]) + LowerCaseForSlug(a[1..] + b)
  {
    assert (a + b)[0] == a[0];
    assert (a + b)[1..] == a[1..] + b;
  }

  /** `.replace(/[^a-z0-9\-]/g, '')`: every character of `[a-z0-9-]` is
      kept, as often as it occurs, and nothing else
      (`KeepSlugCharsCounts`); the order is kept too (`KeepSlugCharsConcat`). */
  function KeepSlugChars(s: string): (r: string)
    ensures |r| <= |s| && IsSlug(r)
    ensures IsSlug(s) ==> r == s
  {
    if |s| == 0 then []
    else if IsSlugChar(s[0]) then [s[0]] + KeepSlugChars(s[1..])
    else KeepSlugChars(s[1..])
  }

  /** The filter keeps each character of `[a-z0-9-]` exactly as often as it
      occurs. */
  lemma {:induction false} KeepSlugCharsCounts(s: string)
    ensures forall c :: IsSlugChar(c) ==> multiset(KeepSlugChars(s))[c] == multiset(s)[c]
    decreases |s|
  {
    if |s| > 0 {
      KeepSlugCharsCounts(s[1..]);
      assert s == [s[0]] + s[1..];
    }
  }

  /** The lesser of two lengths. */
  function Min(a: nat, b: nat): nat {
    if a <= b then a else b
  }

  /** Lower-case, filter, `.slice(0, maxLen)`, and `|| fallback`: the first
      `maxLen` characters that survive the filter, or the fallback when none
      does. */
  function Slug(s: string, maxLen: nat, fallback: string): (r: string)
    requires maxLen >= 1 && |fallback| >= 1 && IsSlug(fallback)
    ensures IsSlug(r) && |r| >= 1
    ensures r != fallback ==> |r| <= maxLen
    ensures var kept := KeepSlugChars(LowerCaseForSlug(s));
      && (kept == [] ==> r == fallback)
      && (kept != [] ==> r == kept[..Min(|kept|, maxLen)])
  {
    var kept := KeepSlugChars(LowerCaseForSlug(s));
    var cut := if |kept| <= maxLen then kept else kept[..maxLen];
    if |cut| == 0 then fallback else cut
  }

  /** `sanitizeStatus`: a missing or empty status becomes "actief". */
  function SanitizeStatus(status: Option<string>): (r: string)
    ensures IsSlug(r) && 1 <= |r| <= 20
    ensures var kept := KeepSlugChars(LowerCaseForSlug(status.GetOr("")));
      && (kept == [] ==> r == "actief")
      && (kept != [] ==> r == kept[..Min(|kept|, 20)])
  {
    if status.None? || status.value == "" then "actief" else Slug(status.value, 20, "actief")
  }

  /** The user part of a ticket channel's name; an empty result becomes "user". */
  function TicketUserSlug(username: string): (r: string)
    ensures IsSlug(r) && 1 <= |r| <= 12
    ensures var kept := KeepSlugChars(LowerCaseForSlug(username));
      && (kept == [] ==> r == "user")
      && (kept != [] ==> r == kept[..Min(|kept|, 12)])
  {
    Slug(username, 12, "user")
  }

  /** The filter works character by character: filtering a concatenation
      is concatenating the filtered parts. With the single-character cases
      this fixes the filter completely. */
  lemma {:induction false} KeepSlugCharsConcat(a: string, b: string)
    ensures KeepSlugChars(a + b) == KeepSlugChars(a) + KeepSlugChars(b)
    decreases |a|
  {
    if |a| == 0 {
      assert a + b == b;
    } else {
      assert (a + b)[0] == a[0];
      assert (a + b)[1..] == a[1..] + b;
      KeepSlugCharsConcat(a[1..], b);
    }
  }

  lemma KeepSlugCharsSingle(c: char)
    ensures KeepSlugChars([c]) == if IsSlugChar(c) then [c] else []
  {
    assert [c][1..] == [];
  }

  /** Lower-casing leaves text made of slug characters alone. */
  lemma {:induction false} LowerCaseKeepsSlug(s: string)
    requires IsSlug(s)
    ensures LowerCaseForSlug(s) == s
    decreases |s|
  {
    if |s| > 0 {
      LowerCaseKeepsSlug(s[1..]);
    }
  }

  /** A status that already has the sanitised form comes back unchanged. */
  lemma SanitizeStatusKeepsSlug(s: string)
    requires IsSlug(s) && 1 <= |s| <= 20
    ensures SanitizeStatus(Some(s)) == s
  {
    LowerCaseKeepsSlug(s);
  }

  /** Sanitising twice is sanitising once. */
  lemma SanitizeStatusIdempotent(status: Option<string>)
    ensures SanitizeStatus(Some(SanitizeStatus(status))) == SanitizeStatus(status)
  {
    SanitizeStatusKeepsSlug(SanitizeStatus(status));
  }

  /** The same for the ticket user part. */
  lemma TicketUserSlugIdempotent(username: string)
    ensures TicketUserSlug(TicketUserSlug(username)) == TicketUserSlug(username)
  {
    var r := TicketUserSlug(username);
    LowerCaseKeepsSlug(r);
  }

  /** Lower-casing an ASCII string before sanitising changes nothing: the
      status is insensitive to the case of its ASCII letters. */
  lemma {:induction false} LowerCaseIgnoresAsciiCase(s: string)
    ensures LowerCaseForSlug(AsciiLowerAll(s)) == LowerCaseForSlug(s)
    decreases |s|
  {
    if |s| > 0 {
      LowerCaseIgnoresAsciiCase(s[1..]);
      assert AsciiLowerAll(s)[1..] == AsciiLowerAll(s[1..]);
    }
  }

  function AsciiLowerAll(s: string): (r: string)
    ensures |r| == |s|
    ensures forall i :: 0 <= i < |s| ==> r[i] == AsciiLower(s[i])
  {
    if |s| == 0 then [] else [AsciiLower(s[0])] + AsciiLowerAll(s[1..])
  }

  lemma SanitizeStatusIgnoresAsciiCase(s: string)
    ensures SanitizeStatus(Some(AsciiLowerAll(s))) == SanitizeStatus(Some(s))
  {
    LowerCaseIgnoresAsciiCase(s);
  }

  /** A filtered text without any `[a-z0-9-]` character is empty. */
  lemma KeepSlugCharsNone(s: string)
    requires forall i :: 0 <= i < |s| ==> !IsSlugChar(s[i])
    ensures KeepSlugChars(s) == []
  {
    var r := KeepSlugChars(s);
    KeepSlugCharsCounts(s);
    if |r| > 0 {
      assert false;
    }
  }

  /** Nothing survives the filter: the fallback word. This holds for a
      missing status and for every status whose lower-cased form has no
      character of `[a-z0-9-]`. */
  lemma SanitizeStatusFallback(s: string)
    requires forall i :: 0 <= i < |LowerCaseForSlug(s)| ==> !IsSlugChar(LowerCaseForSlug(s)[i])
    ensures SanitizeStatus(None) == "actief"
    ensures SanitizeStatus(Some(s)) == "actief"
  {
    KeepSlugCharsNone(LowerCaseForSlug(s));
  }

  /** Without the two non-ASCII capitals that lower-case to ASCII text,
      lower-casing for the filter is ASCII lower-casing. */
  lemma {:induction false} LowerCaseAsciiOnly(s: string)
    requires forall i :: 0 <= i < |s| ==> s[i] != '\U{0130}' && s[i] != '\U{212A}'
    ensures LowerCaseForSlug(s) == AsciiLowerAll(s)
    decreases |s|
  {
    if |s| > 0 {
      LowerCaseAsciiOnly(s[1..]);
      assert AsciiLowerAll(s) == [AsciiLower(s[0])] + AsciiLowerAll(s[1..]);
    }
  }

  /** For every status without those two characters: the ASCII capitals are
      lowered, every character outside `[a-z0-9-]` is dropped, and the first
      20 that remain are the suffix ("actief" when none remains). */
  lemma SanitizeStatusLowersAndFilters(s: string)
    requires forall i :: 0 <= i < |s| ==> s[i] != '\U{0130}' && s[i] != '\U{212A}'
    ensures var kept := KeepSlugChars(AsciiLowerAll(s));
      SanitizeStatus(Some(s)) == if kept == [] then "actief" else kept[..Min(|kept|, 20)]
  {
    LowerCaseAsciiOnly(s);
  }

  /** U+0130 lower-cases to "i" plus a combining dot; the "i" survives. */
  lemma SanitizeStatusDottedCapitalI()
    ensures SanitizeStatus(Some("\U{0130}s")) == "is"
  {
    DottedCapitalILowered();
    DottedCapitalIFiltered();
    assert Min(2, 20) == 2;
  }

  lemma DottedCapitalILowered()
    ensures LowerCaseForSlug("\U{0130}s") == "i\U{0307}s"
  {
    assert "\U{0130}s"[1..] == "s";
    assert LowerCaseForSlug("s") == "s";
  }

  lemma DottedCapitalIFiltered()
    ensures KeepSlugChars("i\U{0307}s") == "is"
  {
    var ab, c := "i\U{0307}", ['s'];
    DottedIFiltered();
    KeepSlugCharsSingle('s');
    KeepSlugCharsConcat(ab, c);
    assert ab + c == "i\U{0307}s";
  }

  lemma DottedIFiltered()
    ensures KeepSlugChars("i\U{0307}") == "i"
  {
    var a, b := ['i'], ['\U{0307}'];
    KeepSlugCharsSingle('i');
    KeepSlugCharsSingle('\U{0307}');
    KeepSlugCharsConcat(a, b);
    assert a + b == "i\U{0307}";
  }
}
