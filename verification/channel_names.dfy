/** Game channels carry their game number in their name: `/nieuwspel` names
    the channel after the game (src/index.js:653-654), and every command run
    inside a channel recovers the number with `getSpelNummerUitKanaalnaam`
    (src/index.js:81-84). */
module ChannelNames {
  import opened Options
  import opened Text
  import opened Patterns

  /** `/spel-(\d+)/i` */
  const SpelInName := Pattern("spel-", false)

  /** `🎡spel-${spel}-${status}` for the integer option `spel` and the
      sanitised status. For a non-negative game number the name leads back
      to exactly the key `/nieuwspel` stored the game under, whatever the
      status. `/nieuwspel` also accepts negative numbers; the name then
      reads `spel--5-…`, no digit follows the game's own `spel-`, and what
      the name yields comes from the status alone, never the key "-5". */
  function GameChannelName(spel: int, status: string): (name: string)
    ensures spel >= 0 ==> SpelNummerUitKanaalnaam(name) == Some(IntToString(spel))
    ensures spel < 0 ==> SpelNummerUitKanaalnaam(name) == SpelNummerUitKanaalnaam(status)
    ensures spel < 0 ==> SpelNummerUitKanaalnaam(name) != Some(IntToString(spel))
  {
    var name := "\U{1F3A1}spel-" + IntToString(spel) + "-" + status;
    if spel >= 0 then
      (NameReadsBack(name, spel, status); name)
    else
      (NegativeNameReadsStatus(name, spel, status); name)
  }

  /** `getSpelNummerUitKanaalnaam`: the digits after the leftmost `spel-`
      (in any case) that is followed by a digit, or null. */
  function SpelNummerUitKanaalnaam(channelName: string): (r: Option<string>)
    ensures r.Some? ==> |r.value| >= 1 && IsDigits(r.value)
    ensures r.Some? <==> Occurs(channelName, SpelInName)
  {
    FirstMatchIsLeftmost(channelName, SpelInName);
    FirstMatch(channelName, SpelInName)
  }

  lemma NameReadsBack(name: string, spel: int, status: string)
    requires spel >= 0 && name == "\U{1F3A1}spel-" + IntToString(spel) + "-" + status
    ensures SpelNummerUitKanaalnaam(name) == Some(IntToString(spel))
  {
    var digits := IntToString(spel);
    var rest := "-" + status;
    var field := "spel-" + digits + rest;
    assert name == "\U{1F3A1}" + field;
    assert Avoids("\U{1F3A1}", 's');
    SkipNonStarters("\U{1F3A1}", field, SpelInName);
    SpelWordMatches();
    GluedFieldAtStart("spel-", digits, rest, SpelInName);
  }

  lemma {:induction false} NegativeNameReadsStatus(name: string, spel: int, status: string)
    requires spel < 0 && name == "\U{1F3A1}spel-" + IntToString(spel) + "-" + status
    ensures SpelNummerUitKanaalnaam(name) == SpelNummerUitKanaalnaam(status)
    ensures SpelNummerUitKanaalnaam(name) != Some(IntToString(spel))
  {
    var digits := NatToString(-spel);
    var field := "s" + ("pel--" + digits + "-") + status;
    assert name == "\U{1F3A1}" + field;
    assert Avoids("\U{1F3A1}", 's');
    SkipNonStarters("\U{1F3A1}", field, SpelInName);
    NegativeFieldSkipped(digits, status);
  }

  /** `spel--<digits>-` starts no match and holds no other `s`. */
  lemma NegativeFieldSkipped(digits: string, status: string)
    requires IsDigits(digits)
    ensures FirstMatch("s" + ("pel--" + digits + "-") + status, SpelInName) == FirstMatch(status, SpelInName)
  {
    var tail := "pel--" + digits + "-";
    var field := "s" + tail + status;
    assert field[5] == '-';
    NoDigitAfterWord(field, SpelInName);
    SkipOne(field, SpelInName);
    assert field[1..] == tail + status;
    TailAvoidsS(digits);
    SkipNonStarters(tail, status, SpelInName);
  }

  lemma TailAvoidsS(digits: string)
    requires IsDigits(digits)
    ensures Avoids("pel--" + digits + "-", 's')
  {
    DigitsAvoidLetters(digits, 's');
    AvoidsConcat("pel--", digits, 's');
    AvoidsConcat("pel--" + digits, "-", 's');
  }

  /** Game -5 with the default status cannot be found from its channel at
      all. */
  lemma NegativeGameLost()
    ensures SpelNummerUitKanaalnaam(GameChannelName(-5, "actief")) == None
  {
    assert Avoids("actief", 's');
    SkipNonStarters("actief", "", SpelInName);
    assert "actief" + "" == "actief";
  }

  /** With the status "spel-3", the channel of game -5 leads to game 3. */
  lemma NegativeGameMisdirected()
    ensures SpelNummerUitKanaalnaam(GameChannelName(-5, "spel-3")) == Some("3")
  {
    SpelThreeReadsThree();
  }

  lemma SpelWordMatches()
    ensures EqualsIgnoringCase("spel-", SpelInName.word)
  {
    assert forall i :: 0 <= i < 5 ==> AsciiLower("spel-"[i]) == "spel-"[i];
  }

  lemma SpelThreeReadsThree()
    ensures SpelNummerUitKanaalnaam("spel-3") == Some("3")
  {
    SpelWordMatches();
    GluedFieldAtStart("spel-", "3", [], SpelInName);
    assert "spel-" + "3" + [] == "spel-3";
  }
}
