/** The ticket channel's topic line: the only place a ticket's game, task and
    owner are kept between its creation and its approval
    (src/index.js:238 writes it, src/index.js:163-170 reads it back). */
module TicketTopic {
  import opened Options
  import opened Text
  import opened Patterns

  datatype TicketInfo = TicketInfo(spelNummer: string, taakNummer: string, userId: string)

  const SpelField := Pattern("spel", true)
  const TaakField := Pattern("taak", true)
  const UserField := Pattern("user", true)

  /** The topic a new ticket channel receives. Reading it back gives the
      game, task and user it was written with, for the digit strings the bot
      puts there (a game number taken from a channel name, a task button's
      number, a user id). */
  function TopicFor(spelNummer: string, taakNummer: string, userId: string): (topic: string)
    ensures
      (&& |spelNummer| >= 1 && IsDigits(spelNummer)
       && |taakNummer| >= 1 && IsDigits(taakNummer)
       && |userId| >= 1 && IsDigits(userId))
      ==> ParseTicketTopic(Some(topic)) == Some(TicketInfo(spelNummer, taakNummer, userId))
  {
    var topic := "Rad van StreApp | Spel " + spelNummer + " | Taak " + taakNummer + " | User " + userId;
    if && |spelNummer| >= 1 && IsDigits(spelNummer)
       && |taakNummer| >= 1 && IsDigits(taakNummer)
       && |userId| >= 1 && IsDigits(userId)
    then
      (TopicReadsBack(topic, spelNummer, taakNummer, userId); topic)
    else
      topic
  }

  /** `parseTicketTopic`: a missing or empty topic, or one lacking any of the
      three fields, gives null; otherwise each field is the leftmost
      `Field<spaces><digits>` occurrence, whatever order they appear in. */
  function ParseTicketTopic(topic: Option<string>): (r: Option<TicketInfo>)
    ensures r.Some? <==>
      topic.Some? && Occurs(topic.value, SpelField) && Occurs(topic.value, TaakField)
      && Occurs(topic.value, UserField)
    ensures r.Some? ==>
      && |r.value.spelNummer| >= 1 && IsDigits(r.value.spelNummer)
      && |r.value.taakNummer| >= 1 && IsDigits(r.value.taakNummer)
      && |r.value.userId| >= 1 && IsDigits(r.value.userId)
  {
    if topic.None? || topic.value == "" then
      assert topic.Some? ==> !Occurs(topic.value, SpelField) by {
        if topic.Some? {
          forall i | 0 <= i <= |topic.value|
            ensures MatchHere(topic.value[i..], SpelField).None?
          {}
        }
      }
      None
    else
      var spel := FirstMatch(topic.value, SpelField);
      var taak := FirstMatch(topic.value, TaakField);
      var user := FirstMatch(topic.value, UserField);
      FirstMatchIsLeftmost(topic.value, SpelField);
      FirstMatchIsLeftmost(topic.value, TaakField);
      FirstMatchIsLeftmost(topic.value, UserField);
      if spel.None? || taak.None? || user.None? then None
      else Some(TicketInfo(spel.value, taak.value, user.value))
  }

  lemma TopicReadsBack(topic: string, spelNummer: string, taakNummer: string, userId: string)
    requires topic == "Rad van StreApp | Spel " + spelNummer + " | Taak " + taakNummer + " | User " + userId
    requires |spelNummer| >= 1 && IsDigits(spelNummer)
    requires |taakNummer| >= 1 && IsDigits(taakNummer)
    requires |userId| >= 1 && IsDigits(userId)
    ensures ParseTicketTopic(Some(topic)) == Some(TicketInfo(spelNummer, taakNummer, userId))
  {
    var tail := " | Taak " + taakNummer + " | User " + userId;
    assert tail[0] == ' ';
    assert topic == "Rad van StreApp | " + ("Spel" + " " + spelNummer + tail);
    SpelFieldFound(spelNummer, tail);
    TaakFieldFound(topic, spelNummer, taakNummer, userId);
    UserFieldFound(topic, spelNummer, taakNummer, userId);
  }

  lemma SpelFieldFound(spelNummer: string, tail: string)
    requires |spelNummer| >= 1 && IsDigits(spelNummer)
    requires |tail| >= 1 ==> !IsDigit(tail[0])
    ensures FirstMatch("Rad van StreApp | " + ("Spel" + " " + spelNummer + tail), SpelField) == Some(spelNummer)
  {
    var field := "Spel" + " " + spelNummer + tail;
    SpelSkipsBanner(field);
    FieldNames();
    FieldAtStart("Spel", spelNummer, tail, SpelField);
  }

  /** Which letters the fixed parts of the topic avoid: no `s` before the
      banner's S, no `t` before its t, no `u` before the User field. */
  lemma BannerLettersS()
    ensures Avoids("Rad van ", 's') && Avoids("treApp | ", 's')
  {
    LettersAvoided("Rad van ", 's');
    LettersAvoided("treApp | ", 's');
  }

  lemma BannerLettersT()
    ensures Avoids("Rad van S", 't') && Avoids("reApp | Spel ", 't') && Avoids(" | ", 't')
  {
    LettersAvoided("Rad van S", 't');
    LettersAvoided("reApp | Spel ", 't');
    LettersAvoided(" | ", 't');
  }

  lemma BannerLettersU()
    ensures Avoids("Rad van StreApp | Spel ", 'u') && Avoids(" | Taak ", 'u') && Avoids(" | ", 'u')
  {
    LettersAvoided("Rad van StreApp | Spel ", 'u');
    LettersAvoided(" | Taak ", 'u');
    LettersAvoided(" | ", 'u');
  }

  /** Checks one fixed piece of text character by character. */
  lemma LettersAvoided(a: string, c: char)
    requires forall i :: 0 <= i < |a| ==> AsciiLower(a[i]) != c
    ensures Avoids(a, c)
  {}

  /** The capitalised field names in the topic match the case-insensitive
      patterns. */
  lemma FieldNames()
    ensures EqualsIgnoringCase("Spel", SpelField.word)
    ensures EqualsIgnoringCase("Taak", TaakField.word)
    ensures EqualsIgnoringCase("User", UserField.word)
  {}

  /** No `Spel` match starts in the banner "Rad van StreApp | ": its one S
      is followed by t, not p. */
  lemma SpelSkipsBanner(rest: string)
    ensures FirstMatch("Rad van StreApp | " + rest, SpelField) == FirstMatch(rest, SpelField)
  {
    var x := ['S'] + "treApp | " + rest;
    assert "Rad van StreApp | " == "Rad van " + ['S'] + "treApp | ";
    assert "Rad van StreApp | " + rest == "Rad van " + x;
    BannerLettersS();
    SkipNonStarters("Rad van ", x, SpelField);
    SkipFalseStart('S', "treApp | ", rest, SpelField);
  }

  lemma TaakFieldFound(topic: string, spelNummer: string, taakNummer: string, userId: string)
    requires topic == "Rad van StreApp | Spel " + spelNummer + " | Taak " + taakNummer + " | User " + userId
    requires IsDigits(spelNummer)
    requires |taakNummer| >= 1 && IsDigits(taakNummer)
    ensures FirstMatch(topic, TaakField) == Some(taakNummer)
  {
    var tail := " | User " + userId;
    var rest := spelNummer + " | " + ("Taak" + " " + taakNummer + tail);
    assert tail[0] == ' ';
    assert topic == "Rad van StreApp | Spel " + rest;
    TaakSkipsBanner(rest);
    TaakAfterSpel(spelNummer, taakNummer, tail);
  }

  /** After the banner: the game number and its separator hold no `t`, so
      the first `Taak` match is the topic's own Taak field. */
  lemma TaakAfterSpel(spelNummer: string, taakNummer: string, tail: string)
    requires IsDigits(spelNummer)
    requires |taakNummer| >= 1 && IsDigits(taakNummer)
    requires |tail| >= 1 ==> !IsDigit(tail[0])
    ensures FirstMatch(spelNummer + " | " + ("Taak" + " " + taakNummer + tail), TaakField) == Some(taakNummer)
  {
    var field := "Taak" + " " + taakNummer + tail;
    DigitsAvoidLetters(spelNummer, 't');
    BannerLettersT();
    AvoidsConcat(spelNummer, " | ", 't');
    SkipNonStarters(spelNummer + " | ", field, TaakField);
    FieldNames();
    FieldAtStart("Taak", taakNummer, tail, TaakField);
  }

  /** No `Taak` match starts in "Rad van StreApp | Spel ": its one t is
      followed by r, not a. */
  lemma TaakSkipsBanner(rest: string)
    ensures FirstMatch("Rad van StreApp | Spel " + rest, TaakField) == FirstMatch(rest, TaakField)
  {
    var x := ['t'] + "reApp | Spel " + rest;
    assert "Rad van StreApp | Spel " == "Rad van S" + ['t'] + "reApp | Spel ";
    assert "Rad van StreApp | Spel " + rest == "Rad van S" + x;
    BannerLettersT();
    SkipNonStarters("Rad van S", x, TaakField);
    SkipFalseStart('t', "reApp | Spel ", rest, TaakField);
  }

  lemma UserFieldFound(topic: string, spelNummer: string, taakNummer: string, userId: string)
    requires topic == "Rad van StreApp | Spel " + spelNummer + " | Taak " + taakNummer + " | User " + userId
    requires IsDigits(spelNummer) && IsDigits(taakNummer)
    requires |userId| >= 1 && IsDigits(userId)
    ensures FirstMatch(topic, UserField) == Some(userId)
  {
    var field := "User" + " " + userId + "";
    var before := "Rad van StreApp | Spel " + spelNummer + " | Taak " + taakNummer + " | ";
    assert topic == before + field;
    DigitsAvoidLetters(spelNummer, 'u');
    DigitsAvoidLetters(taakNummer, 'u');
    BannerLettersU();
    AvoidsConcat("Rad van StreApp | Spel ", spelNummer, 'u');
    AvoidsConcat("Rad van StreApp | Spel " + spelNummer, " | Taak ", 'u');
    AvoidsConcat("Rad van StreApp | Spel " + spelNummer + " | Taak ", taakNummer, 'u');
    AvoidsConcat("Rad van StreApp | Spel " + spelNummer + " | Taak " + taakNummer, " | ", 'u');
    SkipNonStarters(before, field, UserField);
    FieldNames();
    FieldAtStart("User", userId, "", UserField);
  }
}
