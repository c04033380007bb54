/** The command handlers as transitions of the whole data file
    (`data[guildId][spelNummer]`, src/index.js:61-77). Each handler loads the
    data, finds or creates the game, applies one ledger mutation and saves;
    a handler that refuses returns before `saveData`, so the data on disk
    stays as it was, even when `getOrCreateGame` had just added a game in
    memory. Discord permission checks, replies and dashboard refreshes are
    not modelled. */
module Commands {
  import opened Options
  import opened Text
  import opened Ledger
  import opened LedgerInvariants
  import opened ChannelNames
  import opened TicketTopic
  import opened Slugs

  type GuildId = string

  /** The whole data file: guild id, then game number, then the game. */
  type Store = map<GuildId, map<Key, Game>>

  /** What a handler answers; the refusals leave the data file unchanged. */
  datatype Reply =
    | Saved
    | GameCreated(channelName: string)
    | Cleaned(removed: nat, forced: bool)
    | Approved(spots: int)
    | Refused(why: Rejection)
    | SetupFailed
    | NoGameInChannelName
    | ResetNotConfirmed
    | NoTicketInfo
    | UserNotFound
  {
    predicate Rejected() {
      !(Saved? || GameCreated? || Cleaned? || Approved?)
    }
  }

  datatype Outcome = Outcome(data: Store, reply: Reply)

  /** `data[guild]?.[key]` */
  function Slot(data: Store, guild: GuildId, key: Key): Option<Game> {
    if guild in data && key in data[guild] then Some(data[guild][key]) else None
  }

  /** The game `getOrCreateGame` hands to the handler. */
  function GameOrNew(data: Store, guild: GuildId, key: Key): Game {
    Slot(data, guild, key).GetOr(NewGame())
  }

  /** Every game other than `data[guild][key]` is as it was. */
  ghost predicate ElsewhereUnchanged(data: Store, r: Store, guild: GuildId, key: Key) {
    forall h, s :: h != guild || s != key ==> Slot(r, h, s) == Slot(data, h, s)
  }

  /** `getOrCreateGame`: an existing game is returned as it is; otherwise a
      fresh one is stored under `key` (and the guild's object created if
      needed). No other game changes. */
  function GetOrCreateGame(data: Store, guild: GuildId, key: Key): (r: (Store, Game))
    ensures Slot(r.0, guild, key) == Some(r.1)
    ensures Slot(data, guild, key).Some? ==> r.0 == data && Slot(data, guild, key) == Some(r.1)
    ensures Slot(data, guild, key).None? ==> r.1 == NewGame()
    ensures ElsewhereUnchanged(data, r.0, guild, key)
  {
    var games := if guild in data then data[guild] else map[];
    if key in games then (data, games[key])
    else (data[guild := games[key := NewGame()]], NewGame())
  }

  /** Calling `getOrCreateGame` again finds what the first call stored. */
  lemma GetOrCreateGameIdempotent(data: Store, guild: GuildId, key: Key)
    ensures GetOrCreateGame(GetOrCreateGame(data, guild, key).0, guild, key) == GetOrCreateGame(data, guild, key)
  {
    var r := GetOrCreateGame(data, guild, key);
    assert Slot(r.0, guild, key) == Some(r.1);
  }

  /** Writes `g` back into the loaded data, as `saveData` persists it. */
  function Save(data: Store, guild: GuildId, key: Key, g: Game): (r: Store)
    ensures Slot(r, guild, key) == Some(g)
    ensures ElsewhereUnchanged(data, r, guild, key)
  {
    var games := if guild in data then data[guild] else map[];
    data[guild := games[key := g]]
  }

  /** The end of a handler whose mutation may refuse: a refusal keeps the
      data as loaded from disk; a success saves the loaded data with the
      mutated game. */
  function Commit(data: Store, loaded: Store, guild: GuildId, key: Key, result: Result<Game, Rejection>): (r: Outcome)
    requires ElsewhereUnchanged(data, loaded, guild, key)
    ensures result.Err? ==> r == Outcome(data, Refused(result.error))
    ensures result.Ok? ==> r.reply == Saved && Slot(r.data, guild, key) == Some(result.value)
    ensures ElsewhereUnchanged(data, r.data, guild, key)
  {
    match result
    case Err(e) => Outcome(data, Refused(e))
    case Ok(g) => Outcome(Save(loaded, guild, key, g), Saved)
  }

  /** `/nieuwspel` (src/index.js:650-672): the game is stored under
      `String(spel)` and a channel named after it is created. When creating
      the role or the channel fails, nothing is saved. */
  function NieuwSpel(data: Store, guild: GuildId, spel: int, status: Option<string>, discordOk: bool): (r: Outcome)
    ensures !discordOk ==> r == Outcome(data, SetupFailed)
    ensures discordOk ==> r.reply == GameCreated(GameChannelName(spel, SanitizeStatus(status)))
    ensures discordOk ==> Slot(r.data, guild, IntToString(spel)) == Some(GameOrNew(data, guild, IntToString(spel)))
    ensures ElsewhereUnchanged(data, r.data, guild, IntToString(spel))
  {
    if !discordOk then Outcome(data, SetupFailed)
    else
      var loaded := GetOrCreateGame(data, guild, IntToString(spel)).0;
      Outcome(loaded, GameCreated(GameChannelName(spel, SanitizeStatus(status))))
  }

  /** `/setspots` (src/index.js:706-717), run inside a game channel: the game
      number comes from the channel's name. */
  function SetSpotsCommand(data: Store, guild: GuildId, channelName: string, taak: int, spots: int): (r: Outcome)
    requires IsTask(taak) && 0 <= spots <= 100000
    ensures SpelNummerUitKanaalnaam(channelName).None? ==> r == Outcome(data, NoGameInChannelName)
    ensures SpelNummerUitKanaalnaam(channelName).Some? ==>
      var key := SpelNummerUitKanaalnaam(channelName).value;
      var before := GameOrNew(data, guild, key);
      && (r.reply.Rejected() <==> before.closed)
      && (before.closed ==> r == Outcome(data, Refused(GameClosed)))
      && (!before.closed ==> r.reply == Saved && Slot(r.data, guild, key) == Some(SetSpots(before, taak, spots).value))
      && ElsewhereUnchanged(data, r.data, guild, key)
  {
    match SpelNummerUitKanaalnaam(channelName)
    case None => Outcome(data, NoGameInChannelName)
    case Some(key) =>
      var (loaded, game) := GetOrCreateGame(data, guild, key);
      Commit(data, loaded, guild, key, SetSpots(game, taak, spots))
  }

  /** `/sluitspel` (src/index.js:762-772). */
  function SluitSpel(data: Store, guild: GuildId, spel: int, at: Stamp): (r: Outcome)
    ensures var before := GameOrNew(data, guild, IntToString(spel));
      && (r.reply.Rejected() <==> before.closed)
      && (before.closed ==> r == Outcome(data, Refused(AlreadyClosed)))
      && (!before.closed ==> r.reply == Saved && Slot(r.data, guild, IntToString(spel)) == Some(Close(before, at).value))
    ensures ElsewhereUnchanged(data, r.data, guild, IntToString(spel))
  {
    var key := IntToString(spel);
    var (loaded, game) := GetOrCreateGame(data, guild, key);
    Commit(data, loaded, guild, key, Close(game, at))
  }

  /** `/openspel` (src/index.js:810-820). Asking to reopen a game that does
      not exist yet refuses and creates nothing. */
  function OpenSpel(data: Store, guild: GuildId, spel: int): (r: Outcome)
    ensures var before := GameOrNew(data, guild, IntToString(spel));
      && (r.reply.Rejected() <==> !before.closed)
      && (!before.closed ==> r == Outcome(data, Refused(NotClosed)))
      && (before.closed ==> r.reply == Saved && Slot(r.data, guild, IntToString(spel)) == Some(Open(before).value))
    ensures Slot(data, guild, IntToString(spel)).None? ==> r.data == data
    ensures ElsewhereUnchanged(data, r.data, guild, IntToString(spel))
  {
    var key := IntToString(spel);
    var (loaded, game) := GetOrCreateGame(data, guild, key);
    Commit(data, loaded, guild, key, Open(game))
  }

  /** `/resetspel` (src/index.js:858-870): nothing happens unless `bevestig`
      is set. */
  function ResetSpel(data: Store, guild: GuildId, spel: int, bevestig: bool): (r: Outcome)
    ensures !bevestig ==> r == Outcome(data, ResetNotConfirmed)
    ensures bevestig ==>
      r.reply == Saved
      && Slot(r.data, guild, IntToString(spel)) == Some(ResetGameProgress(GameOrNew(data, guild, IntToString(spel))))
    ensures ElsewhereUnchanged(data, r.data, guild, IntToString(spel))
  {
    if !bevestig then Outcome(data, ResetNotConfirmed)
    else
      var key := IntToString(spel);
      var (loaded, game) := GetOrCreateGame(data, guild, key);
      Outcome(Save(loaded, guild, key, ResetGameProgress(game)), Saved)
  }

  /** `/geeftaak` (src/index.js:889-948). A refused revoke saves nothing,
      not even the participant record `ensureDeelnemer` had added. */
  function GeefTaakCommand(data: Store, guild: GuildId, spel: int, lid: UserId, taak: int, aantal: Option<int>): (r: Outcome)
    requires IsTask(taak)
    requires aantal.Some? ==> -1000 <= aantal.value <= 1000
    ensures var result := GeefTaak(GameOrNew(data, guild, IntToString(spel)), lid, taak, aantal);
      && (r.reply.Rejected() <==> result.Err?)
      && (result.Err? ==> r == Outcome(data, Refused(result.error)))
      && (result.Ok? ==> r.reply == Saved && Slot(r.data, guild, IntToString(spel)) == Some(result.value))
    ensures ElsewhereUnchanged(data, r.data, guild, IntToString(spel))
  {
    var key := IntToString(spel);
    var (loaded, game) := GetOrCreateGame(data, guild, key);
    Commit(data, loaded, guild, key, GeefTaak(game, lid, taak, aantal))
  }

  /** How the Discord calls of `forceRefreshAdminDashboard`
      (src/index.js:626-637) turned out. `ensureAdminChannel`
      (src/index.js:367-401) either throws, or yields a channel; `recorded`
      says whether it found or created that channel and saved its id
      (src/index.js:385-386, 397-398) rather than reusing the recorded one.
      Then sending the new admin dashboard either fails or gives the id of
      the new message. */
  datatype AdminRefresh =
    | ChannelFailed
    | SendFailed(channelId: string, recorded: bool)
    | Sent(channelId: string, recorded: bool, messageId: string)

  /** The game as the file holds it after `forceRefreshAdminDashboard`, run
      right after the handler's own save. A failed send returns before any
      save of its own (src/index.js:632-633), so only what
      `ensureAdminChannel` saved remains. The successful send saves the
      snapshot loaded before `ensureAdminChannel` ran (src/index.js:627,
      635-636), so an admin channel id that `ensureAdminChannel` saved in the
      meantime is overwritten with the value it had before. Scores are never
      touched. */
  function AdminRefreshed(g: Game, admin: AdminRefresh): (r: Game)
    ensures r.(adminDashboard := g.adminDashboard, adminChannelId := g.adminChannelId) == g
    ensures admin.Sent? ==>
      r.adminDashboard == MessageRef(Some(admin.channelId), Some(admin.messageId))
      && r.adminChannelId == g.adminChannelId
    ensures !admin.Sent? ==> r.adminDashboard == g.adminDashboard
    ensures admin.SendFailed? && admin.recorded ==> r.adminChannelId == Some(admin.channelId)
    ensures admin.SendFailed? && !admin.recorded ==> r == g
    ensures admin.ChannelFailed? ==> r == g
  {
    match admin
    case ChannelFailed => g
    case SendFailed(c, recorded) => if recorded then g.(adminChannelId := Some(c)) else g
    case Sent(c, _, m) => g.(adminDashboard := MessageRef(Some(c), Some(m)))
  }

  /** `/opschoonspel` (src/index.js:974-1000): the cleaned game is saved,
      then the admin dashboard is posted anew and its ids saved. The reply
      reports how many participants were deleted and whether the new
      dashboard was posted. */
  function OpschoonSpel(data: Store, guild: GuildId, spel: int, admin: AdminRefresh): (r: Outcome)
    ensures var cleaned := Opschoon(GameOrNew(data, guild, IntToString(spel)));
      && r.reply == Cleaned(cleaned.1, admin.Sent?)
      && Slot(r.data, guild, IntToString(spel)) == Some(AdminRefreshed(cleaned.0, admin))
    ensures ElsewhereUnchanged(data, r.data, guild, IntToString(spel))
  {
    var key := IntToString(spel);
    var (loaded, game) := GetOrCreateGame(data, guild, key);
    var cleaned := Opschoon(game);
    var saved := Save(loaded, guild, key, cleaned.0);
    Outcome(Save(saved, guild, key, AdminRefreshed(cleaned.0, admin)), Cleaned(cleaned.1, admin.Sent?))
  }

  /** When `/opschoonspel` has to create the admin channel and the new
      dashboard is posted, the saved game does not keep the new channel's id:
      the snapshot saved last was loaded before the id was written. */
  lemma NewAdminChannelForgotten(data: Store, guild: GuildId, spel: int, c: string, m: string)
    requires GameOrNew(data, guild, IntToString(spel)).adminChannelId == None
    ensures var r := OpschoonSpel(data, guild, spel, Sent(c, true, m));
      && Slot(r.data, guild, IntToString(spel)).Some?
      && Slot(r.data, guild, IntToString(spel)).value.adminChannelId == None
      && Slot(r.data, guild, IntToString(spel)).value.adminDashboard == MessageRef(Some(c), Some(m))
  {
  }

  /** Approving a ticket (src/index.js:1105-1122): the game, task and user
      come from the channel topic; `userFound` is whether Discord knows the
      user id. The game is found or created under the topic's game number as
      written there. */
  function ApproveTicket(data: Store, guild: GuildId, topic: Option<string>, userFound: bool): (r: Outcome)
    ensures ParseTicketTopic(topic).None? ==> r == Outcome(data, NoTicketInfo)
    ensures ParseTicketTopic(topic).Some? && !userFound ==> r == Outcome(data, UserNotFound)
    ensures ParseTicketTopic(topic).Some? && userFound ==>
      var info := ParseTicketTopic(topic).value;
      var before := GameOrNew(data, guild, info.spelNummer);
      && r.reply == Approved(Lookup(before.taakSpots, info.taakNummer))
      && Slot(r.data, guild, info.spelNummer) == Some(Approve(before, info.taakNummer, info.userId))
      && ElsewhereUnchanged(data, r.data, guild, info.spelNummer)
  {
    match ParseTicketTopic(topic)
    case None => Outcome(data, NoTicketInfo)
    case Some(info) =>
      if !userFound then Outcome(data, UserNotFound)
      else
        var (loaded, game) := GetOrCreateGame(data, guild, info.spelNummer);
        var spotsVoorTaak := Lookup(game.taakSpots, info.taakNummer);
        Outcome(Save(loaded, guild, info.spelNummer, Approve(game, info.taakNummer, info.userId)), Approved(spotsVoorTaak))
  }

  /** A channel created by `/nieuwspel` for a non-negative game number leads
      `/setspots` run in it back to that very game. */
  lemma SetSpotsInNewChannel(data: Store, guild: GuildId, spel: int, status: Option<string>, taak: int, spots: int)
    requires spel >= 0 && IsTask(taak) && 0 <= spots <= 100000
    requires !GameOrNew(data, guild, IntToString(spel)).closed
    ensures var created := NieuwSpel(data, guild, spel, status, true);
      var r := SetSpotsCommand(created.data, guild, created.reply.channelName, taak, spots);
      && r.reply == Saved
      && Slot(r.data, guild, IntToString(spel)).Some?
      && Lookup(Slot(r.data, guild, IntToString(spel)).value.taakSpots, TaskKey(taak)) == spots
  {
    var created := NieuwSpel(data, guild, spel, status, true);
    assert SpelNummerUitKanaalnaam(created.reply.channelName) == Some(IntToString(spel));
  }

  /** Approving a ticket the bot opened for task `taak` of game `spel` does
      to the data exactly what `/geeftaak` without an amount does. */
  lemma ApproveIsGeefTaakOfOne(data: Store, guild: GuildId, spel: int, taak: int, userId: UserId)
    requires spel >= 0 && IsTask(taak) && |userId| >= 1 && IsDigits(userId)
    ensures ApproveTicket(data, guild, Some(TopicFor(IntToString(spel), TaskKey(taak), userId)), true).data
      == GeefTaakCommand(data, guild, spel, userId, taak, None).data
  {
    var key := IntToString(spel);
    var topic := Some(TopicFor(key, TaskKey(taak), userId));
    assert ParseTicketTopic(topic) == Some(TicketInfo(key, TaskKey(taak), userId));
    var (loaded, game) := GetOrCreateGame(data, guild, key);
    var awarded := Award(game, userId, TaskKey(taak), 1);
    assert Approve(game, TaskKey(taak), userId) == awarded;
    assert ApproveTicket(data, guild, topic, true).data == Save(loaded, guild, key, awarded);
    assert GeefTaak(game, userId, taak, None) == Ok(awarded);
    assert GeefTaakCommand(data, guild, spel, userId, taak, None).data == Save(loaded, guild, key, awarded);
  }

  /** `/resetspel` for one game number wipes no other game, in any guild. */
  lemma ResetLeavesOtherGames(data: Store, guild: GuildId, spel: int, other: int, h: GuildId)
    requires other != spel
    ensures Slot(ResetSpel(data, guild, spel, true).data, h, IntToString(other)) == Slot(data, h, IntToString(other))
  {
    if IntToString(other) == IntToString(spel) {
      IntToStringInjective(other, spel);
    }
  }

  /** Every game in the data file satisfies the ledger invariant. */
  ghost predicate StoreValid(data: Store) {
    forall h, s :: Slot(data, h, s).Some? ==> Valid(Slot(data, h, s).value)
  }

  /** A command as it arrives from Discord, with the options it carries and
      the outcome of the Discord calls the handler depends on. */
  datatype Command =
    | NieuwSpelCmd(spel: int, status: Option<string>, discordOk: bool)
    | SetSpotsCmd(channelName: string, taak: int, spots: int)
    | SluitSpelCmd(spel: int, at: Stamp)
    | OpenSpelCmd(spel: int)
    | ResetSpelCmd(spel: int, bevestig: bool)
    | GeefTaakCmd(spel: int, lid: UserId, taak: int, aantal: Option<int>)
    | OpschoonSpelCmd(spel: int, admin: AdminRefresh)
    | ApproveTicketCmd(topic: Option<string>, userFound: bool)

  /** The option bounds the command registration (register-commands.js)
      lets Discord enforce. */
  predicate WithinBounds(c: Command) {
    match c
    case SetSpotsCmd(_, taak, spots) => IsTask(taak) && 0 <= spots <= 100000
    case GeefTaakCmd(_, _, taak, aantal) => IsTask(taak) && (aantal.Some? ==> -1000 <= aantal.value <= 1000)
    case _ => true
  }

  function Handle(data: Store, guild: GuildId, c: Command): Outcome
    requires WithinBounds(c)
  {
    match c
    case NieuwSpelCmd(spel, status, ok) => NieuwSpel(data, guild, spel, status, ok)
    case SetSpotsCmd(name, taak, spots) => SetSpotsCommand(data, guild, name, taak, spots)
    case SluitSpelCmd(spel, at) => SluitSpel(data, guild, spel, at)
    case OpenSpelCmd(spel) => OpenSpel(data, guild, spel)
    case ResetSpelCmd(spel, bevestig) => ResetSpel(data, guild, spel, bevestig)
    case GeefTaakCmd(spel, lid, taak, aantal) => GeefTaakCommand(data, guild, spel, lid, taak, aantal)
    case OpschoonSpelCmd(spel, admin) => OpschoonSpel(data, guild, spel, admin)
    case ApproveTicketCmd(topic, found) => ApproveTicket(data, guild, topic, found)
  }

  /** A game read from a valid data file is valid, created or not. */
  lemma GameOrNewValid(data: Store, guild: GuildId, key: Key)
    requires StoreValid(data)
    ensures Valid(GameOrNew(data, guild, key))
  {
    if Slot(data, guild, key).None? {
      NewGameValid();
    }
  }

  /** Replacing one game by a valid one keeps the data file valid. */
  lemma ReplaceKeepsValid(data: Store, r: Store, guild: GuildId, key: Key)
    requires StoreValid(data) && ElsewhereUnchanged(data, r, guild, key)
    requires Slot(r, guild, key).Some? ==> Valid(Slot(r, guild, key).value)
    ensures StoreValid(r)
  {
    forall h, s | Slot(r, h, s).Some? ensures Valid(Slot(r, h, s).value) {
      if h != guild || s != key {
        assert Slot(r, h, s) == Slot(data, h, s);
      }
    }
  }

  /** The admin dashboard bookkeeping does not touch the ledger. */
  lemma AdminRefreshKeepsValid(g: Game, admin: AdminRefresh)
    requires Valid(g)
    ensures Valid(AdminRefreshed(g, admin))
  {
    var r := AdminRefreshed(g, admin);
    assert r.taakSpots == g.taakSpots && r.deelnemers == g.deelnemers && r.taakCounts == g.taakCounts;
  }

  /** Every command keeps every game in the data file valid. */
  lemma HandlePreservesValid(data: Store, guild: GuildId, c: Command)
    requires StoreValid(data) && WithinBounds(c)
    ensures StoreValid(Handle(data, guild, c).data)
  {
    var r := Handle(data, guild, c);
    match c
    case NieuwSpelCmd(spel, status, ok) =>
      GameOrNewValid(data, guild, IntToString(spel));
      ReplaceKeepsValid(data, r.data, guild, IntToString(spel));
    case SetSpotsCmd(name, taak, spots) =>
      if SpelNummerUitKanaalnaam(name).Some? {
        var key := SpelNummerUitKanaalnaam(name).value;
        GameOrNewValid(data, guild, key);
        SetSpotsPreservesValid(GameOrNew(data, guild, key), taak, spots);
        ReplaceKeepsValid(data, r.data, guild, key);
      }
    case SluitSpelCmd(spel, at) =>
      GameOrNewValid(data, guild, IntToString(spel));
      CloseOpenPreserveValid(GameOrNew(data, guild, IntToString(spel)), at);
      ReplaceKeepsValid(data, r.data, guild, IntToString(spel));
    case OpenSpelCmd(spel) =>
      GameOrNewValid(data, guild, IntToString(spel));
      CloseOpenPreserveValid(GameOrNew(data, guild, IntToString(spel)), "");
      ReplaceKeepsValid(data, r.data, guild, IntToString(spel));
    case ResetSpelCmd(spel, bevestig) =>
      GameOrNewValid(data, guild, IntToString(spel));
      ResetPreservesValid(GameOrNew(data, guild, IntToString(spel)));
      ReplaceKeepsValid(data, r.data, guild, IntToString(spel));
    case GeefTaakCmd(spel, lid, taak, aantal) =>
      GameOrNewValid(data, guild, IntToString(spel));
      GeefTaakPreservesValid(GameOrNew(data, guild, IntToString(spel)), lid, taak, aantal);
      ReplaceKeepsValid(data, r.data, guild, IntToString(spel));
    case OpschoonSpelCmd(spel, admin) =>
      var cleaned := Opschoon(GameOrNew(data, guild, IntToString(spel))).0;
      GameOrNewValid(data, guild, IntToString(spel));
      OpschoonPreservesValid(GameOrNew(data, guild, IntToString(spel)));
      AdminRefreshKeepsValid(cleaned, admin);
      ReplaceKeepsValid(data, r.data, guild, IntToString(spel));
    case ApproveTicketCmd(topic, found) =>
      if ParseTicketTopic(topic).Some? && found {
        var info := ParseTicketTopic(topic).value;
        GameOrNewValid(data, guild, info.spelNummer);
        ApprovePreservesValid(GameOrNew(data, guild, info.spelNummer), info.taakNummer, info.userId);
        ReplaceKeepsValid(data, r.data, guild, info.spelNummer);
      }
  }

  /** The data file after a sequence of commands, each in its guild. */
  function RunAll(data: Store, steps: seq<(GuildId, Command)>): Store
    requires forall i :: 0 <= i < |steps| ==> WithinBounds(steps[i].1)
    decreases |steps|
  {
    if |steps| == 0 then data
    else RunAll(Handle(data, steps[0].0, steps[0].1).data, steps[1..])
  }

  /** Starting from an empty data file, every sequence of commands leaves
      every game valid: no negative score or count, and every game-wide task
      count equal to the sum of the participants' counts. */
  lemma {:induction false} RunAllValid(data: Store, steps: seq<(GuildId, Command)>)
    requires StoreValid(data)
    requires forall i :: 0 <= i < |steps| ==> WithinBounds(steps[i].1)
    ensures StoreValid(RunAll(data, steps))
    decreases |steps|
  {
    if |steps| > 0 {
      HandlePreservesValid(data, steps[0].0, steps[0].1);
      RunAllValid(Handle(data, steps[0].0, steps[0].1).data, steps[1..]);
    }
  }

  lemma ReachableStoresValid(steps: seq<(GuildId, Command)>)
    requires forall i :: 0 <= i < |steps| ==> WithinBounds(steps[i].1)
    ensures StoreValid(RunAll(map[], steps))
  {
    RunAllValid(map[], steps);
  }
}
