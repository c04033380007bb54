# Rad van StreApp: the scoring ledger

Rad van StreApp is a Discord bot for a recurring game. Each game has:

- nine tasks, each worth an admin-set number of Spots;
- participants who complete tasks;
- a dashboard showing who has how many Spots.

All state lives in one JSON data file: guild id, then game number, then a game record. The game record holds:

- the Spot value of each task (`taakSpots`);
- the participants (`deelnemers`), each with a total (`totaalSpots`) and a count per task (`taken`);
- how often each task has been credited in the whole game (`taakCounts`);
- whether the game is closed.

Every command handler works the same way: it loads the file, finds or creates the game, applies one mutation, and saves. A handler that refuses returns before saving.

This project models that record and its mutations as pure Dafny functions:

- `Ledger` holds the game record and its mutations:
  - `ensureDeelnemer`, the structural repair of participant records;
  - reset;
  - setting Spots;
  - closing and reopening;
  - the manual award and revoke of `/geeftaak`;
  - ticket approval;
  - the `/opschoonspel` cleanup.
- `LedgerInvariants` states the invariant every mutation keeps: nothing is negative, and for each of the nine tasks the game-wide count is the sum of the participants' counts. It proves that each mutation preserves it. A consequence is that the `Math.max(0, …)` clamp on the game-wide count in the revoke branch never changes anything.
- `Commands` puts each mutation inside its handler as a transition of the whole data file:
  - a refused command leaves the file as it was;
  - no other game changes.
  
  From an empty file, every sequence of commands leaves every game valid.
- `Patterns`, `ChannelNames` and `TicketTopic` model the two regular-expression searches:
  - the game number in a channel name, `spel-(\d+)`;
  - the fields of a ticket topic, `Spel\s+(\d+)` and the like.
  
  Each is proved to invert the text the bot writes.
- `Slugs` models the two name sanitisers: the status suffix of a game channel, and the user part of a ticket channel's name.
- `Text` and `Options` are shared helpers: decimal formatting as JavaScript's `String(n)` does it, and Option/Result types.

Behaviour the model reproduces as written:

- Neither `/geeftaak` nor ticket approval looks at the closed flag.
- A revoke charges a task's current Spot value, not the value it was awarded at. Raising a task's Spots and then revoking it therefore takes away more than that task ever earned, eating into what other tasks earned. For example: task 1 is awarded at 10 and task 2 at 50, then task 1 is raised to 50 and revoked. The total drops from 60 to 10 and no clamp fires (`LedgerInvariants.RevokeChargesOtherEarnings`). The clamp at 0 only applies when the charge exceeds the whole total; it then raises the result to 0 (`LedgerInvariants.RevokeAtCurrentSpots`).
- `/nieuwspel` accepts negative game numbers. It stores the game under "-5" and names the channel `🎡spel--5-<status>`. No digit follows that `spel-`, so the name yields whatever the status yields, and never "-5" (`ChannelNames.GameChannelName`). With the status "actief" it yields nothing (`ChannelNames.NegativeGameLost`). With the status "spel-3" it yields "3", so channel commands there act on game 3 (`ChannelNames.NegativeGameMisdirected`).
- After its cleanup, `/opschoonspel` calls `forceRefreshAdminDashboard`. That helper loads the data file, waits for `ensureAdminChannel` (which may save a new `adminChannelId` itself), sends a new admin dashboard and then saves the data it loaded first, with the new message recorded. A new admin channel id saved in between is overwritten by the old value (`Commands.NewAdminChannelForgotten`).
- In `sanitizeDeelnemerStructuur`, the loop copies scores back from `info`. `info` is the very object `ensureDeelnemer` has just repaired in place, so the copy-back writes what is already there. The model repairs each record once.
- Ticket approval uses a task number from the topic verbatim as the key. Games and tasks written as "007" or "12" are therefore different keys from "7", or from any of the nine tasks.
- The handlers take their game number from `String(spel)` for the slash commands, but from the matched digit string for channel commands and tickets.

The option bounds registered for the commands are preconditions of the mutations (register-commands.js:27-40, 96-108):

- `taak` in 1..9;
- `spots` in 0..100000;
- `aantal` in -1000..1000.

The game number `spel` is unbounded.

## Model

| member | source | states |
|---|---|---|
| Text.IntToString | src/index.js:763 | `String(spel)` is a non-empty string. It is all digits exactly when the number is non-negative, and starts with '-' otherwise |
| Text.IntToStringValue | src/index.js:763 | the digits of `String(n)` denote `n` for a non-negative number; for a negative one, the string is '-' followed by digits that denote its absolute value |
| Text.NatToString | src/index.js:763 | `String(n)` of a non-negative number is a non-empty digit string without a leading zero |
| Text.NatToStringRoundTrip | src/index.js:763 | reading back the decimal string of a non-negative number gives the number |
| Text.IntToStringInjective | src/index.js:763 | distinct game numbers give distinct keys in the data file |
| Patterns.FirstMatch | src/index.js:82-83 | a captured group is a non-empty digit string |
| Patterns.FirstMatchIsLeftmost | src/index.js:82-83 | the search finds a match exactly when the pattern occurs, and returns the capture of the leftmost occurrence |
| ChannelNames.SpelNummerUitKanaalnaam | src/index.js:81-84 | a channel name yields a number exactly when `spel-` followed by a digit occurs in it (in any case). The number is a non-empty digit string |
| ChannelNames.GameChannelName | src/index.js:654 | the name `/nieuwspel` gives a channel, read back, gives exactly the key the game was stored under when the game number is non-negative, whatever the status. For a negative game number it yields exactly what the status alone yields, and never the key the game was stored under |
| ChannelNames.NegativeGameLost | src/index.js:650-661 | the channel of game -5 with the status "actief" yields no game number |
| ChannelNames.NegativeGameMisdirected | src/index.js:650-661 | the channel of game -5 with the status "spel-3" yields game "3" |
| TicketTopic.ParseTicketTopic | src/index.js:163-170 | the result is null exactly when the topic is missing or lacks one of the three fields. Each field found is a non-empty digit string |
| TicketTopic.TopicFor | src/index.js:238 | parsing the topic written for a ticket gives back its game, task and user, for any non-empty digit strings |
| Slugs.KeepSlugChars | src/index.js:480 | the filter leaves only `[a-z0-9-]`, and leaves text already made of those characters unchanged |
| Slugs.KeepSlugCharsCounts | src/index.js:480 | every character of `[a-z0-9-]` survives the filter exactly as often as it occurs |
| Slugs.KeepSlugCharsConcat | src/index.js:480 | filtering two pieces of text and joining them is filtering their join, so the order is kept |
| Slugs.KeepSlugCharsNone | src/index.js:480-481 | text with no character of `[a-z0-9-]` filters to nothing |
| Slugs.Slug | src/index.js:478-481 | the name is the lower-cased and filtered text cut to its first `maxLen` characters, or the fallback when nothing survives the filter |
| Slugs.SanitizeStatus | src/index.js:478-481 | the status suffix is 1 to 20 characters, all from `[a-z0-9-]`. It is "actief" for a missing status or one that filters to nothing, and otherwise the first 20 characters of the lower-cased and filtered status |
| Slugs.SanitizeStatusKeepsSlug | src/index.js:478-481 | a status already in sanitised form comes back unchanged |
| Slugs.SanitizeStatusIdempotent | src/index.js:478-481 | sanitising a sanitised status changes nothing |
| Slugs.SanitizeStatusIgnoresAsciiCase | src/index.js:480 | lower-casing the ASCII letters of a status beforehand does not change the result |
| Slugs.SanitizeStatusFallback | src/index.js:479-481 | a missing status becomes "actief", and so does any status whose lower-cased form has no character of `[a-z0-9-]` |
| Slugs.LowerCaseForSlug | src/index.js:480 | lower-casing never shortens the text |
| Slugs.LowerCaseForSlugChar | src/index.js:480 | `toLowerCase`, as the filter sees it, turns an ASCII capital into its small letter, U+0130 into "i" plus U+0307, U+212A into "k", and keeps every other character |
| Slugs.LowerCaseForSlugConcat | src/index.js:480 | lower-casing two pieces of text and joining them is lower-casing their join, so the result is the characters' images in order |
| Slugs.LowerCaseAsciiOnly | src/index.js:480 | for text without U+0130 and U+212A, `toLowerCase` as the filter sees it is ASCII lower-casing |
| Slugs.SanitizeStatusLowersAndFilters | src/index.js:480-481 | for any status without U+0130 and U+212A, the result is the ASCII-lower-cased status with everything outside `[a-z0-9-]` removed, cut to 20 characters, or "actief" when nothing is left |
| Slugs.SanitizeStatusDottedCapitalI | src/index.js:480 | U+0130 lower-cases to "i" plus a combining dot, and the "i" survives the filter |
| Slugs.LowerCaseKeepsSlug | src/index.js:480 | lower-casing leaves `[a-z0-9-]` text alone |
| Slugs.TicketUserSlug | src/index.js:205 | the user part of a ticket channel name is 1 to 12 characters from `[a-z0-9-]`: the first 12 characters of the lower-cased and filtered user name, or "user" when nothing survives the filter |
| Slugs.TicketUserSlugIdempotent | src/index.js:205 | sanitising a sanitised user part changes nothing |
| Ledger.TaskKey | src/index.js:895 | the key of task `t` is `String(t)` |
| Ledger.NewGame | src/index.js:64-74 | a new game has Spot values and counts 0 for exactly the nine task keys and no participants. It is open, has no closing stamp, and records no dashboard, task message, admin dashboard or admin channel |
| Ledger.RepairParticipant | src/index.js:568-577 | a repaired record has a numeric total and a numeric count for each task. It shows the same scores as before, and keeps every key. A record needing no repair is returned as it is |
| Ledger.RepairOfMissingIsFresh | src/index.js:564-577 | repairing an empty record gives the record created for a new participant, so the two branches agree |
| Ledger.EnsureDeelnemer | src/index.js:563-579 | the participant is then present and repaired, with the scores they had (0 when new). No other participant or field changes |
| Ledger.EnsureDeelnemerIdempotent | src/index.js:563-579 | a second call changes nothing |
| Ledger.ResetGameProgress | src/index.js:581-584 | no participants, and the counts hold exactly the nine task keys, each 0. Every other field is unchanged: Spot values, the closed flag, the stamp and the recorded dashboard and admin ids |
| Ledger.SetSpots | src/index.js:711-716 | refused exactly for a closed game. Otherwise that task is worth `spots` and every other key and field is unchanged |
| Ledger.Close | src/index.js:768-771 | refused exactly when already closed. Otherwise the game is closed at the given stamp and nothing else changes |
| Ledger.Open | src/index.js:816-819 | refused exactly when not closed. Otherwise the game is open without a stamp and nothing else changes |
| Ledger.ReopenUndoesClose | src/index.js:768-819 | reopening a freshly closed game that had no stamp restores it exactly |
| Ledger.CloseUndoesOpen | src/index.js:768-819 | closing a reopened game gives the closed game with the new stamp |
| Ledger.Award | src/index.js:941-946 | the participant's count for that task and the game-wide count rise by `aantal`, and the total by its Spots times `aantal`. Every other count, participant and field is unchanged |
| Ledger.Revoke | src/index.js:905-918 | refused, reporting the current count, exactly when the participant holds that task fewer than `abs` times. Otherwise the count drops by exactly `abs`. The total drops by current Spots times `abs`, clamped at 0. The game-wide count drops by `abs`, clamped at 0. Nothing else changes |
| Ledger.GeefTaak | src/index.js:892-946 | a missing amount means 1. A non-negative amount is an award, a negative one a revoke of its absolute value |
| Ledger.Approve | src/index.js:1111-1120 | approving a ticket is exactly an award of one |
| Ledger.TakenUpToZero | src/index.js:603-606 | the sum of the nine counts is 0 when each is. When none is negative, it is 0 only when each is |
| Ledger.DeelnemerIsLeeg | src/index.js:600-608 | an empty participant has total 0. A participant with total 0 and nine zero counts is empty. An empty participant with no negative numbers has nine zero counts |
| Ledger.LeegIgnoresRepair | src/index.js:600-624 | emptiness is judged the same before and after the structural repair |
| Ledger.Sanitize | src/index.js:610-624 | every participant is repaired and keeps their scores. The participant set and every other field are unchanged |
| Ledger.SanitizeIdempotent | src/index.js:610-624 | repairing twice is repairing once |
| Ledger.PruneAfterSanitize | src/index.js:981-989 | the prune after the repair keeps exactly the participants that were not empty before it |
| Ledger.Opschoon | src/index.js:981-991 | exactly the non-empty participants remain, repaired and with their scores. `removed` is the number deleted. No other field changes |
| LedgerInvariants.NewGameValid | src/index.js:64-74 | a new game satisfies the invariant |
| LedgerInvariants.EnsureDeelnemerPreservesValid | src/index.js:563-579 | repairing or adding a participant keeps the invariant |
| LedgerInvariants.ResetPreservesValid | src/index.js:581-584 | a reset game satisfies the invariant |
| LedgerInvariants.SetSpotsPreservesValid | src/index.js:716 | setting a task's Spots keeps the invariant |
| LedgerInvariants.CloseOpenPreserveValid | src/index.js:768-819 | closing and reopening keep the invariant |
| LedgerInvariants.AwardPreservesValid | src/index.js:941-946 | a non-negative award on a task keeps the invariant |
| LedgerInvariants.RevokeCountExact | src/index.js:918 | in a valid game, the clamp on the game-wide count never fires: it drops by exactly `abs` |
| LedgerInvariants.RevokePreservesValid | src/index.js:905-918 | an accepted revoke keeps the invariant |
| LedgerInvariants.GeefTaakPreservesValid | src/index.js:900-946 | `/geeftaak` with any amount within the bounds keeps the invariant |
| LedgerInvariants.ApprovePreservesValid | src/index.js:1111-1120 | approving a ticket keeps the invariant |
| LedgerInvariants.OpschoonKeepsSum | src/index.js:985-989 | deleting participants whose count for a task is 0 keeps the game-wide sum for that task |
| LedgerInvariants.OpschoonPreservesValid | src/index.js:981-991 | cleanup keeps the invariant |
| LedgerInvariants.RevokeAtCurrentSpots | src/index.js:913-916 | a task is awarded at 10 Spots, raised to 50, then revoked. The game stays valid, the count returns to 0, and the total is clamped from 10 to 0 |
| LedgerInvariants.RevokeChargesOtherEarnings | src/index.js:913-916 | tasks 1 and 2 are awarded at 10 and 50 Spots, task 1 is raised to 50, then revoked. The total drops from 60 to 10, although task 2 is still credited |
| Commands.GetOrCreateGame | src/index.js:61-77 | an existing game is returned and the data is unchanged. Otherwise a new game is stored under the key and returned. No other game in any guild changes |
| Commands.GetOrCreateGameIdempotent | src/index.js:61-77 | a second call finds what the first stored and changes nothing |
| Commands.NieuwSpel | src/index.js:650-672 | when the Discord calls fail, nothing is saved. Otherwise the game (existing or new) is stored under `String(spel)` and the reply names the channel after the game and the sanitised status |
| Commands.SetSpotsCommand | src/index.js:706-717 | no game number in the channel name: nothing changes. A closed game: refused, nothing saved. Otherwise the reply is a success, the game gets the new Spot value and no other game changes |
| Commands.SluitSpel | src/index.js:762-772 | refused, with nothing saved, exactly when the game is already closed. Otherwise the reply is a success and the stored game is closed at the stamp |
| Commands.OpenSpel | src/index.js:810-820 | refused, with nothing saved, exactly when the game is not closed; otherwise the reply is a success and the stored game is open. Reopening a game that does not exist creates nothing |
| Commands.ResetSpel | src/index.js:858-870 | without `bevestig`, nothing changes. Otherwise the stored game is the reset game |
| Commands.ResetLeavesOtherGames | src/index.js:858-870 | resetting one game number leaves every other game number in every guild as it was |
| Commands.GeefTaakCommand | src/index.js:889-948 | refused, with the data as it was (including no new participant), exactly when the revoke is refused. Otherwise the reply is a success and the stored game is the awarded or revoked game |
| Commands.AdminRefreshed | src/index.js:626-637 | after the forced admin-dashboard refresh, only the two admin fields can differ. A sent dashboard is recorded with the admin channel id as first loaded. A failed send keeps the channel id `ensureAdminChannel` saved; when it saved none, the game is unchanged. A failure to get a channel changes nothing |
| Commands.OpschoonSpel | src/index.js:974-1000 | the reply is the number of participants deleted and whether the dashboard was sent. The stored game is the cleaned game after the forced admin-dashboard refresh. No other game changes |
| Commands.NewAdminChannelForgotten | src/index.js:626-637 | when the refresh creates an admin channel and sends the dashboard there, the stored game records the new dashboard but no admin channel id |
| Commands.AdminRefreshKeepsValid | src/index.js:626-637 | the refresh keeps the invariant |
| Commands.ApproveTicket | src/index.js:1105-1122 | no topic fields or an unknown user: nothing changes. Otherwise the game under the topic's game number is the approved game, and the reply is that task's Spots as read before |
| Commands.SetSpotsInNewChannel | src/index.js:706-716 | `/setspots` run in the channel `/nieuwspel` created for a non-negative game number sets the Spots of that very game |
| Commands.ApproveIsGeefTaakOfOne | src/index.js:1111-1120 | approving a ticket the bot opened for task `taak` of game `spel` changes the data exactly as `/geeftaak` without an amount does |
| Commands.HandlePreservesValid | src/index.js:642-1122 | every command within its option bounds keeps every game in the data file valid |
| Commands.RunAllValid | src/index.js:642-1122 | any sequence of commands from a valid data file ends in a valid data file |
| Commands.ReachableStoresValid | src/index.js:642-1122 | every data file reachable from an empty one is valid: nothing is negative, and the game-wide count of each of the nine task keys is the sum of the participants' counts for it |

## Left out

- Everything that goes through discord.js:
  - permission checks, replies and ephemeral deferral;
  - role and channel creation, buttons, modals, DMs and log messages;
  - ticket channel creation and deletion.
  
  `/nieuwspel`'s role and channel creation is a parameter `discordOk`. The user lookup of ticket approval is a parameter `userFound`.
- `/nieuwspel` saves before it sends its welcome message. If that message fails, the game stays saved but the reply reports failure. The model does not distinguish this case.
- `loadData`, `saveData` and `ensureDataFile` (JSON on disk): the data file is an in-memory map. A handler's outcome is the data it would save.
- The clock: the closing stamp `new Date().toISOString()` is a parameter of `/sluitspel`.
- Timers: the delayed deletion of ticket channels.
- Dashboard and admin-dashboard rendering, including their sort by Spots and the 150-row cap. The rendered text is not modelled. The message and channel ids the helpers record are modelled only for the forced refresh at the end of `/opschoonspel`.
- `/setupspel` and `/setupadmin`. Besides `getOrCreateGame`, their helpers `ensureDashboardMessage`, `ensureTasksMessage`, `ensureAdminChannel` and `ensureAdminDashboard` save the game's `dashboard`, `ui`, `adminChannelId` and `adminDashboard` ids. `ensureAdminDashboard` has the same load, wait and save shape as the forced refresh, so its final save can also overwrite the `adminChannelId` that `ensureAdminChannel` saved in between. No modelled command other than `/opschoonspel` changes these fields.
- Concurrency. Each handler is modelled as one atomic step, and commands run one after another. In the bot, `ensureAdminChannel`, `ensureAdminDashboard`, `ensureDashboardMessage`, `ensureTasksMessage` and `forceRefreshAdminDashboard` each save a copy of the whole data file that they loaded before waiting on Discord. A command that runs and saves during that wait is undone by the later save.
- Registration of the signup button (`aanmelden_spel`), the ticket flow before approval, and the rejection modal. They only touch Discord.
- `findSpelRole` and the channel searches over the guild cache.
- register-commands.js: a registration script. Only its option bounds are used, as preconditions.
- JSON values that are neither numbers nor missing:
  - a string or `null` score is read as missing;
  - JavaScript's `x ?? 0` would yield the string itself, or 0 for `null`.
  
  Only a hand-edited data file can hold such values.
- Fractional or NaN numbers: every number the commands write is an integer.
- A `deelnemers` or `taakCounts` object missing from a game: every game the bot creates has both.
- The text is a sequence of Unicode scalar values where JavaScript uses UTF-16 code units. The patterns and sanitisers only look for ASCII, so this does not change a result.
- Discord's own normalisation of channel names. The model reads back the name the bot asked for.
- `toLowerCase` outside what the `[^a-z0-9-]` filter can see. Only the two non-ASCII characters that lower-case to ASCII are modelled; every other character is removed by the filter either way.
- LedgerInvariants.Consistent: the invariant covers the nine task keys "1" to "9". A hand-edited ticket topic can credit another key, such as "12". Cleanup does not look at such keys, so their game-wide count may then differ from the participants' sum.
- Patterns.FirstMatch: its own contract only says a capture is a non-empty digit string. That the search finds a match exactly when the pattern occurs, and returns the capture of the leftmost occurrence, is stated by `Patterns.FirstMatchIsLeftmost`. It is a separate lemma because, as a postcondition, it would make every evaluation of the search on fixed text expensive to verify.
- Slugs.LowerCaseForSlug: its own contract only says lower-casing never shortens the text. Its value on every text is stated by `Slugs.LowerCaseForSlugChar` together with `Slugs.LowerCaseForSlugConcat`, for the same reason.
- Ledger.DeelnemerIsLeeg: for records with negative numbers the contract is weaker than the code. Such records are only reachable by editing the data file. There, the code sums the nine counts, so counts that cancel out also make a record empty. The contract then only says that the total is 0.
- Ledger.Opschoon: a participant that stays has the same scores. It is not identical, because the structural repair may have added zero counts, exactly as the code does.
