/** The per-game scoring ledger (src/index.js): one record per game with the
    Spot value of each of the nine tasks, the participants' scores, how often
    each task has been credited in total, and whether the game is closed.
    Every command handler reads this record, applies one mutation and writes
    it back; the mutations are the pure functions below. */
module Ledger {
  import opened Options
  import opened Text

  /** A property name of a JSON object: task numbers are kept as strings. */
  type Key = string
  type UserId = string
  /** The ISO time stamp a closed game records; the clock is not modelled. */
  type Stamp = string

  /** A participant record. A score field that is missing or not a number is
      None; a `taken` object that is missing is the empty map. A participant
      that is missing altogether or `null` behaves as Participant(None, map[]). */
  datatype Participant = Participant(totaalSpots: Option<int>, taken: map<Key, Option<int>>)

  /** Where a dashboard message lives; the bot fills these in when it posts. */
  datatype MessageRef = MessageRef(channelId: Option<string>, messageId: Option<string>)

  datatype Game = Game(
    taakSpots: map<Key, int>,
    deelnemers: map<UserId, Participant>,
    taakCounts: map<Key, int>,
    dashboard: MessageRef,
    ui: MessageRef,
    adminDashboard: MessageRef,
    adminChannelId: Option<string>,
    closed: bool,
    closedAt: Option<Stamp>)

  /** Why a mutation was refused; a refused command saves nothing. */
  datatype Rejection =
    | GameClosed
    | AlreadyClosed
    | NotClosed
    | NotEnoughTaken(huidig: int)

  predicate IsTask(t: int) {
    1 <= t <= 9
  }

  /** `String(t)` for a task number. */
  function TaskKey(t: int): (k: Key)
    requires IsTask(t)
    ensures k == IntToString(t)
  {
    [DigitChar(t)]
  }

  /** The keys "1" to "9". */
  const TaskKeys: set<Key> := set t | 1 <= t <= 9 :: TaskKey(t)

  /** `{ "1": 0, …, "9": 0 }` */
  function ZeroCounts(): map<Key, int> {
    map k | k in TaskKeys :: 0
  }

  /** `m[k] ?? 0` */
  function Lookup(m: map<Key, int>, k: Key): int {
    if k in m then m[k] else 0
  }

  /** `taken[k] ?? 0` */
  function Taken(p: Participant, k: Key): int {
    if k in p.taken && p.taken[k].Some? then p.taken[k].value else 0
  }

  /** `totaalSpots ?? 0`, or 0 when it is not a number. */
  function Totaal(p: Participant): int {
    p.totaalSpots.GetOr(0)
  }

  /** The record of `u`, a missing one read as an empty record. */
  function DeelnemerOf(g: Game, u: UserId): Participant {
    if u in g.deelnemers then g.deelnemers[u] else Participant(None, map[])
  }

  /** Two records that show the same scores wherever the bot reads them. */
  ghost predicate SameScores(p: Participant, q: Participant) {
    Totaal(p) == Totaal(q) && forall k :: Taken(p, k) == Taken(q, k)
  }

  /** What `ensureDeelnemer` guarantees about a record: a numeric total and
      a numeric count for each of the nine tasks. */
  predicate Repaired(p: Participant) {
    p.totaalSpots.Some? && forall k :: k in TaskKeys ==> k in p.taken && p.taken[k].Some?
  }

  /** The record `ensureDeelnemer` writes for a participant it has not seen. */
  function FreshParticipant(): Participant {
    Participant(Some(0), map k | k in TaskKeys :: Some(0))
  }

  /** `ensureDeelnemer` on an existing record: a non-numeric total becomes 0,
      a missing `taken` object becomes nine zeros, a non-numeric task count
      becomes 0; every number already there is kept, and so is every entry
      of `taken` outside the nine tasks. */
  function RepairParticipant(p: Participant): (r: Participant)
    ensures Repaired(r) && SameScores(r, p)
    ensures r.taken.Keys == p.taken.Keys + TaskKeys
    ensures Repaired(p) ==> r == p
  {
    var taken := map k | k in p.taken.Keys + TaskKeys ::
      if k in p.taken && (p.taken[k].Some? || k !in TaskKeys) then p.taken[k] else Some(0);
    var r := Participant(Some(Totaal(p)), taken);
    if Repaired(p) then
      assert p.taken.Keys + TaskKeys == p.taken.Keys;
      assert r.taken == p.taken;
      r
    else r
  }

  /** A participant nobody has seen yet is repaired into the fresh record, so
      the two branches of `ensureDeelnemer` agree. */
  lemma RepairOfMissingIsFresh()
    ensures RepairParticipant(Participant(None, map[])) == FreshParticipant()
  {
    var r := RepairParticipant(Participant(None, map[]));
    assert r.taken == FreshParticipant().taken;
  }

  /** `getOrCreateGame`'s fresh record. */
  function NewGame(): (g: Game)
    ensures g.taakSpots.Keys == TaskKeys && g.taakCounts.Keys == TaskKeys
    ensures forall k :: Lookup(g.taakSpots, k) == 0 && Lookup(g.taakCounts, k) == 0
    ensures g.deelnemers == map[] && !g.closed && g.closedAt == None
    ensures g.dashboard == MessageRef(None, None) && g.ui == MessageRef(None, None)
    ensures g.adminDashboard == MessageRef(None, None) && g.adminChannelId == None
  {
    var none := MessageRef(None, None);
    Game(ZeroCounts(), map[], ZeroCounts(), none, none, none, None, false, None)
  }

  /** `ensureDeelnemer(game, userId)`. */
  function EnsureDeelnemer(g: Game, u: UserId): (r: Game)
    ensures u in r.deelnemers && Repaired(r.deelnemers[u])
    ensures SameScores(r.deelnemers[u], DeelnemerOf(g, u))
    ensures r.deelnemers.Keys == g.deelnemers.Keys + {u}
    ensures forall v :: v in g.deelnemers && v != u ==> r.deelnemers[v] == g.deelnemers[v]
    ensures r.(deelnemers := g.deelnemers) == g
  {
    if u !in g.deelnemers then
      RepairOfMissingIsFresh();
      g.(deelnemers := g.deelnemers[u := FreshParticipant()])
    else
      g.(deelnemers := g.deelnemers[u := RepairParticipant(g.deelnemers[u])])
  }

  /** Repairing a participant twice is repairing once. */
  lemma EnsureDeelnemerIdempotent(g: Game, u: UserId)
    ensures EnsureDeelnemer(EnsureDeelnemer(g, u), u) == EnsureDeelnemer(g, u)
  {
    var g1 := EnsureDeelnemer(g, u);
    assert g1.deelnemers[u := RepairParticipant(g1.deelnemers[u])] == g1.deelnemers;
  }

  /** `resetGameProgress`: scores and task counts are wiped; the Spot values,
      the closed state and the dashboard ids stay. */
  function ResetGameProgress(g: Game): (r: Game)
    ensures r.deelnemers == map[]
    ensures r.taakCounts.Keys == TaskKeys && forall k :: k in r.taakCounts ==> r.taakCounts[k] == 0
    ensures forall t :: IsTask(t) ==> Lookup(r.taakCounts, TaskKey(t)) == 0
    ensures r.(deelnemers := g.deelnemers, taakCounts := g.taakCounts) == g
  {
    g.(deelnemers := map[], taakCounts := ZeroCounts())
  }

  /** `/setspots` once the game is found (src/index.js:711-716): refused for
      a closed game, otherwise task `taak` is worth `spots` from now on. */
  function SetSpots(g: Game, taak: int, spots: int): (r: Result<Game, Rejection>)
    requires IsTask(taak) && 0 <= spots <= 100000
    ensures r.Err? <==> g.closed
    ensures r.Err? ==> r.error == GameClosed
    ensures r.Ok? ==> Lookup(r.value.taakSpots, TaskKey(taak)) == spots
    ensures r.Ok? ==> forall k :: k != TaskKey(taak) ==> Lookup(r.value.taakSpots, k) == Lookup(g.taakSpots, k)
    ensures r.Ok? ==> r.value.(taakSpots := g.taakSpots) == g
  {
    if g.closed then Err(GameClosed)
    else Ok(g.(taakSpots := g.taakSpots[TaskKey(taak) := spots]))
  }

  /** `/sluitspel`: refused when already closed; otherwise closed at `at`. */
  function Close(g: Game, at: Stamp): (r: Result<Game, Rejection>)
    ensures r.Err? <==> g.closed
    ensures r.Err? ==> r.error == AlreadyClosed
    ensures r.Ok? ==> r.value.closed && r.value.closedAt == Some(at)
    ensures r.Ok? ==> r.value.(closed := g.closed, closedAt := g.closedAt) == g
  {
    if g.closed then Err(AlreadyClosed)
    else Ok(g.(closed := true, closedAt := Some(at)))
  }

  /** `/openspel`: refused when not closed; otherwise open with no stamp. */
  function Open(g: Game): (r: Result<Game, Rejection>)
    ensures r.Err? <==> !g.closed
    ensures r.Err? ==> r.error == NotClosed
    ensures r.Ok? ==> !r.value.closed && r.value.closedAt == None
    ensures r.Ok? ==> r.value.(closed := g.closed, closedAt := g.closedAt) == g
  {
    if !g.closed then Err(NotClosed)
    else Ok(g.(closed := false, closedAt := None))
  }

  /** Reopening a game that was just closed restores it exactly, when it had
      no stamp before (as every open game the bot itself produces). */
  lemma ReopenUndoesClose(g: Game, at: Stamp)
    requires !g.closed && g.closedAt == None
    ensures Close(g, at).Ok? && Open(Close(g, at).value) == Ok(g)
  {
  }

  /** Closing a game that was just reopened gives a closed game again, with
      the new stamp. */
  lemma CloseUndoesOpen(g: Game, at: Stamp)
    requires g.closed
    ensures Open(g).Ok? && Close(Open(g).value, at) == Ok(g.(closedAt := Some(at)))
  {
  }

  /** The positive branch of `/geeftaak` (src/index.js:900-903, 941-946): after
      `ensureDeelnemer`, `u` is credited `aantal` times with task `key` at its
      current Spot value, and the game-wide count for `key` rises with it. */
  function Award(g: Game, u: UserId, key: Key, aantal: int): (r: Game)
    ensures u in r.deelnemers && Repaired(r.deelnemers[u])
    ensures Taken(r.deelnemers[u], key) == Taken(DeelnemerOf(g, u), key) + aantal
    ensures forall k :: k != key ==> Taken(r.deelnemers[u], k) == Taken(DeelnemerOf(g, u), k)
    ensures Totaal(r.deelnemers[u]) == Totaal(DeelnemerOf(g, u)) + Lookup(g.taakSpots, key) * aantal
    ensures Lookup(r.taakCounts, key) == Lookup(g.taakCounts, key) + aantal
    ensures forall k :: k != key ==> Lookup(r.taakCounts, k) == Lookup(g.taakCounts, k)
    ensures r.deelnemers.Keys == g.deelnemers.Keys + {u}
    ensures forall v :: v in g.deelnemers && v != u ==> r.deelnemers[v] == g.deelnemers[v]
    ensures r.(deelnemers := g.deelnemers, taakCounts := g.taakCounts) == g
  {
    var g1 := EnsureDeelnemer(g, u);
    var p := g1.deelnemers[u];
    var spotsPer := Lookup(g1.taakSpots, key);
    var p1 := Participant(Some(Totaal(p) + spotsPer * aantal), p.taken[key := Some(Taken(p, key) + aantal)]);
    g1.(deelnemers := g1.deelnemers[u := p1],
        taakCounts := g1.taakCounts[key := Lookup(g1.taakCounts, key) + aantal])
  }

  /** The negative branch of `/geeftaak` (src/index.js:905-918) for
      `abs = |aantal|`: refused when `u` holds task `taak` fewer than `abs`
      times; otherwise the count drops by exactly `abs`, the total by `abs`
      times that task's current Spot value, and the total and the game-wide
      count are clamped at 0. */
  function Revoke(g: Game, u: UserId, taak: int, abs: int): (r: Result<Game, Rejection>)
    requires IsTask(taak) && abs >= 1
    ensures r.Err? <==> Taken(DeelnemerOf(g, u), TaskKey(taak)) < abs
    ensures r.Err? ==> r.error == NotEnoughTaken(Taken(DeelnemerOf(g, u), TaskKey(taak)))
    ensures r.Ok? ==> u in r.value.deelnemers && Repaired(r.value.deelnemers[u])
    ensures r.Ok? ==> Taken(r.value.deelnemers[u], TaskKey(taak)) == Taken(DeelnemerOf(g, u), TaskKey(taak)) - abs
    ensures r.Ok? ==> forall k :: k != TaskKey(taak) ==> Taken(r.value.deelnemers[u], k) == Taken(DeelnemerOf(g, u), k)
    ensures r.Ok? ==>
      Totaal(r.value.deelnemers[u]) == Max0(Totaal(DeelnemerOf(g, u)) - Lookup(g.taakSpots, TaskKey(taak)) * abs)
    ensures r.Ok? ==> Lookup(r.value.taakCounts, TaskKey(taak)) == Max0(Lookup(g.taakCounts, TaskKey(taak)) - abs)
    ensures r.Ok? ==> forall k :: k != TaskKey(taak) ==> Lookup(r.value.taakCounts, k) == Lookup(g.taakCounts, k)
    ensures r.Ok? ==> r.value.deelnemers.Keys == g.deelnemers.Keys + {u}
    ensures r.Ok? ==> forall v :: v in g.deelnemers && v != u ==> r.value.deelnemers[v] == g.deelnemers[v]
    ensures r.Ok? ==> r.value.(deelnemers := g.deelnemers, taakCounts := g.taakCounts) == g
  {
    var key := TaskKey(taak);
    var g1 := EnsureDeelnemer(g, u);
    var p := g1.deelnemers[u];
    var spotsPer := Lookup(g1.taakSpots, key);
    var huidig := Taken(p, key);
    if huidig < abs then Err(NotEnoughTaken(huidig))
    else
      var p1 := Participant(Some(Max0(Totaal(p) - spotsPer * abs)), p.taken[key := Some(huidig - abs)]);
      Ok(g1.(deelnemers := g1.deelnemers[u := p1],
             taakCounts := g1.taakCounts[key := Max0(Lookup(g1.taakCounts, key) - abs)]))
  }

  /** `Math.max(0, x)` */
  function Max0(x: int): int {
    if x < 0 then 0 else x
  }

  /** `/geeftaak` once the game is found: `aantal` defaults to 1; a negative
      amount revokes, zero or more awards. The handler does not look at
      `closed`. */
  function GeefTaak(g: Game, u: UserId, taak: int, aantal: Option<int>): (r: Result<Game, Rejection>)
    requires IsTask(taak)
    requires aantal.Some? ==> -1000 <= aantal.value <= 1000
    ensures aantal.GetOr(1) >= 0 ==> r == Ok(Award(g, u, TaskKey(taak), aantal.GetOr(1)))
    ensures aantal.GetOr(1) < 0 ==> r == Revoke(g, u, taak, -aantal.GetOr(1))
    ensures aantal == None ==> r.Ok? && Taken(r.value.deelnemers[u], TaskKey(taak)) == Taken(DeelnemerOf(g, u), TaskKey(taak)) + 1
  {
    var amount := aantal.GetOr(1);
    if amount < 0 then Revoke(g, u, taak, -amount)
    else Ok(Award(g, u, TaskKey(taak), amount))
  }

  /** Approving a ticket (src/index.js:1111-1120) for a task number read
      from its topic, used verbatim as key: the participant gains that task's
      Spots and one more completion, and the game-wide count rises by one.
      This is exactly a `/geeftaak` award of one. The handler does not look at
      `closed`. */
  function Approve(g: Game, key: Key, u: UserId): (r: Game)
    ensures r == Award(g, u, key, 1)
  {
    var spotsVoorTaak := Lookup(g.taakSpots, key);
    var g1 := EnsureDeelnemer(g, u);
    var p := g1.deelnemers[u];
    var p1 := Participant(Some(Totaal(p) + spotsVoorTaak), p.taken[key := Some(Taken(p, key) + 1)]);
    assert spotsVoorTaak == Lookup(g1.taakSpots, key) * 1;
    g1.(deelnemers := g1.deelnemers[u := p1],
        taakCounts := g1.taakCounts[key := Lookup(g1.taakCounts, key) + 1])
  }

  /** No negative score anywhere in the record. */
  ghost predicate NonNegParticipant(p: Participant) {
    Totaal(p) >= 0 && forall k :: Taken(p, k) >= 0
  }

  /** `taken["1"] ?? 0` + … + `taken[String(n)] ?? 0` */
  function TakenUpTo(p: Participant, n: int): int
    requires 0 <= n <= 9
    decreases n
  {
    if n == 0 then 0 else TakenUpTo(p, n - 1) + Taken(p, TaskKey(n))
  }

  /** A sum of counts none of which is negative is zero exactly when each of
      them is. */
  lemma {:induction false} TakenUpToZero(p: Participant, n: int)
    requires 0 <= n <= 9
    ensures (forall t :: 1 <= t <= n ==> Taken(p, TaskKey(t)) == 0) ==> TakenUpTo(p, n) == 0
    ensures (forall k :: Taken(p, k) >= 0) ==>
      TakenUpTo(p, n) >= 0 && (TakenUpTo(p, n) == 0 ==> forall t :: 1 <= t <= n ==> Taken(p, TaskKey(t)) == 0)
    decreases n
  {
    if n > 0 {
      TakenUpToZero(p, n - 1);
    }
  }

  /** `deelnemerIsLeeg` (src/index.js:600-608): no Spots and no completed
      task. For a record without negative numbers this means every one of
      the nine task counts is zero. */
  function DeelnemerIsLeeg(p: Participant): (r: bool)
    ensures r ==> Totaal(p) == 0
    ensures (forall t :: IsTask(t) ==> Taken(p, TaskKey(t)) == 0) && Totaal(p) == 0 ==> r
    ensures NonNegParticipant(p) && r ==> forall t :: IsTask(t) ==> Taken(p, TaskKey(t)) == 0
  {
    TakenUpToZero(p, 9);
    Totaal(p) == 0 && TakenUpTo(p, 9) == 0
  }

  lemma {:induction false} TakenUpToSameScores(p: Participant, q: Participant, n: int)
    requires 0 <= n <= 9 && SameScores(p, q)
    ensures TakenUpTo(p, n) == TakenUpTo(q, n)
    decreases n
  {
    if n > 0 {
      TakenUpToSameScores(p, q, n - 1);
    }
  }

  /** Emptiness reads only the scores, so a repair does not change it. */
  lemma LeegIgnoresRepair(p: Participant)
    ensures DeelnemerIsLeeg(RepairParticipant(p)) == DeelnemerIsLeeg(p)
  {
    TakenUpToSameScores(RepairParticipant(p), p, 9);
  }

  /** `sanitizeDeelnemerStructuur` (src/index.js:610-624): every participant
      is passed through `ensureDeelnemer`. The copy-back that follows reads
      the very record `ensureDeelnemer` has just repaired in place, so it
      writes back what is already there. */
  function Sanitize(g: Game): (r: Game)
    ensures r.deelnemers.Keys == g.deelnemers.Keys
    ensures forall u :: u in r.deelnemers ==>
      Repaired(r.deelnemers[u]) && SameScores(r.deelnemers[u], g.deelnemers[u])
    ensures r.(deelnemers := g.deelnemers) == g
  {
    g.(deelnemers := map u | u in g.deelnemers :: RepairParticipant(g.deelnemers[u]))
  }

  /** A second structural repair finds nothing to do. */
  lemma SanitizeIdempotent(g: Game)
    ensures Sanitize(Sanitize(g)) == Sanitize(g)
  {
    var d := g.deelnemers;
    forall u | u in d ensures RepairParticipant(RepairParticipant(d[u])) == RepairParticipant(d[u]) {
      RepairRepaired(d[u]);
    }
    RepairAllTwice(d);
  }

  lemma RepairRepaired(p: Participant)
    ensures RepairParticipant(RepairParticipant(p)) == RepairParticipant(p)
  {
  }

  lemma RepairAllTwice(d: map<UserId, Participant>)
    requires forall u :: u in d ==> RepairParticipant(RepairParticipant(d[u])) == RepairParticipant(d[u])
    ensures var once := map u | u in d :: RepairParticipant(d[u]);
      (map u | u in once :: RepairParticipant(once[u])) == once
  {
  }

  /** The participants `/opschoonspel` deletes. */
  function LeegDeelnemers(g: Game): set<UserId> {
    set u | u in g.deelnemers && DeelnemerIsLeeg(g.deelnemers[u])
  }

  /** The participants that survive the prune loop. */
  function NonEmpty(d: map<UserId, Participant>): map<UserId, Participant> {
    map u | u in d && !DeelnemerIsLeeg(d[u]) :: d[u]
  }

  /** Emptiness is judged the same on repaired records as on the originals,
      so the prune removes exactly the originally empty participants. */
  lemma PruneAfterSanitize(g: Game)
    ensures var s := Sanitize(g).deelnemers;
      && (forall u :: u in NonEmpty(s) <==> u in g.deelnemers && !DeelnemerIsLeeg(g.deelnemers[u]))
      && NonEmpty(s).Keys == s.Keys - LeegDeelnemers(g)
      && LeegDeelnemers(g) <= s.Keys
  {
    var s := Sanitize(g).deelnemers;
    forall u | u in g.deelnemers
      ensures DeelnemerIsLeeg(s[u]) == DeelnemerIsLeeg(g.deelnemers[u])
    {
      LeegIgnoresRepair(g.deelnemers[u]);
    }
  }

  lemma CardinalityOfDifference(a: set<UserId>, b: set<UserId>)
    requires b <= a
    ensures |a - b| == |a| - |b|
  {
    assert a * b == b;
  }

  /** `/opschoonspel` (src/index.js:981-991): repair every record, then delete
      the empty ones; the second component is how many were deleted. Every
      other participant stays, with its scores. */
  function Opschoon(g: Game): (r: (Game, nat))
    ensures forall u :: u in r.0.deelnemers <==> u in g.deelnemers && !DeelnemerIsLeeg(g.deelnemers[u])
    ensures forall u :: u in r.0.deelnemers ==>
      Repaired(r.0.deelnemers[u]) && SameScores(r.0.deelnemers[u], g.deelnemers[u])
    ensures r.1 == |g.deelnemers.Keys| - |r.0.deelnemers.Keys| == |LeegDeelnemers(g)|
    ensures r.0.(deelnemers := g.deelnemers) == g
  {
    var s := Sanitize(g).deelnemers;
    var kept := NonEmpty(s);
    PruneAfterSanitize(g);
    CardinalityOfDifference(s.Keys, LeegDeelnemers(g));
    (g.(deelnemers := kept), |s.Keys| - |kept.Keys|)
  }
}
