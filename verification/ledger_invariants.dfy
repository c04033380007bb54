/** The ledger's invariant: no negative number anywhere, and for each of the
    nine tasks the game-wide count `taakCounts[k]` equals the sum of the
    participants' `taken[k]`. Every mutation preserves it; as a consequence
    the `Math.max(0, …)` clamp on the game-wide count in the revoke branch
    never changes anything. */
module LedgerInvariants {
  import opened Options
  import opened Text
  import opened Ledger

  /** The sum of `taken[k] ?? 0` over the participants in `users`. */
  ghost function SumOver(d: map<UserId, Participant>, users: set<UserId>, k: Key): int
    requires users <= d.Keys
    decreases users
  {
    if users == {} then 0
    else
      var u :| u in users;
      Taken(d[u], k) + SumOver(d, users - {u}, k)
  }

  /** The sum of `taken[k] ?? 0` over all participants. */
  ghost function TakenSum(d: map<UserId, Participant>, k: Key): int {
    SumOver(d, d.Keys, k)
  }

  ghost predicate NonNeg(g: Game) {
    && (forall k :: Lookup(g.taakSpots, k) >= 0)
    && (forall k :: Lookup(g.taakCounts, k) >= 0)
    && (forall u :: u in g.deelnemers ==> NonNegParticipant(g.deelnemers[u]))
  }

  ghost predicate Consistent(g: Game) {
    forall t :: IsTask(t) ==> Lookup(g.taakCounts, TaskKey(t)) == TakenSum(g.deelnemers, TaskKey(t))
  }

  ghost predicate Valid(g: Game) {
    NonNeg(g) && Consistent(g)
  }

  /** The sum does not depend on the order the participants are taken in:
      any one of them can be split off first. */
  lemma {:induction false} SumOverRemove(d: map<UserId, Participant>, users: set<UserId>, u: UserId, k: Key)
    requires users <= d.Keys && u in users
    ensures SumOver(d, users, k) == Taken(d[u], k) + SumOver(d, users - {u}, k)
    decreases users
  {
    var v :| v in users && SumOver(d, users, k) == Taken(d[v], k) + SumOver(d, users - {v}, k);
    if v != u {
      SumOverRemove(d, users - {v}, u, k);
      SumOverRemove(d, users - {u}, v, k);
      assert users - {v} - {u} == users - {u} - {v};
    }
  }

  /** Two maps that agree on the counts of `users` give the same sum. */
  lemma {:induction false} SumOverFrame(d1: map<UserId, Participant>, d2: map<UserId, Participant>, users: set<UserId>, k: Key)
    requires users <= d1.Keys && users <= d2.Keys
    requires forall u :: u in users ==> Taken(d1[u], k) == Taken(d2[u], k)
    ensures SumOver(d1, users, k) == SumOver(d2, users, k)
    decreases users
  {
    if users != {} {
      var u :| u in users;
      SumOverRemove(d1, users, u, k);
      SumOverRemove(d2, users, u, k);
      SumOverFrame(d1, d2, users - {u}, k);
    }
  }

  /** Leaving out participants whose count is zero does not change the sum. */
  lemma {:induction false} SumOverDropZeros(d: map<UserId, Participant>, users: set<UserId>, gone: set<UserId>, k: Key)
    requires gone <= users <= d.Keys
    requires forall u :: u in gone ==> Taken(d[u], k) == 0
    ensures SumOver(d, users, k) == SumOver(d, users - gone, k)
    decreases gone
  {
    if gone != {} {
      var u :| u in gone;
      SumOverRemove(d, users, u, k);
      SumOverDropZeros(d, users - {u}, gone - {u}, k);
      assert users - {u} - (gone - {u}) == users - gone;
    } else {
      assert users - gone == users;
    }
  }

  /** A sum of non-negative counts is at least each of them. */
  lemma {:induction false} SumOverBounds(d: map<UserId, Participant>, users: set<UserId>, k: Key)
    requires users <= d.Keys
    requires forall u :: u in users ==> Taken(d[u], k) >= 0
    ensures SumOver(d, users, k) >= 0
    ensures forall u :: u in users ==> SumOver(d, users, k) >= Taken(d[u], k)
    decreases users
  {
    if users != {} {
      var v :| v in users;
      SumOverRemove(d, users, v, k);
      SumOverBounds(d, users - {v}, k);
      forall u | u in users ensures SumOver(d, users, k) >= Taken(d[u], k) {
        if u != v {
          assert u in users - {v};
        }
      }
    }
  }

  /** Replacing (or adding) one participant changes each sum by the
      difference of that participant's counts. */
  lemma TakenSumAfterUpdate(d: map<UserId, Participant>, d2: map<UserId, Participant>, u: UserId, k: Key)
    requires u in d2 && d2.Keys == d.Keys + {u}
    requires forall v :: v in d && v != u ==> d2[v] == d[v]
    ensures TakenSum(d2, k) == TakenSum(d, k) - (if u in d then Taken(d[u], k) else 0) + Taken(d2[u], k)
  {
    SumOverRemove(d2, d2.Keys, u, k);
    assert d2.Keys - {u} == d.Keys - {u};
    SumOverFrame(d2, d, d.Keys - {u}, k);
    if u in d {
      SumOverRemove(d, d.Keys, u, k);
    } else {
      assert d.Keys - {u} == d.Keys;
    }
  }

  /** A fresh game satisfies the invariant. */
  lemma NewGameValid()
    ensures Valid(NewGame())
  {
  }

  /** `ensureDeelnemer` keeps every sum, since it keeps every number. */
  lemma EnsureDeelnemerKeepsSums(g: Game, u: UserId, k: Key)
    ensures TakenSum(EnsureDeelnemer(g, u).deelnemers, k) == TakenSum(g.deelnemers, k)
  {
    var r := EnsureDeelnemer(g, u);
    TakenSumAfterUpdate(g.deelnemers, r.deelnemers, u, k);
  }

  lemma EnsureDeelnemerPreservesValid(g: Game, u: UserId)
    requires Valid(g)
    ensures Valid(EnsureDeelnemer(g, u))
  {
    var r := EnsureDeelnemer(g, u);
    forall t | IsTask(t)
      ensures Lookup(r.taakCounts, TaskKey(t)) == TakenSum(r.deelnemers, TaskKey(t))
    {
      EnsureDeelnemerKeepsSums(g, u, TaskKey(t));
    }
  }

  /** Resetting a game leaves it valid: the Spot values were non-negative
      and stay, and there is nobody left to count. */
  lemma ResetPreservesValid(g: Game)
    requires Valid(g)
    ensures Valid(ResetGameProgress(g))
  {
  }

  lemma SetSpotsPreservesValid(g: Game, taak: int, spots: int)
    requires Valid(g) && IsTask(taak) && 0 <= spots <= 100000
    ensures SetSpots(g, taak, spots).Ok? ==> Valid(SetSpots(g, taak, spots).value)
  {
  }

  lemma CloseOpenPreserveValid(g: Game, at: Stamp)
    requires Valid(g)
    ensures Close(g, at).Ok? ==> Valid(Close(g, at).value)
    ensures Open(g).Ok? ==> Valid(Open(g).value)
  {
  }

  /** An award keeps the invariant: the participant's count and the
      game-wide count for that task rise by the same amount. */
  lemma AwardPreservesValid(g: Game, u: UserId, key: Key, aantal: int)
    requires Valid(g) && aantal >= 0
    ensures Valid(Award(g, u, key, aantal))
  {
    AwardKeepsNonNeg(g, u, key, aantal);
    AwardKeepsConsistent(g, u, key, aantal);
  }

  lemma AwardKeepsConsistent(g: Game, u: UserId, key: Key, aantal: int)
    requires Consistent(g)
    ensures Consistent(Award(g, u, key, aantal))
  {
    var r := Award(g, u, key, aantal);
    forall t | IsTask(t)
      ensures Lookup(r.taakCounts, TaskKey(t)) == TakenSum(r.deelnemers, TaskKey(t))
    {
      TakenSumAfterUpdate(g.deelnemers, r.deelnemers, u, TaskKey(t));
    }
  }

  lemma AwardKeepsNonNeg(g: Game, u: UserId, key: Key, aantal: int)
    requires NonNeg(g) && aantal >= 0
    ensures NonNeg(Award(g, u, key, aantal))
  {
    var r := Award(g, u, key, aantal);
    var p := DeelnemerOf(g, u);
    var q := r.deelnemers[u];
    ParticipantOfValid(g, u);
    MulNonNeg(Lookup(g.taakSpots, key), aantal);
    forall k ensures Taken(q, k) >= 0 {
      assert Taken(p, k) >= 0;
    }
    assert NonNegParticipant(q);
    ReplaceParticipantNonNeg(g, r, u);
    forall k ensures Lookup(r.taakCounts, k) >= 0 {
      assert Lookup(g.taakCounts, k) >= 0;
    }
  }

  lemma MulNonNeg(a: int, b: int)
    requires a >= 0 && b >= 0
    ensures a * b >= 0
  {
  }

  /** Replacing one participant by a record without negative numbers, and
      changing nothing else about the participants or the Spot values,
      keeps those parts free of negative numbers. */
  lemma ReplaceParticipantNonNeg(g: Game, r: Game, u: UserId)
    requires NonNeg(g) && r.taakSpots == g.taakSpots
    requires u in r.deelnemers && NonNegParticipant(r.deelnemers[u])
    requires r.deelnemers.Keys == g.deelnemers.Keys + {u}
    requires forall v :: v in g.deelnemers && v != u ==> r.deelnemers[v] == g.deelnemers[v]
    ensures forall k :: Lookup(r.taakSpots, k) >= 0
    ensures forall v :: v in r.deelnemers ==> NonNegParticipant(r.deelnemers[v])
  {
    forall v | v in r.deelnemers ensures NonNegParticipant(r.deelnemers[v]) {
      if v != u {
        assert r.deelnemers[v] == g.deelnemers[v];
      }
    }
  }

  /** The record of a participant in a valid game, missing or not, has no
      negative number. */
  lemma ParticipantOfValid(g: Game, u: UserId)
    requires NonNeg(g)
    ensures NonNegParticipant(DeelnemerOf(g, u))
  {
  }

  /** In a valid game the game-wide count of a task is at least any one
      participant's count of it. */
  lemma CountBoundsTaken(g: Game, u: UserId, t: int)
    requires Valid(g) && IsTask(t)
    ensures Lookup(g.taakCounts, TaskKey(t)) >= Taken(DeelnemerOf(g, u), TaskKey(t))
  {
    SumOverBounds(g.deelnemers, g.deelnemers.Keys, TaskKey(t));
  }

  /** In a valid game the clamp on the game-wide count in the revoke branch
      (src/index.js:918) never fires: the count drops by exactly `abs`. */
  lemma RevokeCountExact(g: Game, u: UserId, taak: int, abs: int)
    requires Valid(g) && IsTask(taak) && abs >= 1
    requires Revoke(g, u, taak, abs).Ok?
    ensures Lookup(Revoke(g, u, taak, abs).value.taakCounts, TaskKey(taak))
      == Lookup(g.taakCounts, TaskKey(taak)) - abs
  {
    CountBoundsTaken(g, u, taak);
  }

  lemma RevokePreservesValid(g: Game, u: UserId, taak: int, abs: int)
    requires Valid(g) && IsTask(taak) && abs >= 1
    ensures Revoke(g, u, taak, abs).Ok? ==> Valid(Revoke(g, u, taak, abs).value)
  {
    if Revoke(g, u, taak, abs).Ok? {
      RevokeKeepsNonNeg(g, u, taak, abs);
      RevokeKeepsConsistent(g, u, taak, abs);
    }
  }

  lemma RevokeKeepsConsistent(g: Game, u: UserId, taak: int, abs: int)
    requires Valid(g) && IsTask(taak) && abs >= 1
    requires Revoke(g, u, taak, abs).Ok?
    ensures Consistent(Revoke(g, u, taak, abs).value)
  {
    var r := Revoke(g, u, taak, abs).value;
    RevokeCountExact(g, u, taak, abs);
    forall t | IsTask(t)
      ensures Lookup(r.taakCounts, TaskKey(t)) == TakenSum(r.deelnemers, TaskKey(t))
    {
      TakenSumAfterUpdate(g.deelnemers, r.deelnemers, u, TaskKey(t));
    }
  }

  lemma RevokeKeepsNonNeg(g: Game, u: UserId, taak: int, abs: int)
    requires NonNeg(g) && IsTask(taak) && abs >= 1
    ensures Revoke(g, u, taak, abs).Ok? ==> NonNeg(Revoke(g, u, taak, abs).value)
  {
    if Revoke(g, u, taak, abs).Ok? {
      var r := Revoke(g, u, taak, abs).value;
      var p := DeelnemerOf(g, u);
      var q := r.deelnemers[u];
      ParticipantOfValid(g, u);
      forall k ensures Taken(q, k) >= 0 {
        assert Taken(p, k) >= 0;
      }
      assert NonNegParticipant(q);
      ReplaceParticipantNonNeg(g, r, u);
      forall k ensures Lookup(r.taakCounts, k) >= 0 {
        assert Lookup(g.taakCounts, k) >= 0;
      }
    }
  }

  lemma GeefTaakPreservesValid(g: Game, u: UserId, taak: int, aantal: Option<int>)
    requires Valid(g) && IsTask(taak)
    requires aantal.Some? ==> -1000 <= aantal.value <= 1000
    ensures GeefTaak(g, u, taak, aantal).Ok? ==> Valid(GeefTaak(g, u, taak, aantal).value)
  {
    if aantal.GetOr(1) < 0 {
      GeefTaakRevokes(g, u, taak, aantal);
    } else {
      GeefTaakAwards(g, u, taak, aantal);
    }
  }

  /** The revoke branch of `/geeftaak`, a negative amount. */
  lemma GeefTaakRevokes(g: Game, u: UserId, taak: int, aantal: Option<int>)
    requires Valid(g) && IsTask(taak) && aantal.Some? && -1000 <= aantal.value < 0
    ensures GeefTaak(g, u, taak, aantal).Ok? ==> Valid(GeefTaak(g, u, taak, aantal).value)
  {
    if GeefTaak(g, u, taak, aantal).Ok? {
      GeefTaakRevokeNonNeg(g, u, taak, aantal);
      GeefTaakRevokeConsistent(g, u, taak, aantal);
    }
  }

  lemma GeefTaakRevokeNonNeg(g: Game, u: UserId, taak: int, aantal: Option<int>)
    requires NonNeg(g) && IsTask(taak) && aantal.Some? && -1000 <= aantal.value < 0
    requires GeefTaak(g, u, taak, aantal).Ok?
    ensures NonNeg(GeefTaak(g, u, taak, aantal).value)
  {
    var abs := -aantal.value;
    GeefTaakIsRevoke(g, u, taak, aantal);
    RevokeKeepsNonNeg(g, u, taak, abs);
  }

  lemma GeefTaakRevokeConsistent(g: Game, u: UserId, taak: int, aantal: Option<int>)
    requires Valid(g) && IsTask(taak) && aantal.Some? && -1000 <= aantal.value < 0
    requires GeefTaak(g, u, taak, aantal).Ok?
    ensures Consistent(GeefTaak(g, u, taak, aantal).value)
  {
    var abs := -aantal.value;
    GeefTaakIsRevoke(g, u, taak, aantal);
    RevokeKeepsConsistent(g, u, taak, abs);
  }

  lemma GeefTaakIsRevoke(g: Game, u: UserId, taak: int, aantal: Option<int>)
    requires IsTask(taak) && aantal.Some? && -1000 <= aantal.value < 0
    ensures GeefTaak(g, u, taak, aantal) == Revoke(g, u, taak, -aantal.value)
  {
    assert aantal.GetOr(1) == aantal.value;
  }

  /** The award branch of `/geeftaak`, a missing or non-negative amount. */
  lemma GeefTaakAwards(g: Game, u: UserId, taak: int, aantal: Option<int>)
    requires Valid(g) && IsTask(taak) && (aantal.Some? ==> 0 <= aantal.value <= 1000)
    ensures GeefTaak(g, u, taak, aantal).Ok? ==> Valid(GeefTaak(g, u, taak, aantal).value)
  {
    var r := GeefTaak(g, u, taak, aantal);
    assert r == Ok(Award(g, u, TaskKey(taak), aantal.GetOr(1)));
    AwardPreservesValid(g, u, TaskKey(taak), aantal.GetOr(1));
  }

  lemma ApprovePreservesValid(g: Game, key: Key, u: UserId)
    requires Valid(g)
    ensures Valid(Approve(g, key, u))
  {
    AwardPreservesValid(g, u, key, 1);
  }

  /** Cleanup keeps the sum for a task when the participants it deletes
      have not completed it. */
  lemma OpschoonKeepsSum(g: Game, k: Key)
    requires forall u :: u in LeegDeelnemers(g) ==> Taken(g.deelnemers[u], k) == 0
    ensures TakenSum(Opschoon(g).0.deelnemers, k) == TakenSum(g.deelnemers, k)
  {
    var r := Opschoon(g).0;
    var s := Sanitize(g).deelnemers;
    var leeg := LeegDeelnemers(g);
    PruneAfterSanitize(g);
    assert s.Keys == g.deelnemers.Keys;
    forall u | u in s.Keys ensures Taken(g.deelnemers[u], k) == Taken(s[u], k) {
      assert SameScores(s[u], g.deelnemers[u]);
    }
    SumOverFrame(g.deelnemers, s, s.Keys, k);
    forall u | u in leeg ensures Taken(s[u], k) == 0 {
      assert SameScores(s[u], g.deelnemers[u]);
    }
    SumOverDropZeros(s, s.Keys, leeg, k);
    assert r.deelnemers == NonEmpty(s);
    SumOverFrame(s, r.deelnemers, r.deelnemers.Keys, k);
  }

  /** An empty participant without negative numbers has no completed task. */
  lemma LeegHasNoTasks(g: Game, t: int)
    requires NonNeg(g) && IsTask(t)
    ensures forall u :: u in LeegDeelnemers(g) ==> Taken(g.deelnemers[u], TaskKey(t)) == 0
  {
    forall u | u in LeegDeelnemers(g) ensures Taken(g.deelnemers[u], TaskKey(t)) == 0 {
      assert NonNegParticipant(g.deelnemers[u]);
    }
  }

  /** Cleanup keeps the invariant: the participants it deletes have no
      completed task, so every sum is unchanged. */
  lemma OpschoonPreservesValid(g: Game)
    requires Valid(g)
    ensures Valid(Opschoon(g).0)
  {
    var r := Opschoon(g).0;
    OpschoonKeepsNonNeg(g);
    forall t | IsTask(t)
      ensures Lookup(r.taakCounts, TaskKey(t)) == TakenSum(r.deelnemers, TaskKey(t))
    {
      LeegHasNoTasks(g, t);
      OpschoonKeepsSum(g, TaskKey(t));
    }
    assert Consistent(r);
  }

  lemma OpschoonKeepsNonNeg(g: Game)
    requires NonNeg(g)
    ensures NonNeg(Opschoon(g).0)
  {
    var r := Opschoon(g).0;
    forall u | u in r.deelnemers ensures NonNegParticipant(r.deelnemers[u]) {
      assert SameScores(r.deelnemers[u], g.deelnemers[u]);
      assert NonNegParticipant(g.deelnemers[u]);
    }
  }

  /** Revoking charges a task's Spot value at the time of the revoke, not
      the value it had when it was awarded, so the total can hit the clamp
      at 0 in a valid game: awarded at 10 Spots, revoked after that task was
      raised to 50. */
  lemma RevokeAtCurrentSpots()
    ensures var g0 := SetSpots(NewGame(), 1, 10).value;
      var g1 := Award(g0, "u", TaskKey(1), 1);
      var g2 := SetSpots(g1, 1, 50).value;
      && Valid(g2)
      && Totaal(g2.deelnemers["u"]) == 10
      && Revoke(g2, "u", 1, 1).Ok?
      && Totaal(Revoke(g2, "u", 1, 1).value.deelnemers["u"]) == 0
      && Taken(Revoke(g2, "u", 1, 1).value.deelnemers["u"], TaskKey(1)) == 0
  {
    var g0 := SetSpots(NewGame(), 1, 10).value;
    NewGameValid();
    SetSpotsPreservesValid(NewGame(), 1, 10);
    var g1 := Award(g0, "u", TaskKey(1), 1);
    AwardPreservesValid(g0, "u", TaskKey(1), 1);
    SetSpotsPreservesValid(g1, 1, 50);
  }

  /** No clamp is needed to lose Spots: task 1 is awarded at 10 and task 2 at
      50, task 1 is raised to 50 and then revoked. The total goes from 60 to
      10 although task 2 is still credited once. */
  lemma RevokeChargesOtherEarnings()
    ensures var g1 := TwoTasksAwarded();
      var g2 := SetSpots(g1, 1, 50).value;
      && Valid(g2)
      && Totaal(g2.deelnemers["u"]) == 60
      && Revoke(g2, "u", 1, 1).Ok?
      && Totaal(Revoke(g2, "u", 1, 1).value.deelnemers["u"]) == 10
      && Taken(Revoke(g2, "u", 1, 1).value.deelnemers["u"], TaskKey(2)) == 1
  {
    var g1 := TwoTasksAwarded();
    TwoTasksAwardedValid();
    SetSpotsPreservesValid(g1, 1, 50);
  }

  /** A participant credited once for task 1 at 10 Spots and once for task 2
      at 50. */
  function TwoTasksAwarded(): Game {
    var g0 := SetSpots(SetSpots(NewGame(), 1, 10).value, 2, 50).value;
    Award(Award(g0, "u", TaskKey(1), 1), "u", TaskKey(2), 1)
  }

  lemma TwoTasksAwardedValid()
    ensures var g := TwoTasksAwarded();
      && Valid(g) && "u" in g.deelnemers
      && Totaal(g.deelnemers["u"]) == 60
      && Taken(g.deelnemers["u"], TaskKey(1)) == 1
      && Taken(g.deelnemers["u"], TaskKey(2)) == 1
  {
    var a := SetSpots(NewGame(), 1, 10).value;
    NewGameValid();
    SetSpotsPreservesValid(NewGame(), 1, 10);
    var g0 := SetSpots(a, 2, 50).value;
    SetSpotsPreservesValid(a, 2, 50);
    var b := Award(g0, "u", TaskKey(1), 1);
    AwardPreservesValid(g0, "u", TaskKey(1), 1);
    AwardPreservesValid(b, "u", TaskKey(2), 1);
  }
}
