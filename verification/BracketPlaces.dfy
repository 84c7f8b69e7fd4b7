// Where the players are in a bracket that keeps its meaning: one place each, no name twice in a
// round, as many decided matches as moves forward, and a champion who won every match on the way.

module BracketPlaces {
  import opened Types
  import opened BracketTree
  import opened BracketSpec
  import opened BracketOps
  import opened BracketCoherence
  import opened BracketProvenance

  // No two first-round slots hold the same name.
  ghost predicate DistinctSeeds(ms: seq<Match>) {
    forall i, j, s: Player, t: Player | 0 <= i < |ms| && 0 <= j < |ms|
      && !HasFeeders(|ms|, i) && !HasFeeders(|ms|, j) && ms[i].Slot(s).Some? && ms[i].Slot(s) == ms[j].Slot(t)
      :: i == j && s == t
  }

  // A player in slot s of match k goes no further from there: out, waiting, or champion.
  predicate Out(ms: seq<Match>, k: nat, s: Player)
    requires k < |ms|
  {
    ms[k].Slot(s).Some? && ms[k].Decided() && ms[k].winner != Some(s)
  }

  predicate Waiting(ms: seq<Match>, k: nat, s: Player)
    requires k < |ms|
  {
    ms[k].Slot(s).Some? && !ms[k].Decided()
  }

  predicate Champion(ms: seq<Match>, k: nat, s: Player)
    requires k < |ms|
  {
    ms[k].Slot(s).Some? && IsFinal(|ms|, k) && ms[k].winner == Some(s)
  }

  predicate Rests(ms: seq<Match>, k: nat, s: Player)
    requires k < |ms|
  {
    Out(ms, k, s) || Waiting(ms, k, s) || Champion(ms, k, s)
  }

  // Where the player in slot s of match k ends up.
  function Resting(ms: seq<Match>, k: nat, s: Player): (r: (nat, Player))
    requires Sound(ms) && k < |ms| && ms[k].Slot(s).Some?
    ensures r.0 < |ms| && ms[r.0].Slot(r.1) == ms[k].Slot(s) && Rests(ms, r.0, r.1)
    decreases |ms| - k
  {
    if ms[k].winner == Some(s) && !IsFinal(|ms|, k) then
      FeederOfNext(|ms|, k);
      assert FromFeeder(ms, Next(|ms|, k), Side(k));
      Resting(ms, Next(|ms|, k), Side(k))
    else (k, s)
  }

  // The first-round slot the player in slot s of match k came from.
  function Origin(ms: seq<Match>, k: nat, s: Player): (r: (nat, Player))
    requires Sound(ms) && k < |ms| && ms[k].Slot(s).Some?
    ensures r.0 < |ms| && !HasFeeders(|ms|, r.0) && ms[r.0].Slot(r.1) == ms[k].Slot(s)
    ensures Resting(ms, r.0, r.1) == Resting(ms, k, s)
    decreases k
  {
    if !HasFeeders(|ms|, k) then (k, s)
    else
      assert FromFeeder(ms, k, s);
      var f := Feeder(|ms|, k, s);
      Origin(ms, f, ms[f].winner.value)
  }

  // Every seeded player is in exactly one place: loser of one decided match, waiting in one
  // undecided match, or champion.
  lemma OnePlaceEach(ms: seq<Match>, i: nat, s: Player) returns (k: nat, t: Player)
    requires Sound(ms) && DistinctSeeds(ms)
    requires i < |ms| && !HasFeeders(|ms|, i) && ms[i].Slot(s).Some?
    ensures k < |ms| && ms[k].Slot(t) == ms[i].Slot(s) && Rests(ms, k, t)
    ensures forall k', t' | 0 <= k' < |ms| && ms[k'].Slot(t') == ms[i].Slot(s) && Rests(ms, k', t') ::
              k' == k && t' == t
    ensures !(Out(ms, k, t) && Waiting(ms, k, t)) && !(Out(ms, k, t) && Champion(ms, k, t))
    ensures !(Waiting(ms, k, t) && Champion(ms, k, t))
  {
    var r := Resting(ms, i, s);
    k, t := r.0, r.1;
    forall k', t' | 0 <= k' < |ms| && ms[k'].Slot(t') == ms[i].Slot(s) && Rests(ms, k', t')
      ensures k' == k && t' == t
    {
      var o := Origin(ms, k', t');
      assert o == (i, s);
    }
  }

  // Nobody else is anywhere: every occupied slot traces back to a seed.
  lemma EveryoneWasSeeded(ms: seq<Match>, k: nat, s: Player)
    requires Sound(ms) && k < |ms| && ms[k].Slot(s).Some?
    ensures exists i, t :: 0 <= i < |ms| && !HasFeeders(|ms|, i) && ms[i].Slot(t) == ms[k].Slot(s)
  {
    var o := Origin(ms, k, s);
    assert ms[o.0].Slot(o.1) == ms[k].Slot(s);
  }

  // No name occurs twice in a round.
  lemma {:induction false} NoDuplicateInRound(rounds: nat, ms: seq<Match>, k: nat, s: Player, k': nat, s': Player)
    requires Placed(rounds, ms) && Sound(ms) && DistinctSeeds(ms)
    requires k < |ms| && k' < |ms| && ms[k].round == ms[k'].round
    requires ms[k].Slot(s).Some? && ms[k].Slot(s) == ms[k'].Slot(s')
    ensures k == k' && s == s'
    decreases k
  {
    AtStage(rounds, k, ms[k].round, ms[k].position);
    AtStage(rounds, k', ms[k'].round, ms[k'].position);
    if HasFeeders(|ms|, k) {
      assert FromFeeder(ms, k, s) && FromFeeder(ms, k', s');
      var f, f' := Feeder(|ms|, k, s), Feeder(|ms|, k', s');
      FeederRound(rounds, ms, f);
      FeederRound(rounds, ms, f');
      NoDuplicateInRound(rounds, ms, f, ms[f].winner.value, f', ms[f'].winner.value);
    }
  }

  lemma FeederRound(rounds: nat, ms: seq<Match>, f: nat)
    requires Placed(rounds, ms) && TreeSize(|ms|) && f < |ms| - 1
    ensures ms[Next(|ms|, f)].round == ms[f].round + 1
  {
    var m, j := ms[f], Next(|ms|, f);
    AtStage(rounds, f, m.round, m.position);
    AtNext(rounds, f, m.round, m.position);
    AtUnique(rounds, j, m.round + 1, m.position / 2, ms[j].round, ms[j].position);
  }

  // ---- counting ----

  function Count(c: bool): nat { if c then 1 else 0 }

  function DecidedBelow(ms: seq<Match>, k: nat): nat
    requires k <= |ms|
  {
    if k == 0 then 0 else DecidedBelow(ms, k - 1) + Count(ms[k - 1].Decided())
  }

  // Occupied slots of matches `from` up to but not including k.
  function OccupiedBetween(ms: seq<Match>, from: nat, k: nat): nat
    requires from <= k <= |ms|
  {
    if k == from then 0
    else OccupiedBetween(ms, from, k - 1) + Count(ms[k - 1].playerA.Some?) + Count(ms[k - 1].playerB.Some?)
  }

  lemma {:induction false} DecidedMatchesMoves(ms: seq<Match>, k: nat)
    requires Sound(ms) && (|ms| + 1) / 2 <= k <= |ms|
    ensures 2 * k - (|ms| + 1) <= |ms|
    ensures DecidedBelow(ms, 2 * k - (|ms| + 1)) == OccupiedBetween(ms, (|ms| + 1) / 2, k)
    decreases k
  {
    if k > (|ms| + 1) / 2 {
      DecidedMatchesMoves(ms, k - 1);
      assert HasFeeders(|ms|, k - 1);
      assert FromFeeder(ms, k - 1, A) && FromFeeder(ms, k - 1, B);
      var f := Feeder(|ms|, k - 1, A);
      assert Feeder(|ms|, k - 1, B) == f + 1;
      assert DecidedBelow(ms, f + 2) == DecidedBelow(ms, f + 1) + Count(ms[f + 1].Decided());
    }
  }

  // Decided matches are as many as the occupied slots after the first round, plus one for the final.
  lemma DecidedCount(ms: seq<Match>)
    requires Sound(ms)
    ensures DecidedBelow(ms, |ms|)
         == OccupiedBetween(ms, (|ms| + 1) / 2, |ms|) + Count(ms[|ms| - 1].Decided())
  {
    DecidedMatchesMoves(ms, |ms|);
  }

  // ---- the champion's way ----

  // Match k lies on the way from match i to the final.
  predicate OnPath(n: nat, i: nat, k: nat)
    requires TreeSize(n) && i < n
    decreases n - i
  {
    k == i || (!IsFinal(n, i) && OnPath(n, Next(n, i), k))
  }

  lemma {:induction false} PathIsLinear(n: nat, i: nat, j: nat, k: nat)
    requires TreeSize(n) && i < n && OnPath(n, i, j) && OnPath(n, i, k) && j < k
    ensures j < n - 1 && OnPath(n, Next(n, j), k)
    decreases n - i
  {
    PathUp(n, i, j);
    PathUp(n, i, k);
    if j != i {
      PathUp(n, Next(n, i), j);
      PathIsLinear(n, Next(n, i), j, k);
    }
  }

  lemma {:induction false} PathUp(n: nat, i: nat, k: nat)
    requires TreeSize(n) && i < n && OnPath(n, i, k)
    ensures i <= k < n
    decreases n - i
  {
    if k != i {
      PathUp(n, Next(n, i), k);
    }
  }

  lemma {:induction false} PathExtends(n: nat, i: nat, k: nat)
    requires TreeSize(n) && i < n && OnPath(n, i, k) && k < n - 1
    ensures OnPath(n, i, Next(n, k))
    decreases n - i
  {
    PathUp(n, i, k);
    if k != i {
      PathExtends(n, Next(n, i), k);
    } else {
      assert OnPath(n, Next(n, i), Next(n, i));
    }
  }

  // The winner of any decided match is a seed that won every match on the way there.
  lemma {:induction false} WinnersWay(ms: seq<Match>, k: nat) returns (i: nat, s: Player)
    requires Sound(ms) && k < |ms| && ms[k].Decided()
    ensures i < |ms| && !HasFeeders(|ms|, i) && ms[i].Slot(s) == ms[k].WinnerName()
    ensures ms[i].winner == Some(s)
    ensures OnPath(|ms|, i, k)
    ensures forall j: nat | OnPath(|ms|, i, j) && j <= k ::
              j < |ms| && ms[j].Decided() && ms[j].WinnerName() == ms[k].WinnerName()
    decreases k
  {
    var n, w := |ms|, ms[k].winner.value;
    if !HasFeeders(n, k) {
      i, s := k, w;
      forall j: nat | OnPath(n, i, j) && j <= k
        ensures j == k
      {
        PathUp(n, i, j);
      }
    } else {
      assert FromFeeder(ms, k, w);
      var f := Feeder(n, k, w);
      i, s := WinnersWay(ms, f);
      PathExtends(n, i, f);
      forall j: nat | OnPath(n, i, j) && j <= k
        ensures j < n && ms[j].Decided() && ms[j].WinnerName() == ms[k].WinnerName()
      {
        if f < j {
          PathIsLinear(n, i, f, j);
          PathUp(n, k, j);
        }
      }
    }
  }

  // A finished bracket has a champion: a first-round seed, winner of every match from there to
  // the final.
  lemma ChampionPath(b: Bracket) returns (i: nat, s: Player)
    requires WellFormed(b) && Coherent(b) && Sound(b.matches) && b.status == Finished
    ensures i < |b.matches| && b.matches[i].round == 1 && b.matches[i].Slot(s).Some?
    ensures b.matches[i].Slot(s) == b.matches[|b.matches| - 1].WinnerName()
    ensures forall k: nat | OnPath(|b.matches|, i, k) ::
              k < |b.matches| && b.matches[k].Decided() && b.matches[k].WinnerName() == b.matches[i].Slot(s)
    ensures OnPath(|b.matches|, i, |b.matches| - 1)
  {
    var n := |b.matches|;
    i, s := WinnersWay(b.matches, n - 1);
    StageOf(b, i);
    forall k: nat | OnPath(n, i, k)
      ensures k <= n - 1
    {
      PathUp(n, i, k);
    }
  }

  // Over every disciplined run: once the bracket is finished it has such a champion.
  lemma FinishedRunHasChampion(e: Option<Bracket>, ops: seq<Op>) returns (i: nat, s: Player)
    requires EngineOk(e) && EngineCoherent(e) && EngineSound(e) && DisciplinedRun(e, ops)
    requires Run(e, ops).Some? && Run(e, ops).value.status == Finished
    ensures var ms := Run(e, ops).value.matches;
            && TreeSize(|ms|) && i < |ms| && ms[i].round == 1 && ms[i].Slot(s).Some?
            && forall k: nat | OnPath(|ms|, i, k) ::
                 k < |ms| && ms[k].Decided() && ms[k].WinnerName() == ms[i].Slot(s)
  {
    RunCoherent(e, ops);
    RunSound(e, ops);
    i, s := ChampionPath(Run(e, ops).value);
  }

  // Over every disciplined run with different seeds: every seeded player is in one place only.
  lemma RunPlacesEveryone(e: Option<Bracket>, ops: seq<Op>, i: nat, s: Player) returns (k: nat, t: Player)
    requires EngineOk(e) && EngineSound(e) && DisciplinedRun(e, ops)
    requires Run(e, ops).Some? && DistinctSeeds(Run(e, ops).value.matches)
    requires var ms := Run(e, ops).value.matches;
             i < |ms| && !HasFeeders(|ms|, i) && ms[i].Slot(s).Some?
    ensures var ms := Run(e, ops).value.matches;
            && k < |ms| && ms[k].Slot(t) == ms[i].Slot(s) && Rests(ms, k, t)
            && forall k', t' | 0 <= k' < |ms| && ms[k'].Slot(t') == ms[i].Slot(s) && Rests(ms, k', t') ::
                 k' == k && t' == t
  {
    RunSound(e, ops);
    k, t := OnePlaceEach(Run(e, ops).value.matches, i, s);
  }
}
