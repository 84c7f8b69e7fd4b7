// Runs that reach the cases in which the code does not do what it says, played from an empty
// engine by engine operations alone.

module BracketExamples {
  import opened Types
  import opened BracketTree
  import opened BracketSpec
  import opened BracketUndo
  import opened BracketThirdPlace
  import opened BracketOps
  import opened BracketProvenance
  import opened MatchIds

  // ---- a bracket of eight, seeded in order ----

  function NewBracket(): Op { Op.Create("open", 8, true, 0) }

  // The k-th name goes to slot k of the first round.
  function SeedOp(k: nat, name: Name): Op { OnMatch(MatchId(1, k / 2), AssignPlayer(Side(k), name)) }

  function SeedOps(names: seq<Name>): seq<Op> { seq(|names|, k requires 0 <= k < |names| => SeedOp(k, names[k])) }

  function NameAt(names: seq<Name>, k: nat): Option<Name> { if k < |names| then Some(names[k]) else None }

  // A bracket of eight before any result, after these names.
  function Eight(names: seq<Name>): Bracket {
    Bracket("open", 8, true,
            seq(4, p requires 0 <= p => Opening(names, p))
            + [EmptyMatch(MatchId(2, 0), 2, 0), EmptyMatch(MatchId(2, 1), 2, 1), EmptyMatch(MatchId(3, 0), 3, 0)],
            Some(EmptyMatch(THIRD_PLACE_ID, 4, 0)), Setup, 0)
  }

  function Opening(names: seq<Name>, p: nat): Match {
    EmptyMatch(MatchId(1, p), 1, p).(playerA := NameAt(names, 2 * p), playerB := NameAt(names, 2 * p + 1)).Recomputed()
  }

  lemma CreatedEight()
    ensures BracketSpec.Create("open", 8, true, 0) == Ok(Eight([]))
  {
    assert Log2(8) == 3 by { assert Log2(4) == 2 by { assert Log2(2) == 1; } }
    assert Pow2(2) == 4 && Pow2(1) == 2 && Pow2(0) == 1;
    assert AllRounds(3, 3) == RoundMatches(3, 1) + AllRounds(3, 4) == RoundMatches(3, 1);
    assert AllRounds(3, 2) == RoundMatches(2, 2) + RoundMatches(3, 1);
    assert AllRounds(3, 1) == RoundMatches(1, 4) + AllRounds(3, 2);
    assert AllRounds(3, 1) == Eight([]).matches;
  }

  // One more operation on a match, addressed by its id.
  lemma OneMore(ops: seq<Op>, b: Bracket, ref: Ref, mop: MatchOp, b': Bracket)
    requires Run(None, ops) == Some(b) && Valid(b, ref) && TreeSize(|b.matches|)
    requires ApplyTo(b, ref, mop) == Ok(b')
    ensures Run(None, ops + [OnMatch(Get(b, ref).id, mop)]) == Some(b')
  {
    var op := OnMatch(Get(b, ref).id, mop);
    FindOwnId(b, ref);
    RunSplit(None, ops, [op]);
    RunOne(Some(b), op);
  }

  lemma SeedOne(names: seq<Name>, name: Name)
    requires |names| < 8 && |name| <= MAX_PLAYER_NAME_LEN
    ensures AssignSlot(Eight(names), Main(|names| / 2), Side(|names|), name) == Ok(Eight(names + [name]))
  {
    var b, b', i := Eight(names), Eight(names + [name]), |names| / 2;
    var r := AssignSlot(b, Main(i), Side(|names|), name).value;
    assert forall k: nat :: k < |names| ==> (names + [name])[k] == names[k];
    forall p | 0 <= p < 7
      ensures r.matches[p] == b'.matches[p]
    {
    }
    assert r.matches == b'.matches;
  }

  lemma SeedOpsStep(names: seq<Name>, name: Name)
    ensures SeedOps(names + [name]) == SeedOps(names) + [SeedOp(|names|, name)]
  {
  }

  lemma SeedStep(ops: seq<Op>, names: seq<Name>, name: Name)
    requires |names| < 8 && |name| <= MAX_PLAYER_NAME_LEN && Run(None, ops) == Some(Eight(names))
    ensures Run(None, ops + [SeedOp(|names|, name)]) == Some(Eight(names + [name]))
  {
    SeedOne(names, name);
    OneMore(ops, Eight(names), Main(|names| / 2), AssignPlayer(Side(|names|), name), Eight(names + [name]));
  }

  lemma {:induction false} SeedRun(names: seq<Name>)
    requires |names| <= 8 && forall k | 0 <= k < |names| :: |names[k]| <= MAX_PLAYER_NAME_LEN
    ensures Run(None, [NewBracket()] + SeedOps(names)) == Some(Eight(names))
    decreases names
  {
    var first := [NewBracket()];
    if names == [] {
      CreatedEight();
      RunOne(None, NewBracket());
      assert first + SeedOps(names) == first;
    } else {
      var init, last := names[..|names| - 1], names[|names| - 1];
      SeedRun(init);
      SeedStep(first + SeedOps(init), init, last);
      assert init + [last] == names;
      SeedOpsStep(init, last);
      assert first + SeedOps(init) + [SeedOp(|init|, last)] == first + SeedOps(names);
    }
  }

  // ---- a loser that stays in the third-place match ----

  function OnFirst(op: MatchOp): Op { OnMatch(MatchId(1, 0), op) }

  function OnSemifinal(op: MatchOp): Op { OnMatch(MatchId(2, 0), op) }

  // The first two openings go to their first names, the second winner takes the semifinal, and the
  // first one goes to the third-place match.
  function GapOps(names: seq<Name>): seq<Op> {
    [NewBracket()] + SeedOps(names)
    + [OnFirst(SetWinner(A)), OnMatch(MatchId(1, 1), SetWinner(A)),
       OnSemifinal(SetWinner(B)), OnSemifinal(SetThirdPlaceLoser(A))]
  }

  // Both openings decided, their winners in the semifinal.
  predicate SemifinalIsOn(b: Bracket, names: seq<Name>) {
    && |names| == 8 && |b.matches| == 7 && b.numSlots == 8
    && b.matches[0].id == MatchId(1, 0) && b.thirdPlace == Some(EmptyMatch(THIRD_PLACE_ID, 4, 0))
    && b.matches[4] == Match(MatchId(2, 0), 2, 0, Some(names[0]), Some(names[2]), None, Ready, None)
    && b.matches[6] == EmptyMatch(MatchId(3, 0), 3, 0)
  }

  // The second of them has won it, the first is in the third-place match.
  predicate LoserIsFed(b: Bracket, names: seq<Name>) {
    && |names| == 8 && |b.matches| == 7 && b.matches[0].id == MatchId(1, 0)
    && b.matches[4] == Match(MatchId(2, 0), 2, 0, Some(names[0]), Some(names[2]), Some(B), Completed, None)
    && !b.matches[6].Decided()
    && b.thirdPlace == Some(EmptyMatch(THIRD_PLACE_ID, 4, 0).(playerA := Some(names[0]), status := Ready))
  }

  lemma OpeningsWon(names: seq<Name>) returns (b1: Bracket, b: Bracket)
    requires |names| == 8
    ensures |Eight(names).matches| == 7
    ensures DeclareWinner(Eight(names), Main(0), A) == Ok(b1) && |b1.matches| == 7 && b1.matches[1].id == MatchId(1, 1)
    ensures DeclareWinner(b1, Main(1), A) == Ok(b) && SemifinalIsOn(b, names)
  {
    assert Next(7, 0) == Next(7, 1) == 4;
    b1 := DeclareWinner(Eight(names), Main(0), A).value;
    assert b1.matches[4].playerA == Some(names[0]);
    b := DeclareWinner(b1, Main(1), A).value;
  }

  lemma PlayOpenings(ops: seq<Op>, names: seq<Name>) returns (b: Bracket)
    requires |names| == 8 && Run(None, ops) == Some(Eight(names))
    ensures Run(None, ops + [OnFirst(SetWinner(A))] + [OnMatch(MatchId(1, 1), SetWinner(A))]) == Some(b)
    ensures SemifinalIsOn(b, names)
  {
    var b1;
    b1, b := OpeningsWon(names);
    OneMore(ops, Eight(names), Main(0), SetWinner(A), b1);
    OneMore(ops + [OnFirst(SetWinner(A))], b1, Main(1), SetWinner(A), b);
  }

  lemma PlaySemifinal(ops: seq<Op>, names: seq<Name>, b: Bracket) returns (b': Bracket)
    requires SemifinalIsOn(b, names) && Run(None, ops) == Some(b)
    ensures Run(None, ops + [OnSemifinal(SetWinner(B))] + [OnSemifinal(SetThirdPlaceLoser(A))]) == Some(b')
    ensures LoserIsFed(b', names)
  {
    assert Next(7, 4) == 6;
    var b1 := DeclareWinner(b, Main(4), B).value;
    OneMore(ops, b, Main(4), SetWinner(B), b1);
    assert Log2(8) == 3 by { assert Log2(4) == 2 by { assert Log2(2) == 1; } }
    b' := FeedLoser(b1, Main(4), A).value;
    OneMore(ops + [OnSemifinal(SetWinner(B))], b1, Main(4), SetThirdPlaceLoser(A), b');
  }

  lemma PlayGap(names: seq<Name>) returns (b: Bracket)
    requires |names| == 8 && forall k | 0 <= k < |names| :: |names[k]| <= MAX_PLAYER_NAME_LEN
    ensures Run(None, GapOps(names)) == Some(b) && LoserIsFed(b, names)
  {
    var ops := [NewBracket()] + SeedOps(names);
    SeedRun(names);
    var b0 := PlayOpenings(ops, names);
    var ops0 := ops + [OnFirst(SetWinner(A))] + [OnMatch(MatchId(1, 1), SetWinner(A))];
    b := PlaySemifinal(ops0, names, b0);
    assert ops0 + [OnSemifinal(SetWinner(B))] + [OnSemifinal(SetThirdPlaceLoser(A))] == GapOps(names);
  }

  // Eight players, whoever they are: the loser of a decided semifinal is in the third-place match;
  // undoing the opening that player won takes the semifinal back, and leaves the player there.
  lemma QuarterfinalCascadeGap(names: seq<Name>) returns (b: Bracket, b': Bracket)
    requires |names| == 8 && forall k | 0 <= k < |names| :: |names[k]| <= MAX_PLAYER_NAME_LEN
    ensures Run(None, GapOps(names)) == Some(b)
    ensures |b.matches| == 7 && b.matches[4].id == MatchId(2, 0)
    ensures b.matches[4].Decided() && b.matches[4].winner == Some(B)
    ensures b.thirdPlace.Some? && b.matches[4].playerA == b.thirdPlace.value.playerA == Some(names[0])
    ensures Run(None, GapOps(names) + [OnFirst(UndoMatch)]) == Some(b')
    ensures |b'.matches| == 7 && b'.matches[4].id == MatchId(2, 0)
    ensures b'.matches[4].winner.None? && b'.matches[4].playerA.None?
    ensures b'.thirdPlace == b.thirdPlace
  {
    b := PlayGap(names);
    TakenBackButNotReleased(b);
    b' := Undo(b, Main(0));
    OneMore(GapOps(names), b, Main(0), UndoMatch, b');
  }

  lemma TakenBackButNotReleased(b: Bracket)
    requires |b.matches| == 7 && b.thirdPlace.Some?
    requires b.matches[4].Decided() && b.matches[4].winner == Some(B)
    requires b.matches[4].playerA.Some? && b.thirdPlace.value.playerA == b.matches[4].playerA
    ensures var b' := Undo(b, Main(0));
            && |b'.matches| == 7 && b'.matches[4].id == b.matches[4].id
            && b'.matches[4].winner.None? && b'.matches[4].playerA.None?
            && b'.thirdPlace == b.thirdPlace
  {
    assert Next(7, 0) == 4 && Next(7, 4) == 6;
    StrandedLoser(b, 0);
    UndoEffect(b, 0, 4, A);
    assert 0 in Chain(b.matches, 0) && Feeder(7, 4, A) == 0;
  }

  // ---- a third place won by nobody ----

  // The same eight players: the semifinal's loser is declared third, then the semifinal is undone.
  // The third-place match is decided, for a side on which nobody is left.
  lemma NamelessThirdPlace(names: seq<Name>) returns (b: Bracket)
    requires |names| == 8 && forall k | 0 <= k < |names| :: |names[k]| <= MAX_PLAYER_NAME_LEN
    ensures Run(None, GapOps(names) + [OnMatch(THIRD_PLACE_ID, SetWinner(A))] + [OnSemifinal(UndoMatch)]) == Some(b)
    ensures b.thirdPlace.Some? && b.thirdPlace.value.Decided() && b.thirdPlace.value.winner == Some(A)
    ensures b.thirdPlace.value.playerA.None? && b.thirdPlace.value.playerB.None?
  {
    var b0 := PlayGap(names);
    var b1 := DeclareWinner(b0, ThirdPlace, A).value;
    OneMore(GapOps(names), b0, ThirdPlace, SetWinner(A), b1);
    WinnerTakenOut(b1, names);
    b := Undo(b1, Main(4));
    OneMore(GapOps(names) + [OnMatch(THIRD_PLACE_ID, SetWinner(A))], b1, Main(4), UndoMatch, b);
  }

  lemma WinnerTakenOut(b: Bracket, names: seq<Name>)
    requires |names| == 8 && |b.matches| == 7 && !b.matches[6].Decided()
    requires b.matches[4] == Match(MatchId(2, 0), 2, 0, Some(names[0]), Some(names[2]), Some(B), Completed, None)
    requires b.thirdPlace
          == Some(Match(THIRD_PLACE_ID, 4, 0, Some(names[0]), None, Some(A), Completed, None))
    ensures Undo(b, Main(4)).thirdPlace == Some(Match(THIRD_PLACE_ID, 4, 0, None, None, Some(A), Completed, None))
  {
    assert Next(7, 4) == 6 && Chain(b.matches, 4) == {4};
    NoEarlierFeeder(b.matches, 4);
    ThirdPlaceAfterUndo(b, 4, 4);
  }

  // ---- a winner that stays on after its seat has been cleared ----

  lemma ClearedSeat(x: Name, y: Name) returns (b: Bracket)
    requires |x| <= MAX_PLAYER_NAME_LEN && |y| <= MAX_PLAYER_NAME_LEN
    ensures Run(None, [NewBracket()] + SeedOps([x, y]) + [OnFirst(SetWinner(A))] + [OnFirst(AssignPlayer(A, ""))])
         == Some(b)
    ensures |b.matches| == 7 && b.matches[0].Decided() && b.matches[0].winner == Some(A)
    ensures b.matches[0].playerA.None? && b.matches[4].playerA == Some(x)
    ensures !Sound(b.matches)
  {
    var ops := [NewBracket()] + SeedOps([x, y]);
    SeedRun([x, y]);
    var b0 := Eight([x, y]);
    var b1 := DeclareWinner(b0, Main(0), A).value;
    OneMore(ops, b0, Main(0), SetWinner(A), b1);
    b := AssignSlot(b1, Main(0), A, "").value;
    OneMore(ops + [OnFirst(SetWinner(A))], b1, Main(0), AssignPlayer(A, ""), b);
    assert !FromFeeder(b.matches, 4, A);
  }
}
