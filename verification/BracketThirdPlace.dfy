// What an undo does to the third-place match. The source promises that taking back a semifinal,
// directly or through an earlier match, also takes its loser out of the third-place match. It
// reads the loser's name after the cascade may have emptied that very slot, so the promise fails
// exactly when the cascade arrived through the semifinal's loser.

module BracketThirdPlace {
  import opened Types
  import opened BracketTree
  import opened BracketSpec
  import opened BracketUndo

  // Undoing match i empties the third-place slot of semifinal s: the cascade takes s back, the
  // slot still holds the name of the loser of s, and the cascade did not come from that loser's
  // own earlier match.
  predicate Releases(b: Bracket, i: nat, s: nat)
    requires TreeSize(|b.matches|) && i < |b.matches| && s < |b.matches| && b.thirdPlace.Some?
  {
    var m := b.matches[s];
    && s in Chain(b.matches, i)
    && m.winner.Some?
    && m.Slot(m.winner.value.Other()).Some?
    && b.thirdPlace.value.Slot(Side(s)) == m.Slot(m.winner.value.Other())
    && !FedBy(|b.matches|, Chain(b.matches, i), s, m.winner.value.Other())
  }

  lemma UndoSemifinal(b: Bracket, s: nat)
    requires TreeSize(|b.matches|) && s < |b.matches| && b.thirdPlace.Some?
    requires IsSemifinal(|b.matches|, s)
    ensures CascadeUndo(b, s).thirdPlace.value
         == if Releases(b, s, s) then b.thirdPlace.value.Fed(Side(s), None) else b.thirdPlace.value
  {
    var n, ms := |b.matches|, b.matches;
    if HasFeeders(n, s) {
      assert Feeder(n, s, A) !in Chain(ms, s) && Feeder(n, s, B) !in Chain(ms, s);
    }
  }

  // One step down the cascade, before it comes to semifinal s.
  lemma ReleasesOneLater(b: Bracket, i: nat, s: nat)
    requires TreeSize(|b.matches|) && i < |b.matches| && b.thirdPlace.Some?
    requires IsSemifinal(|b.matches|, s) && s in Chain(b.matches, i) && i != s
    ensures i < |b.matches| - 1 && b.matches[Next(|b.matches|, i)].Decided()
    ensures var j, b' := Next(|b.matches|, i), TakenBack(b, i);
            && s in Chain(b'.matches, j) && b'.thirdPlace == b.thirdPlace
            && (Releases(b', j, s) <==> Releases(b, i, s))
  {
    var n, ms, j, b' := |b.matches|, b.matches, Next(|b.matches|, i), TakenBack(b, i);
    assert ms[j].Decided() && s in Chain(ms, j);
    ChainFrame(ms, b'.matches, j);
    if HasFeeders(n, s) {
      assert forall p: Player :: Feeder(n, s, p) == i <==> j == s && p == Side(i) by {
        FeederOfNext(n, i);
      }
    }
  }

  // The exact effect on the third-place match of an undo whose cascade takes back semifinal s.
  lemma {:induction false} ThirdPlaceAfterUndo(b: Bracket, i: nat, s: nat)
    requires TreeSize(|b.matches|) && i < |b.matches| && b.thirdPlace.Some?
    requires IsSemifinal(|b.matches|, s) && s in Chain(b.matches, i)
    ensures Undo(b, Main(i)).thirdPlace.value
         == if Releases(b, i, s) then b.thirdPlace.value.Fed(Side(s), None) else b.thirdPlace.value
    decreases |b.matches| - i
  {
    if i == s {
      UndoSemifinal(b, s);
    } else {
      ReleasesOneLater(b, i, s);
      ThirdPlaceAfterUndo(TakenBack(b, i), Next(|b.matches|, i), s);
    }
  }

  // An undo that takes back no semifinal leaves the third-place match alone.
  lemma {:induction false} ThirdPlaceUntouched(b: Bracket, i: nat)
    requires TreeSize(|b.matches|) && i < |b.matches|
    requires forall s | s in Chain(b.matches, i) :: !IsSemifinal(|b.matches|, s)
    ensures Undo(b, Main(i)).thirdPlace == b.thirdPlace
    decreases |b.matches| - i
  {
    var n, ms := |b.matches|, b.matches;
    if !IsFinal(n, i) && ms[Next(n, i)].Decided() {
      var b' := TakenBack(b, i);
      ChainFrame(ms, b'.matches, Next(n, i));
      assert i in Chain(ms, i);
      ThirdPlaceUntouched(b', Next(n, i));
    }
  }

  // The promise, and exactly when it is kept: the loser that a taken-back semifinal had put into
  // the third-place match leaves it if and only if the cascade did not come from that loser's match.
  lemma LoserReleasedIff(b: Bracket, i: nat, s: nat)
    requires TreeSize(|b.matches|) && i < |b.matches| && b.thirdPlace.Some?
    requires IsSemifinal(|b.matches|, s) && s in Chain(b.matches, i) && b.matches[s].winner.Some?
    requires var loser := b.matches[s].Slot(b.matches[s].winner.value.Other());
             loser.Some? && b.thirdPlace.value.Slot(Side(s)) == loser
    ensures Undo(b, Main(i)).thirdPlace.value.Slot(Side(s)).None?
       <==> !FedBy(|b.matches|, Chain(b.matches, i), s, b.matches[s].winner.value.Other())
  {
    ThirdPlaceAfterUndo(b, i, s);
  }

  // Taking the loser out of a third-place match already decided leaves its status alone. That match
  // goes on naming its winner unless the loser taken out is the one who won it; then it is decided,
  // with a winning side and nobody on it.
  lemma ThirdPlaceNamesWinnerIff(b: Bracket, i: nat, s: nat)
    requires TreeSize(|b.matches|) && i < |b.matches| && b.thirdPlace.Some?
    requires IsSemifinal(|b.matches|, s) && s in Chain(b.matches, i)
    requires b.thirdPlace.value.Decided() && b.thirdPlace.value.WinnerName().Some?
    ensures var tp, tp' := b.thirdPlace.value, Undo(b, Main(i)).thirdPlace.value;
            && tp'.Decided() && tp'.winner == tp.winner
            && (tp'.WinnerName().Some? <==> !(Releases(b, i, s) && tp.winner == Some(Side(s))))
  {
    ThirdPlaceAfterUndo(b, i, s);
  }

  // Undoing the match that sent the loser to a decided semifinal strands the loser in the
  // third-place match for good, while undoing the semifinal first would have released it: on the
  // third-place match two undos do not commute.
  lemma StrandedLoser(b: Bracket, c: nat)
    requires TreeSize(|b.matches|) && c < |b.matches| - 1 && b.thirdPlace.Some?
    requires var s := Next(|b.matches|, c);
             && IsSemifinal(|b.matches|, s)
             && b.matches[s].Decided() && b.matches[s].winner == Some(Side(c).Other())
             && b.matches[s].Slot(Side(c)).Some?
             && b.thirdPlace.value.Slot(Side(s)) == b.matches[s].Slot(Side(c))
    ensures var s := Next(|b.matches|, c);
            && Undo(b, Main(c)).matches[s].winner.None?
            && Undo(b, Main(c)).thirdPlace == b.thirdPlace
            && Undo(Undo(b, Main(c)), Main(s)).thirdPlace == b.thirdPlace
            && Undo(Undo(b, Main(s)), Main(c)).thirdPlace.value.Slot(Side(s)).None?
  {
    var n, ms, s := |b.matches|, b.matches, Next(|b.matches|, c);
    FeederOfNext(n, c);
    assert c in Chain(ms, c) && s in Chain(ms, c);
    ThirdPlaceAfterUndo(b, c, s);
    CascadeIsWipe(b, c);
    assert Undo(b, Main(c)).matches[s] == WipedMatch(ms, Chain(ms, c), s);
    ThirdPlaceAfterUndo(Undo(b, Main(c)), s, s);
    SemifinalFirst(b, c);
  }

  lemma SemifinalFirst(b: Bracket, c: nat)
    requires TreeSize(|b.matches|) && c < |b.matches| - 1 && b.thirdPlace.Some?
    requires var s := Next(|b.matches|, c);
             && IsSemifinal(|b.matches|, s)
             && b.matches[s].winner == Some(Side(c).Other())
             && b.matches[s].Slot(Side(c)).Some?
             && b.thirdPlace.value.Slot(Side(s)) == b.matches[s].Slot(Side(c))
    ensures Undo(Undo(b, Main(Next(|b.matches|, c))), Main(c)).thirdPlace.value.Slot(Side(Next(|b.matches|, c))).None?
  {
    var n, ms, s := |b.matches|, b.matches, Next(|b.matches|, c);
    UndoSemifinal(b, s);
    CascadeIsWipe(b, s);
    var b' := Undo(b, Main(s));
    DecidedAfterWipe(ms, s, s);
    assert Chain(b'.matches, c) == {c};
    ThirdPlaceUntouched(b', c);
    NoEarlierFeeder(ms, s);
  }

  lemma NoEarlierFeeder(ms: seq<Match>, s: nat)
    requires TreeSize(|ms|) && s < |ms|
    ensures !FedBy(|ms|, Chain(ms, s), s, A) && !FedBy(|ms|, Chain(ms, s), s, B)
  {
  }
}
