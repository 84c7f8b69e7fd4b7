// What each engine operation does to a bracket, told field by field from the bracket before: which
// requests are accepted, what is written where, and that nothing else changes.

module BracketEffects {
  import opened Types
  import opened BracketTree
  import opened BracketSpec
  import opened BracketOps
  import opened BracketCoherence

  // An operation sent by the id of a match.
  function Sent(b: Bracket, ref: Ref, op: MatchOp): Outcome
    requires WellFormed(b) && Valid(b, ref)
  {
    Step(Some(b), OnMatch(Get(b, ref).id, op))
  }

  // The operation is refused with this error, and the bracket stays.
  predicate RefusedWith(b: Bracket, out: Outcome, error: BracketError) { out == Outcome(Some(b), Some(error)) }

  // The operation is accepted, and this is the bracket after it.
  predicate Accepted(out: Outcome, b': Bracket) { out == Outcome(Some(b'), None) }

  // Name, size, choices and date of the bracket.
  predicate SameHeader(b: Bracket, b': Bracket) {
    && b'.name == b.name && b'.numSlots == b.numSlots && b'.includeThirdPlace == b.includeThirdPlace
    && b'.createdAt == b.createdAt && |b'.matches| == |b.matches| && b'.thirdPlace.Some? == b.thirdPlace.Some?
  }

  ghost predicate SameMainBut(b: Bracket, b': Bracket, changed: set<nat>) {
    |b'.matches| == |b.matches| && forall k: nat | k < |b.matches| && k !in changed :: b'.matches[k] == b.matches[k]
  }

  // Both slots, written out.
  predicate Players(m: Match, a: Option<Name>, b: Option<Name>) { m.playerA == a && m.playerB == b }

  // An undecided match is pending exactly if nobody is on it.
  predicate Open(m: Match) {
    m.winner.None? && m.status == (if m.playerA.None? && m.playerB.None? then Pending else Ready)
  }

  function NameOf(m: Match, s: Player): Option<Name> {
    match s
    case A => m.playerA
    case B => m.playerB
  }

  // m with this name in slot s: the other slot, winner and court are those of m.
  predicate Written(m: Match, m': Match, s: Player, v: Option<Name>) {
    && SamePlace(m, m') && m'.winner == m.winner && m'.courtId == m.courtId
    && (match s
        case A => Players(m', v, m.playerB)
        case B => Players(m', m.playerA, v))
  }

  // The status a slot written from outside leaves: decided stays decided.
  predicate StatusKept(m: Match, m': Match) {
    m'.status == if m.status == Completed then Completed
                 else if m'.playerA.None? && m'.playerB.None? then Pending else Ready
  }

  lemma SentIs(b: Bracket, ref: Ref, op: MatchOp)
    requires WellFormed(b) && Valid(b, ref)
    ensures TreeSize(|b.matches|)
    ensures Sent(b, ref, op) == match ApplyTo(b, ref, op)
                                case Ok(b') => Outcome(Some(b'), None)
                                case Err(x) => Outcome(Some(b), Some(x))
  {
    WellFormedTree(b);
    FindOwnId(b, ref);
  }

  // ---- creating ----

  lemma CreateEffect(e: Option<Bracket>, name: string, numSlots: int, thirdPlace: bool, now: int)
    requires EngineOk(e)
    ensures var out := Step(e, Op.Create(name, numSlots, thirdPlace, now));
            if numSlots != 4 && numSlots != 8 && numSlots != 16 && numSlots != 32
            then out == Outcome(e, Some(InvalidSize))
            else
              && out.error.None? && out.bracket.Some?
              && var b := out.bracket.value;
                 && WellFormed(b) && b.name == name && b.numSlots == numSlots && |b.matches| == numSlots - 1
                 && b.includeThirdPlace == thirdPlace && b.thirdPlace.Some? == thirdPlace
                 && b.createdAt == now && b.status == Setup
                 && forall ref | Valid(b, ref) ::
                      var m := Get(b, ref);
                      Players(m, None, None) && m.winner.None? && m.courtId.None? && m.status == Pending
  {
    if numSlots in {4, 8, 16, 32} {
      CreateWellFormed(name, numSlots, thirdPlace, now);
      SizesArePowers(numSlots);
    }
  }

  // ---- assigning a player ----

  // Any match takes the name, decided or not, and the empty name clears the slot.
  lemma AssignEffect(b: Bracket, ref: Ref, s: Player, name: string)
    requires WellFormed(b) && Valid(b, ref)
    ensures var out, m := Sent(b, ref, AssignPlayer(s, name)), Get(b, ref);
            if |name| > 50 then RefusedWith(b, out, NameTooLong)
            else
              && out.error.None? && out.bracket.Some?
              && var b' := out.bracket.value;
                 && SameHeader(b, b') && b'.status == b.status && Valid(b', ref)
                 && Written(m, Get(b', ref), s, if name == "" then None else Some(name))
                 && StatusKept(m, Get(b', ref))
                 && (ref.Main? ==> SameMainBut(b, b', {ref.index}) && b'.thirdPlace == b.thirdPlace)
                 && (ref.ThirdPlace? ==> b'.matches == b.matches)
  {
    SentIs(b, ref, AssignPlayer(s, name));
  }

  // ---- declaring a winner ----

  // The match itself: decided for that side, players and court as they were.
  predicate DecidedFor(m: Match, m': Match, w: Player) {
    && SamePlace(m, m') && Players(m', m.playerA, m.playerB) && m'.courtId == m.courtId
    && m'.winner == Some(w) && m'.status == Completed
  }

  // The winner's name goes to the slot of the next match that the position gives, and nothing else
  // changes.
  ghost predicate Moved(b: Bracket, b': Bracket, i: nat, w: Player)
    requires TreeSize(|b.matches|) && i < |b.matches|
  {
    var n, m := |b.matches|, b.matches[i];
    && SameHeader(b, b') && b'.thirdPlace == b.thirdPlace && StatusFits(b')
    && DecidedFor(m, b'.matches[i], w)
    && if IsFinal(n, i) then SameMainBut(b, b', {i})
       else
         var j := Next(n, i);
         && SameMainBut(b, b', {i, j})
         && Written(b.matches[j], b'.matches[j], Side(i), NameOf(m, w))
         && StatusKept(b.matches[j], b'.matches[j])
  }

  lemma DeclarationMoves(b: Bracket, i: nat, w: Player)
    requires TreeSize(|b.matches|) && i < |b.matches|
    requires b.matches[i].status == Ready && NameOf(b.matches[i], w).Some?
    ensures DeclareWinner(b, Main(i), w).Ok? && Moved(b, DeclareWinner(b, Main(i), w).value, i, w)
  {
    StatusOfFits(b.(matches := Declared(b.matches, i, w)));
  }

  // Accepted exactly for a ready match and a side with somebody on it.
  lemma DeclareEffect(b: Bracket, i: nat, w: Player)
    requires WellFormed(b) && i < |b.matches|
    ensures TreeSize(|b.matches|)
    ensures var out, m := Sent(b, Main(i), SetWinner(w)), b.matches[i];
            if m.status != Ready then RefusedWith(b, out, MatchNotReady)
            else if NameOf(m, w).None? then RefusedWith(b, out, InvalidWinner)
            else out.error.None? && out.bracket.Some? && Moved(b, out.bracket.value, i, w)
  {
    SentIs(b, Main(i), SetWinner(w));
    if b.matches[i].status == Ready && NameOf(b.matches[i], w).Some? {
      DeclarationMoves(b, i, w);
    }
  }

  // The end of the final is the end of the bracket, whatever the third place.
  lemma FinalEnds(b: Bracket, w: Player)
    requires WellFormed(b) && |b.matches| > 0
    requires b.matches[|b.matches| - 1].status == Ready && NameOf(b.matches[|b.matches| - 1], w).Some?
    ensures var out := Sent(b, Main(|b.matches| - 1), SetWinner(w));
            out.error.None? && out.bracket.Some? && out.bracket.value.status == Finished
  {
    var i := |b.matches| - 1;
    SentIs(b, Main(i), SetWinner(w));
    DeclarationMoves(b, i, w);
    assert DecidedFor(b.matches[i], DeclareWinner(b, Main(i), w).value.matches[i], w);
  }

  lemma DeclareThirdPlaceEffect(b: Bracket, w: Player)
    requires WellFormed(b) && b.thirdPlace.Some?
    ensures var out, m := Sent(b, ThirdPlace, SetWinner(w)), b.thirdPlace.value;
            if m.status != Ready then RefusedWith(b, out, MatchNotReady)
            else if NameOf(m, w).None? then RefusedWith(b, out, InvalidWinner)
            else
              && out.error.None? && out.bracket.Some?
              && var b' := out.bracket.value;
                 && SameHeader(b, b') && b'.matches == b.matches && StatusFits(b')
                 && DecidedFor(m, b'.thirdPlace.value, w)
  {
    SentIs(b, ThirdPlace, SetWinner(w));
    if DeclareWinner(b, ThirdPlace, w).Ok? {
      StatusOfFits(Put(b, ThirdPlace, b.thirdPlace.value.(winner := Some(w), status := Completed)));
    }
  }

  // ---- feeding a loser ----

  // The third-place match after semifinal i has sent this loser: the slot of its side is filled if
  // it was free and the match open, and one name is enough to make the match ready.
  predicate LoserSent(tp: Match, tp': Match, i: nat, loser: Option<Name>) {
    if loser.Some? && NameOf(tp, Side(i)).None? && tp.status != Completed
    then Written(tp, tp', Side(i), loser) && tp'.status == Ready
    else tp' == tp
  }

  // Accepted exactly for a decided semifinal and the side that lost it.
  lemma FeedEffect(b: Bracket, i: nat, loser: Player)
    requires WellFormed(b) && i < |b.matches|
    ensures TreeSize(|b.matches|)
    ensures var out, m := Sent(b, Main(i), SetThirdPlaceLoser(loser)), b.matches[i];
            if b.thirdPlace.None? then RefusedWith(b, out, NoThirdPlace)
            else if !IsSemifinal(|b.matches|, i) then RefusedWith(b, out, NotSemifinal)
            else if m.status != Completed then RefusedWith(b, out, MatchNotReady)
            else if m.winner == Some(loser) then RefusedWith(b, out, InvalidWinner)
            else
              && out.error.None? && out.bracket.Some?
              && var b' := out.bracket.value;
                 && SameHeader(b, b') && b'.matches == b.matches && b'.status == b.status
                 && LoserSent(b.thirdPlace.value, b'.thirdPlace.value, i, NameOf(m, loser))
  {
    SentIs(b, Main(i), SetThirdPlaceLoser(loser));
    StageOf(b, i);
  }

  // Declaring and feeding together, for either semifinal.
  lemma DeclareAndFeedEffect(b: Bracket, i: nat, w: Player)
    requires WellFormed(b) && i < |b.matches| && b.thirdPlace.Some?
    requires b.matches[i].status == Ready && NameOf(b.matches[i], w).Some?
    ensures TreeSize(|b.matches|) && DeclareAndFeed(b, i, w).Ok?
    ensures var b', tp := DeclareAndFeed(b, i, w).value, b.thirdPlace.value;
            && |b'.matches| == |b.matches| && b'.thirdPlace.Some?
            && DecidedFor(b.matches[i], b'.matches[i], w)
            && if IsSemifinal(|b.matches|, i)
               then LoserSent(tp, b'.thirdPlace.value, i, NameOf(b.matches[i], w.Other()))
               else b'.thirdPlace == b.thirdPlace
  {
    FeedNeverFails(b, i, w);
    StageOf(b, i);
  }

  // ---- undoing ----

  lemma UndoSent(b: Bracket, ref: Ref)
    requires WellFormed(b) && Valid(b, ref)
    ensures TreeSize(|b.matches|) && Accepted(Sent(b, ref, UndoMatch), Undo(b, ref))
    ensures StatusFits(Undo(b, ref))
  {
    SentIs(b, ref, UndoMatch);
    match ref
    case Main(i) => StatusOfFits(CascadeUndo(b, i));
    case ThirdPlace => StatusOfFits(Put(b, ref, Get(b, ref).(winner := None).Recomputed()));
  }

  // Undoing the third-place match takes its winner away and leaves its players, its court and the
  // main tree alone.
  lemma UndoThirdPlaceEffect(b: Bracket)
    requires WellFormed(b) && b.thirdPlace.Some?
    ensures TreeSize(|b.matches|)
    ensures var b', tp := Undo(b, ThirdPlace), b.thirdPlace.value;
            && SameHeader(b, b') && b'.matches == b.matches && StatusFits(b')
            && var tp' := b'.thirdPlace.value;
               && SamePlace(tp, tp') && Players(tp', tp.playerA, tp.playerB) && tp'.courtId == tp.courtId && Open(tp')
  {
    UndoSent(b, ThirdPlace);
  }

  // So an accepted winner of the third place and its undo restore the bracket.
  lemma ThirdPlaceDeclaredAndUndone(b: Bracket, w: Player)
    requires WellFormed(b) && Coherent(b) && b.thirdPlace.Some? && TreeSize(|b.matches|)
    requires DeclareWinner(b, ThirdPlace, w).Ok?
    ensures |DeclareWinner(b, ThirdPlace, w).value.matches| == |b.matches|
    ensures DeclareWinner(b, ThirdPlace, w).value.thirdPlace.Some?
    ensures Undo(DeclareWinner(b, ThirdPlace, w).value, ThirdPlace) == b
  {
    var b1 := DeclareWinner(b, ThirdPlace, w).value;
    var b2 := Undo(b1, ThirdPlace);
    assert CoherentMatch(b.thirdPlace.value);
    assert b2.thirdPlace == b.thirdPlace;
    StatusFrame(b, b2);
    StatusOfFrame(b, b2);
  }

  lemma StatusOfFrame(b: Bracket, b': Bracket)
    requires Coherent(b) && b'.status == StatusOf(b) && b' == b.(status := b'.status)
    ensures b' == b
  {
  }

  // ---- courts ----

  lemma CourtEffect(b: Bracket, ref: Ref, courtId: Option<string>)
    requires WellFormed(b) && Valid(b, ref)
    ensures var out := Sent(b, ref, SetCourt(courtId));
            && out.error.None? && out.bracket.Some?
            && var b' := out.bracket.value;
               && SameHeader(b, b') && b'.status == b.status && Valid(b', ref)
               && Get(b', ref) == Get(b, ref).(courtId := courtId)
               && (ref.Main? ==> SameMainBut(b, b', {ref.index}) && b'.thirdPlace == b.thirdPlace)
               && (ref.ThirdPlace? ==> b'.matches == b.matches)
  {
    SentIs(b, ref, SetCourt(courtId));
  }

  // ---- requests that find nothing, and the reset ----

  lemma UnknownMatch(e: Option<Bracket>, id: string, op: MatchOp)
    requires EngineOk(e)
    requires e.Some? ==> forall ref | Valid(e.value, ref) :: Get(e.value, ref).id != id
    ensures Step(e, OnMatch(id, op)) == Outcome(e, Some(if e.None? then NoBracket else MatchNotFound))
    ensures Step(e, Reset) == Outcome(None, None)
  {
  }
}
