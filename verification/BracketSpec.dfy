// The bracket as a value, and what each engine operation does to it.
//
// The operations address a match by its index in the flat array (or as the third-place match);
// class BracketEngine implements them on mutable match objects found by id, round and position.

module BracketSpec {
  import opened Types
  import opened BracketTree
  import MatchIds

  const MAX_PLAYER_NAME_LEN := 50

  datatype MatchStatus = Pending | Ready | Completed

  datatype BracketStatus = Setup | Active | Finished

  datatype BracketError =
    | InvalidSize | NoBracket | MatchNotFound | NameTooLong | MatchNotReady
    | InvalidWinner | NoThirdPlace | NotSemifinal

  datatype Match = Match(
    id: string, round: nat, position: nat,
    playerA: Option<Name>, playerB: Option<Name>,
    winner: Option<Player>, status: MatchStatus, courtId: Option<string>)
  {
    function Slot(s: Player): Option<Name> { if s == A then playerA else playerB }

    function WithSlot(s: Player, v: Option<Name>): Match {
      if s == A then this.(playerA := v) else this.(playerB := v)
    }

    predicate Decided() { status == Completed }

    // The status an undecided match has, from its slots alone.
    function SlotStatus(): MatchStatus {
      if playerA.None? && playerB.None? then Pending else Ready
    }

    function Recomputed(): Match { this.(status := SlotStatus()) }

    // A slot written from outside: a decided match keeps its status.
    function Fed(s: Player, v: Option<Name>): Match {
      var m := WithSlot(s, v);
      if Decided() then m else m.Recomputed()
    }

    // The name that moves on, once there is a winner.
    function WinnerName(): Option<Name> {
      if winner.Some? then Slot(winner.value) else None
    }

    // The empty string is no court at all.
    predicate HasCourt() { courtId.Some? && courtId.value != "" }
  }

  datatype Bracket = Bracket(
    name: string, numSlots: nat, includeThirdPlace: bool,
    matches: seq<Match>, thirdPlace: Option<Match>,
    status: BracketStatus, createdAt: int)
  {
    function Rounds(): nat { Log2(numSlots) }
  }

  // ---- shape ----

  ghost predicate Placed(rounds: nat, ms: seq<Match>) {
    && |ms| == Pow2(rounds) - 1
    && forall i | 0 <= i < |ms| ::
         && At(rounds, i, ms[i].round, ms[i].position)
         && ms[i].id == MatchIds.MatchId(ms[i].round, ms[i].position)
  }

  // The shape every operation keeps: 2^rounds slots, one match per place, in order.
  ghost predicate WellFormed(b: Bracket) {
    && b.Rounds() >= 2
    && b.numSlots == Pow2(b.Rounds())
    && Placed(b.Rounds(), b.matches)
    && (b.includeThirdPlace <==> b.thirdPlace.Some?)
    && (b.thirdPlace.Some? ==>
          && b.thirdPlace.value.id == MatchIds.THIRD_PLACE_ID
          && b.thirdPlace.value.round == b.Rounds() + 1
          && b.thirdPlace.value.position == 0)
  }

  // Only slots, winner, status and court of a match ever change.
  predicate SamePlace(m: Match, m': Match) {
    m.id == m'.id && m.round == m'.round && m.position == m'.position
  }

  ghost predicate SamePlaces(b: Bracket, b': Bracket) {
    && b'.name == b.name && b'.numSlots == b.numSlots
    && b'.includeThirdPlace == b.includeThirdPlace && b'.createdAt == b.createdAt
    && |b'.matches| == |b.matches|
    && (forall i | 0 <= i < |b.matches| :: SamePlace(b.matches[i], b'.matches[i]))
    && b'.thirdPlace.Some? == b.thirdPlace.Some?
    && (b.thirdPlace.Some? ==> SamePlace(b.thirdPlace.value, b'.thirdPlace.value))
  }

  lemma SamePlacesWellFormed(b: Bracket, b': Bracket)
    requires WellFormed(b) && SamePlaces(b, b')
    ensures WellFormed(b')
  {
  }

  lemma WellFormedTree(b: Bracket)
    requires WellFormed(b)
    ensures TreeSize(|b.matches|) && |b.matches| >= 3
  {
    EvenSlots(b.Rounds());
    assert Pow2(b.Rounds()) == 2 * Pow2(b.Rounds() - 1);
    EvenSlots(b.Rounds() - 1);
  }

  // Round and position tell the final, the semifinals and the first round apart, and position
  // parity gives the slot fed.
  lemma StageOf(b: Bracket, i: nat)
    requires WellFormed(b) && i < |b.matches|
    ensures TreeSize(|b.matches|)
    ensures b.matches[i].round == b.Rounds() <==> IsFinal(|b.matches|, i)
    ensures b.matches[i].round + 1 == b.Rounds() <==> IsSemifinal(|b.matches|, i)
    ensures b.matches[i].round == 1 <==> !HasFeeders(|b.matches|, i)
    ensures !IsFinal(|b.matches|, i) ==> Side(i) == Side(b.matches[i].position)
  {
    var m := b.matches[i];
    AtStage(b.Rounds(), i, m.round, m.position);
    if m.round < b.Rounds() {
      AtNext(b.Rounds(), i, m.round, m.position);
    }
  }

  // The match one round on at half the position is the next match, and only that one is.
  lemma NextPlace(b: Bracket, i: nat, j: nat)
    requires WellFormed(b) && i < |b.matches| && j < |b.matches|
    ensures TreeSize(|b.matches|)
    ensures b.matches[j].round == b.matches[i].round + 1 && b.matches[j].position == b.matches[i].position / 2
       <==> !IsFinal(|b.matches|, i) && j == Next(|b.matches|, i)
  {
    StageOf(b, i);
    var rounds, m, o := b.Rounds(), b.matches[i], b.matches[j];
    if m.round < rounds {
      AtNext(rounds, i, m.round, m.position);
      if j == Next(|b.matches|, i) {
        AtUnique(rounds, j, m.round + 1, m.position / 2, o.round, o.position);
      }
    }
  }

  // ---- looking matches up ----

  datatype Ref = Main(index: nat) | ThirdPlace

  predicate Valid(b: Bracket, ref: Ref) {
    match ref
    case Main(i) => i < |b.matches|
    case ThirdPlace => b.thirdPlace.Some?
  }

  function Get(b: Bracket, ref: Ref): Match
    requires Valid(b, ref)
  {
    match ref
    case Main(i) => b.matches[i]
    case ThirdPlace => b.thirdPlace.value
  }

  function Put(b: Bracket, ref: Ref, m: Match): Bracket
    requires Valid(b, ref)
  {
    match ref
    case Main(i) => b.(matches := b.matches[i := m])
    case ThirdPlace => b.(thirdPlace := Some(m))
  }

  // First match with this id; the third-place match is asked first.
  function Find(b: Bracket, id: string): (r: Option<Ref>)
    ensures r.Some? ==> Valid(b, r.value) && Get(b, r.value).id == id
    ensures r.None? ==> forall ref | Valid(b, ref) :: Get(b, ref).id != id
  {
    if b.thirdPlace.Some? && b.thirdPlace.value.id == id then Some(ThirdPlace)
    else FindFrom(b, id, 0)
  }

  function FindFrom(b: Bracket, id: string, from: nat): (r: Option<Ref>)
    requires from <= |b.matches|
    ensures r.Some? ==> r.value.Main? && from <= r.value.index < |b.matches| && b.matches[r.value.index].id == id
    ensures r.None? ==> forall i | from <= i < |b.matches| :: b.matches[i].id != id
    decreases |b.matches| - from
  {
    if from == |b.matches| then None
    else if b.matches[from].id == id then Some(Main(from))
    else FindFrom(b, id, from + 1)
  }

  // In a well-formed bracket ids are keys: looking up a match's own id gives that match.
  lemma FindOwnId(b: Bracket, ref: Ref)
    requires WellFormed(b) && Valid(b, ref)
    ensures Find(b, Get(b, ref).id) == Some(ref)
  {
    var m := Get(b, ref);
    forall i | 0 <= i < |b.matches| && b.matches[i].id == m.id
      ensures ref == Main(i)
    {
      var o := b.matches[i];
      MatchIds.MatchIdIsNotThirdPlace(o.round, o.position);
      MatchIds.MatchIdInjective(m.round, m.position, o.round, o.position);
    }
    if ref.Main? {
      MatchIds.MatchIdIsNotThirdPlace(m.round, m.position);
    }
  }

  // ---- bracket status ----

  predicate AnyDecided(b: Bracket) {
    || (exists i | 0 <= i < |b.matches| :: b.matches[i].Decided())
    || (b.thirdPlace.Some? && b.thirdPlace.value.Decided())
  }

  // Finished once the final is decided, active once any match is.
  function StatusOf(b: Bracket): BracketStatus {
    if b.matches != [] && b.matches[|b.matches| - 1].Decided() then Finished
    else if AnyDecided(b) then Active
    else Setup
  }

  // The same without the function, and in terms of single matches: the third place never blocks the
  // end.
  ghost predicate StatusFits(b: Bracket) {
    && (b.status == Finished <==> b.matches != [] && b.matches[|b.matches| - 1].status == Completed)
    && (b.status == Setup <==>
          && (forall i | 0 <= i < |b.matches| :: b.matches[i].status != Completed)
          && (b.thirdPlace.Some? ==> b.thirdPlace.value.status != Completed))
  }

  lemma StatusOfFits(b: Bracket)
    ensures StatusFits(WithStatus(b))
    ensures StatusFits(b) <==> b.status == StatusOf(b)
  {
    if AnyDecided(b) && !(b.thirdPlace.Some? && b.thirdPlace.value.Decided()) {
      var i :| 0 <= i < |b.matches| && b.matches[i].Decided();
      assert b.matches[i].status == Completed;
    }
    if !AnyDecided(b) {
      assert forall i | 0 <= i < |b.matches| :: !b.matches[i].Decided();
    }
  }

  function WithStatus(b: Bracket): Bracket { b.(status := StatusOf(b)) }

  // ---- operations ----

  function EmptyMatch(id: string, round: nat, position: nat): Match {
    Match(id, round, position, None, None, None, Pending, None)
  }

  function RoundMatches(round: nat, count: nat): (ms: seq<Match>)
    ensures |ms| == count
  {
    seq(count, p requires 0 <= p => EmptyMatch(MatchIds.MatchId(round, p), round, p))
  }

  // Rounds `from` to `rounds`, in order.
  function AllRounds(rounds: nat, from: nat): seq<Match>
    requires 1 <= from <= rounds + 1
    decreases rounds + 1 - from
  {
    if from > rounds then []
    else RoundMatches(from, Pow2(rounds - from)) + AllRounds(rounds, from + 1)
  }

  function Create(name: string, numSlots: int, includeThirdPlace: bool, now: int): Result<Bracket, BracketError> {
    if numSlots !in {4, 8, 16, 32} then Err(InvalidSize)
    else
      var rounds := Log2(numSlots);
      Ok(Bracket(name, numSlots, includeThirdPlace, AllRounds(rounds, 1),
                 if includeThirdPlace then Some(EmptyMatch(MatchIds.THIRD_PLACE_ID, rounds + 1, 0)) else None,
                 Setup, now))
  }

  function AssignSlot(b: Bracket, ref: Ref, s: Player, name: string): Result<Bracket, BracketError>
    requires Valid(b, ref)
  {
    if |name| > MAX_PLAYER_NAME_LEN then Err(NameTooLong)
    else
      var v: Option<Name> := if name == "" then None else Some(name);
      Ok(Put(b, ref, Get(b, ref).Fed(s, v)))
  }

  // The winner's name of match i goes to its slot of the next match; the final leads nowhere.
  function Advanced(ms: seq<Match>, i: nat): (r: seq<Match>)
    requires TreeSize(|ms|) && i < |ms|
    ensures |r| == |ms|
  {
    if IsFinal(|ms|, i) then ms
    else ms[Next(|ms|, i) := ms[Next(|ms|, i)].Fed(Side(i), ms[i].WinnerName())]
  }

  // Declare the winner of main match i and move the name on.
  function Declared(ms: seq<Match>, i: nat, w: Player): (r: seq<Match>)
    requires TreeSize(|ms|) && i < |ms|
    ensures |r| == |ms|
  {
    Advanced(ms[i := ms[i].(winner := Some(w), status := Completed)], i)
  }

  function DeclareWinner(b: Bracket, ref: Ref, w: Player): Result<Bracket, BracketError>
    requires Valid(b, ref) && TreeSize(|b.matches|)
  {
    var m := Get(b, ref);
    if m.status != Ready then Err(MatchNotReady)
    else if m.Slot(w).None? then Err(InvalidWinner)
    else match ref
      case Main(i) => Ok(WithStatus(b.(matches := Declared(b.matches, i, w))))
      case ThirdPlace => Ok(WithStatus(Put(b, ref, m.(winner := Some(w), status := Completed))))
  }

  function FeedLoser(b: Bracket, ref: Ref, loser: Player): Result<Bracket, BracketError>
    requires Valid(b, ref)
  {
    var m := Get(b, ref);
    if b.thirdPlace.None? then Err(NoThirdPlace)
    else if m.round + 1 != b.Rounds() then Err(NotSemifinal)
    else if !m.Decided() then Err(MatchNotReady)
    else if m.winner == Some(loser) then Err(InvalidWinner)
    else
      var tp := b.thirdPlace.value;
      var s := Side(m.position);
      if m.Slot(loser).None? || tp.Slot(s).Some? || tp.Decided() then Ok(b)
      else Ok(b.(thirdPlace := Some(tp.WithSlot(s, m.Slot(loser)).Recomputed())))
  }

  // Clear the third-place slot that semifinal i fed, provided it still holds the loser's name.
  function ClearThirdPlace(b: Bracket, i: nat, loser: Option<Player>): (r: Bracket)
    requires TreeSize(|b.matches|) && i < |b.matches|
    ensures r == b.(thirdPlace := r.thirdPlace)
    ensures r.thirdPlace.Some? == b.thirdPlace.Some?
    ensures b.thirdPlace.Some? ==> SamePlace(b.thirdPlace.value, r.thirdPlace.value)
  {
    if b.thirdPlace.None? || loser.None? || !IsSemifinal(|b.matches|, i) then b
    else
      var tp := b.thirdPlace.value;
      var name := b.matches[i].Slot(loser.value);
      if name.None? || tp.Slot(Side(i)) != name then b
      else b.(thirdPlace := Some(tp.Fed(Side(i), None)))
  }

  // Take back the winner of match i, empty the slot it fed, and the third-place slot it fed.
  function TakenBack(b: Bracket, i: nat): (r: Bracket)
    requires TreeSize(|b.matches|) && i < |b.matches| - 1
    ensures r == b.(matches := r.matches, thirdPlace := r.thirdPlace)
    ensures SamePlaces(b, r)
  {
    var j := Next(|b.matches|, i);
    var m := b.matches[i];
    var loser := if m.winner.Some? then Some(m.winner.value.Other()) else None;
    var b1 := Put(b, Main(i), m.(winner := None).Recomputed());
    var b2 := Put(b1, Main(j), b.matches[j].WithSlot(Side(i), None).Recomputed());
    ClearThirdPlace(b2, i, loser)
  }

  // The recursive cascade: take match i back, and go on from the match it fed if that one had
  // been decided.
  function CascadeUndo(b: Bracket, i: nat): (r: Bracket)
    requires TreeSize(|b.matches|) && i < |b.matches|
    ensures r == b.(matches := r.matches, thirdPlace := r.thirdPlace)
    ensures SamePlaces(b, r)
    decreases |b.matches| - i
  {
    if IsFinal(|b.matches|, i) then Put(b, Main(i), b.matches[i].(winner := None).Recomputed())
    else
      var j := Next(|b.matches|, i);
      if b.matches[j].Decided() then CascadeUndo(TakenBack(b, i), j) else TakenBack(b, i)
  }

  function Undo(b: Bracket, ref: Ref): Bracket
    requires Valid(b, ref) && TreeSize(|b.matches|)
  {
    match ref
    case Main(i) => WithStatus(CascadeUndo(b, i))
    case ThirdPlace => WithStatus(Put(b, ref, Get(b, ref).(winner := None).Recomputed()))
  }

  function BindCourt(b: Bracket, ref: Ref, courtId: Option<string>): Bracket
    requires Valid(b, ref)
  {
    Put(b, ref, Get(b, ref).(courtId := courtId))
  }

  function Unbound(m: Match): Match { if m.HasCourt() then m.(courtId := None) else m }

  function ReleaseAll(b: Bracket): Bracket {
    b.(matches := seq(|b.matches|, i requires 0 <= i < |b.matches| => Unbound(b.matches[i])),
       thirdPlace := if b.thirdPlace.Some? then Some(Unbound(b.thirdPlace.value)) else None)
  }

  // The courts some match of the bracket holds.
  function BoundCourts(b: Bracket): set<string> {
    (set i | 0 <= i < |b.matches| && b.matches[i].HasCourt() :: b.matches[i].courtId.value)
    + (if b.thirdPlace.Some? && b.thirdPlace.value.HasCourt() then {b.thirdPlace.value.courtId.value} else {})
  }

  // The courts a bracket names, each once, in match order with the third place last.
  function AssignedIn(ms: seq<Match>): seq<string> {
    if ms == [] then []
    else
      var before, m := AssignedIn(ms[..|ms| - 1]), ms[|ms| - 1];
      if m.HasCourt() && m.courtId.value !in before then before + [m.courtId.value] else before
  }

  function Assigned(b: Bracket): seq<string> {
    AssignedIn(b.matches + if b.thirdPlace.Some? then [b.thirdPlace.value] else [])
  }

  lemma {:induction false} AssignedInExactly(ms: seq<Match>, id: string)
    ensures id in AssignedIn(ms) <==> exists i :: 0 <= i < |ms| && ms[i].HasCourt() && ms[i].courtId.value == id
    decreases ms
  {
    if ms != [] {
      var init := ms[..|ms| - 1];
      AssignedInExactly(init, id);
      assert forall i | 0 <= i < |init| :: init[i] == ms[i];
      if i :| 0 <= i < |init| && init[i].HasCourt() && init[i].courtId.value == id {
        assert ms[i].HasCourt();
      }
    }
  }

  lemma AssignedIsBound(b: Bracket, id: string)
    ensures id in Assigned(b) <==> id in BoundCourts(b)
  {
    var all := b.matches + if b.thirdPlace.Some? then [b.thirdPlace.value] else [];
    AssignedInExactly(all, id);
    if id in BoundCourts(b) {
      if b.thirdPlace.Some? && b.thirdPlace.value.HasCourt() && b.thirdPlace.value.courtId.value == id {
        assert all[|b.matches|] == b.thirdPlace.value;
      } else {
        var i :| 0 <= i < |b.matches| && b.matches[i].HasCourt() && b.matches[i].courtId.value == id;
        assert all[i] == b.matches[i];
      }
    }
    if i :| 0 <= i < |all| && all[i].HasCourt() && all[i].courtId.value == id {
      if i < |b.matches| {
        assert b.matches[i] == all[i];
      }
    }
  }
}
