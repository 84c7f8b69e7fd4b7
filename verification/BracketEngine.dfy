// The bracket engine on mutable match objects: matches are found by id, or by round and position,
// and overwritten in place. Each method does to the objects what its operation in BracketOps does
// to the value they stand for.

module BracketEngine {
  import opened Types
  import opened BracketTree
  import opened BracketSpec
  import opened BracketOps

  class BracketMatch {
    const id: string
    const round: nat
    const position: nat
    var playerA: Option<Name>
    var playerB: Option<Name>
    var winner: Option<Player>
    var status: MatchStatus
    var courtId: Option<string>

    constructor (id: string, round: nat, position: nat)
      ensures Value() == EmptyMatch(id, round, position)
    {
      this.id, this.round, this.position := id, round, position;
      playerA, playerB, winner, status, courtId := None, None, None, Pending, None;
    }

    constructor Copy(m: Match)
      ensures Value() == m
    {
      id, round, position := m.id, m.round, m.position;
      playerA, playerB, winner, status, courtId := m.playerA, m.playerB, m.winner, m.status, m.courtId;
    }

    function Value(): Match
      reads this
    {
      Match(id, round, position, playerA, playerB, winner, status, courtId)
    }

    method WriteSlot(s: Player, v: Option<Name>)
      modifies this
      ensures Value() == old(Value()).WithSlot(s, v)
    {
      if s == A { playerA := v; } else { playerB := v; }
    }

    method ComputeStatus()
      modifies this`status
      ensures Value() == old(Value()).Recomputed()
    {
      if playerA.None? && playerB.None? { status := Pending; } else { status := Ready; }
    }

    // Write a slot from outside: a decided match keeps its status.
    method FeedSlot(s: Player, v: Option<Name>)
      modifies this
      ensures Value() == old(Value()).Fed(s, v)
    {
      WriteSlot(s, v);
      if status != Completed {
        ComputeStatus();
      }
    }
  }

  function Values(ms: seq<BracketMatch>): (r: seq<Match>)
    reads ms
    ensures |r| == |ms| && forall i | 0 <= i < |ms| :: r[i] == ms[i].Value()
  {
    seq(|ms|, i requires 0 <= i < |ms| reads ms => ms[i].Value())
  }

  class TournamentBracket {
    const name: string
    const numSlots: nat
    const includeThirdPlace: bool
    const matches: seq<BracketMatch>
    const thirdPlaceMatch: BracketMatch?
    var status: BracketStatus
    const createdAt: int

    constructor (name: string, numSlots: nat, includeThirdPlace: bool, matches: seq<BracketMatch>,
                 thirdPlaceMatch: BracketMatch?, status: BracketStatus, createdAt: int)
      ensures this.name == name && this.numSlots == numSlots && this.includeThirdPlace == includeThirdPlace
      ensures this.matches == matches && this.thirdPlaceMatch == thirdPlaceMatch
      ensures this.status == status && this.createdAt == createdAt
    {
      this.name, this.numSlots, this.includeThirdPlace := name, numSlots, includeThirdPlace;
      this.matches, this.thirdPlaceMatch := matches, thirdPlaceMatch;
      this.status, this.createdAt := status, createdAt;
    }

    ghost function Objects(): set<object> {
      {this} + (set i | 0 <= i < |matches| :: matches[i] as object)
      + (if thirdPlaceMatch == null then {} else {thirdPlaceMatch as object})
    }

    // No match object is listed twice.
    ghost predicate Separate() {
      && (forall i, j | 0 <= i < j < |matches| :: matches[i] != matches[j])
      && thirdPlaceMatch !in matches
    }

    function Value(): Bracket
      reads Objects()
    {
      Bracket(name, numSlots, includeThirdPlace,
              Values(matches),
              if thirdPlaceMatch == null then None else Some(thirdPlaceMatch.Value()),
              status, createdAt)
    }

    // The object that a reference into the value stands for.
    ghost predicate Holds(ref: Ref, m: BracketMatch) {
      match ref
      case Main(i) => i < |matches| && matches[i] == m
      case ThirdPlace => thirdPlaceMatch == m
    }
  }

  // All of v but this one match is still what the objects say.
  ghost predicate AllButOne(b: TournamentBracket, v: Bracket, m: BracketMatch)
    reads b.Objects()
  {
    && v == b.Value().(matches := v.matches, thirdPlace := v.thirdPlace)
    && |v.matches| == |b.matches|
    && (forall i | 0 <= i < |b.matches| && b.matches[i] != m :: v.matches[i] == b.matches[i].Value())
    && (v.thirdPlace.Some? <==> b.thirdPlaceMatch != null)
    && (b.thirdPlaceMatch != null && b.thirdPlaceMatch != m ==> v.thirdPlace.value == b.thirdPlaceMatch.Value())
  }

  // Writing to one match object changes that match of the value and nothing else.
  lemma OnlyOneChanged(b: TournamentBracket, v: Bracket, ref: Ref, m: BracketMatch)
    requires b.Separate() && b.Holds(ref, m) && AllButOne(b, v, m)
    ensures Valid(v, ref) && b.Value() == Put(v, ref, m.Value())
  {
    if ref.Main? {
      assert b.Value().matches == v.matches[ref.index := m.Value()];
    } else {
      assert b.Value().matches == v.matches;
    }
  }

  class BracketEngine {
    var bracket: TournamentBracket?

    ghost function Footprint(): set<object>
      reads this
    {
      if bracket == null then {} else bracket.Objects()
    }

    function Value(): Option<Bracket>
      reads this, Footprint()
    {
      if bracket == null then None else Some(bracket.Value())
    }

    // The objects are this engine's own, whatever bracket they stand for.
    ghost predicate Linked()
      reads this, Footprint()
    {
      this !in Footprint() && (bracket != null ==> bracket.Separate())
    }

    ghost predicate Ready()
      reads this, Footprint()
    {
      Linked() && EngineOk(Value())
    }

    constructor ()
      ensures Ready() && Value() == None
      ensures fresh(Footprint())
    {
      bracket := null;
    }

    // ---- looking matches up ----

    static method FindMatch(b: TournamentBracket, id: string) returns (m: BracketMatch?)
      ensures m == null <==> Find(b.Value(), id).None?
      ensures m != null ==> b.Holds(Find(b.Value(), id).value, m)
    {
      if b.thirdPlaceMatch != null && b.thirdPlaceMatch.id == id {
        return b.thirdPlaceMatch;
      }
      ghost var v := b.Value();
      var i := 0;
      while i < |b.matches|
        invariant i <= |b.matches|
        invariant FindFrom(v, id, 0) == FindFrom(v, id, i)
      {
        assert v.matches[i] == b.matches[i].Value();
        if b.matches[i].id == id {
          return b.matches[i];
        }
        i := i + 1;
      }
      m := null;
    }

    // The match one round on, at half the position; null for the final.
    static method Downstream(b: TournamentBracket, m: BracketMatch, ghost i: nat) returns (next: BracketMatch?)
      requires WellFormed(b.Value()) && b.Holds(Main(i), m)
      ensures TreeSize(|b.matches|)
      ensures next == if IsFinal(|b.matches|, i) then null else b.matches[Next(|b.matches|, i)]
    {
      ghost var v := b.Value();
      WellFormedTree(v);
      var nextRound, nextPos := m.round + 1, m.position / 2;
      for k := 0 to |b.matches|
        invariant forall j | 0 <= j < k :: !(v.matches[j].round == nextRound && v.matches[j].position == nextPos)
      {
        assert v.matches[k] == b.matches[k].Value() && v.matches[i] == m.Value();
        NextPlace(v, i, k);
        if b.matches[k].round == nextRound && b.matches[k].position == nextPos {
          return b.matches[k];
        }
      }
      if i < |b.matches| - 1 {
        NextPlace(v, i, Next(|b.matches|, i));
      }
      assert v.matches[i] == m.Value();
      next := null;
    }

    // ---- internals ----

    // Write a slot of one match of the bracket.
    static method Feed(b: TournamentBracket, m: BracketMatch, s: Player, v: Option<Name>, ghost ref: Ref)
      requires b.Separate() && b.Holds(ref, m)
      modifies m
      ensures Valid(old(b.Value()), ref)
      ensures b.Value() == Put(old(b.Value()), ref, old(m.Value()).Fed(s, v))
    {
      ghost var before := b.Value();
      m.FeedSlot(s, v);
      OnlyOneChanged(b, before, ref, m);
    }

    static method RecomputeBracketStatus(b: TournamentBracket)
      requires WellFormed(b.Value())
      modifies b`status
      ensures b.Value() == WithStatus(old(b.Value())) && StatusFits(b.Value())
    {
      StatusOfFits(b.Value());
      ScanStatus(b);
    }

    // The final first, then any match.
    static method ScanStatus(b: TournamentBracket)
      requires WellFormed(b.Value())
      modifies b`status
      ensures b.Value() == WithStatus(old(b.Value()))
    {
      ghost var v := b.Value();
      WellFormedTree(v);
      var any := false;
      for k := 0 to |b.matches|
        invariant any <==> exists i | 0 <= i < k :: v.matches[i].Decided()
      {
        assert v.matches[k] == b.matches[k].Value();
        if b.matches[k].status == Completed { any := true; }
      }
      var final := b.matches[|b.matches| - 1];
      assert v.matches[|b.matches| - 1] == final.Value();
      if final.status == Completed {
        b.status := Finished;
      } else if any || (b.thirdPlaceMatch != null && b.thirdPlaceMatch.status == Completed) {
        b.status := Active;
      } else {
        b.status := Setup;
      }
    }

    static method AdvanceWinner(b: TournamentBracket, m: BracketMatch, ghost ref: Ref)
      requires WellFormed(b.Value()) && b.Separate() && b.Holds(ref, m) && m.winner.Some?
      modifies b.Objects()
      ensures TreeSize(|b.matches|)
      ensures b.Value() ==
        if ref.ThirdPlace? then old(b.Value())
        else old(b.Value()).(matches := Advanced(old(b.Value()).matches, ref.index))
    {
      WellFormedTree(b.Value());
      if m == b.thirdPlaceMatch { return; }
      ghost var i := ref.index;
      assert b.Value().matches[i] == m.Value();
      StageOf(b.Value(), i);
      var next := Downstream(b, m, i);
      if next == null { return; }
      ghost var j := Next(|b.matches|, i);
      assert b.Value().matches[j] == next.Value();
      var name := if m.winner.value == A then m.playerA else m.playerB;
      Feed(b, next, Side(m.position), name, Main(j));
    }

    static method ClearThirdPlaceSlot(b: TournamentBracket, m: BracketMatch, loser: Option<Player>, ghost i: nat)
      requires WellFormed(b.Value()) && b.Separate() && b.Holds(Main(i), m)
      modifies b.Objects()
      ensures TreeSize(|b.matches|)
      ensures b.Value() == ClearThirdPlace(old(b.Value()), i, loser)
    {
      ghost var v := b.Value();
      assert v.matches[i] == m.Value();
      StageOf(v, i);
      var tp := b.thirdPlaceMatch;
      if tp == null || loser == None { return; }
      if m.round + 1 != Log2(b.numSlots) { return; }
      var name := if loser.value == A then m.playerA else m.playerB;
      if name == None { return; }
      var tpSlot := Side(m.position);
      var current := if tpSlot == A then tp.playerA else tp.playerB;
      if current != name { return; }
      Feed(b, tp, tpSlot, None, ThirdPlace);
    }

    // Take a match's own winner back.
    static method Revert(b: TournamentBracket, m: BracketMatch, ghost ref: Ref)
      requires b.Separate() && b.Holds(ref, m)
      modifies m
      ensures Valid(old(b.Value()), ref)
      ensures b.Value() == Put(old(b.Value()), ref, old(m.Value()).(winner := None).Recomputed())
    {
      ghost var v := b.Value();
      m.winner := None;
      m.ComputeStatus();
      OnlyOneChanged(b, v, ref, m);
    }

    // Empty a slot, decided match or not.
    static method EmptySlot(b: TournamentBracket, m: BracketMatch, s: Player, ghost ref: Ref)
      requires b.Separate() && b.Holds(ref, m)
      modifies m
      ensures Valid(old(b.Value()), ref)
      ensures b.Value() == Put(old(b.Value()), ref, old(m.Value()).WithSlot(s, None).Recomputed())
    {
      ghost var v := b.Value();
      m.WriteSlot(s, None);
      m.ComputeStatus();
      OnlyOneChanged(b, v, ref, m);
    }

    // Everything the undo of a match other than the final does to the match itself, to the slot
    // it fed and to the third place.
    static method TakeBack(b: TournamentBracket, m: BracketMatch, next: BracketMatch, ghost i: nat)
      requires WellFormed(b.Value()) && b.Separate() && b.Holds(Main(i), m)
      requires TreeSize(|b.matches|) && i < |b.matches| - 1 && next == b.matches[Next(|b.matches|, i)]
      modifies b.Objects()
      ensures b.Value() == TakenBack(old(b.Value()), i)
    {
      ghost var v, j := b.Value(), Next(|b.matches|, i);
      assert v.matches[j] == next.Value() && v.matches[i] == m.Value();
      StageOf(v, i);
      // The loser is noted before the winner is cleared.
      var loserSlot := if m.winner.Some? then Some(m.winner.value.Other()) else None;
      Revert(b, m, Main(i));
      EmptySlot(b, next, Side(m.position), Main(j));
      SamePlacesWellFormed(v, b.Value());
      ClearThirdPlaceSlot(b, m, loserSlot, i);
    }

    static method CascadeUndo(b: TournamentBracket, m: BracketMatch, ghost ref: Ref)
      requires WellFormed(b.Value()) && b.Separate() && b.Holds(ref, m)
      modifies b.Objects()
      ensures TreeSize(|b.matches|)
      ensures b.Value() ==
        match ref
        case Main(i) => BracketSpec.CascadeUndo(old(b.Value()), i)
        case ThirdPlace => Put(old(b.Value()), ref, old(m.Value()).(winner := None).Recomputed())
      decreases if ref.Main? then |b.matches| - ref.index else 0
    {
      ghost var v := b.Value();
      WellFormedTree(v);
      assert Get(v, ref) == m.Value();
      if m == b.thirdPlaceMatch {
        Revert(b, m, ref);
        return;
      }
      var next := Downstream(b, m, ref.index);
      if next == null {
        Revert(b, m, ref);
        return;
      }
      ghost var j := Next(|b.matches|, ref.index);
      assert v.matches[j] == next.Value();
      var wasCompleted := next.status == Completed;
      TakeBack(b, m, next, ref.index);
      if wasCompleted {
        SamePlacesWellFormed(v, b.Value());
        CascadeUndo(b, next, Main(j));
      }
    }

    // The bracket after an operation on one of its matches, and the error reported if it failed.
    static ghost predicate Did(r: Result<Bracket, BracketError>, v: Bracket, v': Bracket, error: Option<BracketError>) {
      match r
      case Ok(b) => error == None && v' == b
      case Err(x) => error == Some(x) && v' == v
    }

    static method Declare(b: TournamentBracket, m: BracketMatch, winner: Player, ghost ref: Ref)
      returns (error: Option<BracketError>)
      requires WellFormed(b.Value()) && b.Separate() && b.Holds(ref, m)
      modifies b.Objects()
      ensures TreeSize(|b.matches|)
      ensures Did(DeclareWinner(old(b.Value()), ref, winner), old(b.Value()), b.Value(), error)
    {
      ghost var v := b.Value();
      WellFormedTree(v);
      assert Get(v, ref) == m.Value();
      if m.status != MatchStatus.Ready { return Some(MatchNotReady); }
      if (if winner == A then m.playerA else m.playerB) == None { return Some(InvalidWinner); }
      Decide(b, m, winner, ref);
      SamePlacesWellFormed(v, b.Value());
      RecomputeBracketStatus(b);
      error := None;
    }

    // Write the result and move the winner on.
    static method Decide(b: TournamentBracket, m: BracketMatch, winner: Player, ghost ref: Ref)
      requires WellFormed(b.Value()) && b.Separate() && b.Holds(ref, m)
      modifies b.Objects()
      ensures TreeSize(|b.matches|) && Valid(old(b.Value()), ref)
      ensures var v := old(b.Value());
              b.Value() == match ref
                           case Main(i) => v.(matches := Declared(v.matches, i, winner))
                           case ThirdPlace =>
                             Put(v, ref, Get(v, ref).(winner := Some(winner), status := Completed))
    {
      ghost var v := b.Value();
      WellFormedTree(v);
      assert Get(v, ref) == m.Value();
      m.winner := Some(winner);
      m.status := Completed;
      OnlyOneChanged(b, v, ref, m);
      SamePlacesWellFormed(v, b.Value());
      AdvanceWinner(b, m, ref);
    }

    static method FeedThirdPlace(b: TournamentBracket, m: BracketMatch, loser: Player, ghost ref: Ref)
      returns (error: Option<BracketError>)
      requires WellFormed(b.Value()) && b.Separate() && b.Holds(ref, m)
      modifies b.Objects()
      ensures Did(FeedLoser(old(b.Value()), ref, loser), old(b.Value()), b.Value(), error)
    {
      assert Get(b.Value(), ref) == m.Value();
      var tp := b.thirdPlaceMatch;
      if tp == null { return Some(NoThirdPlace); }
      if m.round + 1 != Log2(b.numSlots) { return Some(NotSemifinal); }
      if m.status != Completed { return Some(MatchNotReady); }
      if m.winner == Some(loser) { return Some(InvalidWinner); }
      error := None;
      var name := if loser == A then m.playerA else m.playerB;
      if name == None { return; }
      var tpSlot := Side(m.position);
      if (if tpSlot == A then tp.playerA else tp.playerB) != None || tp.status == Completed { return; }
      Feed(b, tp, tpSlot, name, ThirdPlace);
    }

    // ---- operations on one match ----

    method AssignPlayer(id: string, slot: Player, name: string) returns (error: Option<BracketError>)
      requires Ready()
      modifies Footprint()
      ensures Ready() && bracket == old(bracket)
      ensures Outcome(Value(), error) == Step(old(Value()), OnMatch(id, MatchOp.AssignPlayer(slot, name)))
    {
      StepOk(Value(), OnMatch(id, MatchOp.AssignPlayer(slot, name)));
      if bracket == null { return Some(NoBracket); }
      var m := FindMatch(bracket, id);
      if m == null { return Some(MatchNotFound); }
      if |name| > MAX_PLAYER_NAME_LEN { return Some(NameTooLong); }
      ghost var ref := Find(bracket.Value(), id).value;
      Feed(bracket, m, slot, if name == "" then None else Some(name), ref);
      error := None;
    }

    method SetWinner(id: string, winner: Player) returns (error: Option<BracketError>)
      requires Ready()
      modifies Footprint()
      ensures Ready() && bracket == old(bracket)
      ensures Outcome(Value(), error) == Step(old(Value()), OnMatch(id, MatchOp.SetWinner(winner)))
    {
      StepOk(Value(), OnMatch(id, MatchOp.SetWinner(winner)));
      if bracket == null { return Some(NoBracket); }
      var m := FindMatch(bracket, id);
      if m == null { return Some(MatchNotFound); }
      error := Declare(bracket, m, winner, Find(bracket.Value(), id).value);
    }

    method SetThirdPlaceLoser(id: string, loser: Player) returns (error: Option<BracketError>)
      requires Ready()
      modifies Footprint()
      ensures Ready() && bracket == old(bracket)
      ensures Outcome(Value(), error) == Step(old(Value()), OnMatch(id, MatchOp.SetThirdPlaceLoser(loser)))
    {
      StepOk(Value(), OnMatch(id, MatchOp.SetThirdPlaceLoser(loser)));
      if bracket == null { return Some(NoBracket); }
      var m := FindMatch(bracket, id);
      if m == null { return Some(MatchNotFound); }
      error := FeedThirdPlace(bracket, m, loser, Find(bracket.Value(), id).value);
    }

    method UndoMatch(id: string) returns (error: Option<BracketError>)
      requires Ready()
      modifies Footprint()
      ensures Ready() && bracket == old(bracket)
      ensures Outcome(Value(), error) == Step(old(Value()), OnMatch(id, MatchOp.UndoMatch))
    {
      StepOk(Value(), OnMatch(id, MatchOp.UndoMatch));
      if bracket == null { return Some(NoBracket); }
      var m := FindMatch(bracket, id);
      if m == null { return Some(MatchNotFound); }
      UndoOne(bracket, m, Find(bracket.Value(), id).value);
      error := None;
    }

    // Take the match's result back, and everything that came of it.
    static method UndoOne(b: TournamentBracket, m: BracketMatch, ghost ref: Ref)
      requires WellFormed(b.Value()) && b.Separate() && b.Holds(ref, m)
      modifies b.Objects()
      ensures TreeSize(|b.matches|) && Valid(old(b.Value()), ref)
      ensures b.Value() == Undo(old(b.Value()), ref)
    {
      ghost var v := b.Value();
      WellFormedTree(v);
      CascadeUndo(b, m, ref);
      SamePlacesWellFormed(v, b.Value());
      RecomputeBracketStatus(b);
    }

    method AssignCourt(id: string, courtId: Option<string>) returns (error: Option<BracketError>)
      requires Ready()
      modifies Footprint()
      ensures Ready() && bracket == old(bracket)
      ensures Outcome(Value(), error) == Step(old(Value()), OnMatch(id, MatchOp.SetCourt(courtId)))
    {
      StepOk(Value(), OnMatch(id, MatchOp.SetCourt(courtId)));
      if bracket == null { return Some(NoBracket); }
      var m := FindMatch(bracket, id);
      if m == null { return Some(MatchNotFound); }
      Bind(bracket, m, courtId, Find(bracket.Value(), id).value);
      error := None;
    }

    static method Bind(b: TournamentBracket, m: BracketMatch, courtId: Option<string>, ghost ref: Ref)
      requires b.Separate() && b.Holds(ref, m)
      modifies m
      ensures Valid(old(b.Value()), ref) && b.Value() == BindCourt(old(b.Value()), ref, courtId)
    {
      ghost var v := b.Value();
      assert Get(v, ref) == m.Value();
      m.courtId := courtId;
      OnlyOneChanged(b, v, ref, m);
    }

    // ---- operations on the whole bracket ----

    static ghost predicate Distinct(ms: seq<BracketMatch>) {
      forall i, j | 0 <= i < j < |ms| :: ms[i] != ms[j]
    }

    static lemma ValuesConcat(ms: seq<BracketMatch>, ms': seq<BracketMatch>)
      ensures Values(ms + ms') == Values(ms) + Values(ms')
    {
    }

    static method NewRound(r: nat, count: nat) returns (ms: seq<BracketMatch>)
      ensures Values(ms) == RoundMatches(r, count)
      ensures forall i | 0 <= i < |ms| :: fresh(ms[i])
      ensures Distinct(ms)
    {
      ms := [];
      for pos := 0 to count
        invariant Values(ms) == RoundMatches(r, pos)
        invariant forall i | 0 <= i < |ms| :: fresh(ms[i])
        invariant Distinct(ms)
      {
        var m := new BracketMatch(MatchIds.MatchId(r, pos), r, pos);
        assert Values(ms) == RoundMatches(r, pos);
        ValuesConcat(ms, [m]);
        ms := ms + [m];
        assert RoundMatches(r, pos + 1) == RoundMatches(r, pos) + [m.Value()];
      }
    }

    static method AppendRound(ms: seq<BracketMatch>, r: nat, count: nat) returns (all: seq<BracketMatch>)
      requires Distinct(ms)
      ensures Values(all) == Values(ms) + RoundMatches(r, count)
      ensures |all| >= |ms| && all[..|ms|] == ms
      ensures forall i | |ms| <= i < |all| :: fresh(all[i])
      ensures Distinct(all)
    {
      var round := NewRound(r, count);
      ValuesConcat(ms, round);
      all := ms + round;
    }

    // What is still to be built after one more round.
    static lemma RoundAdded(rounds: nat, r: nat, ms: seq<Match>)
      requires 1 <= r <= rounds
      requires ms + AllRounds(rounds, r) == AllRounds(rounds, 1)
      ensures (ms + RoundMatches(r, Pow2(rounds - r))) + AllRounds(rounds, r + 1) == AllRounds(rounds, 1)
      ensures Pow2(rounds - r) / 2 == if r < rounds then Pow2(rounds - r - 1) else 0
    {
      assert (ms + RoundMatches(r, Pow2(rounds - r))) + AllRounds(rounds, r + 1)
          == ms + (RoundMatches(r, Pow2(rounds - r)) + AllRounds(rounds, r + 1));
    }

    // Build the rounds one after the other, each half as long as the one before.
    static method NewRounds(rounds: nat) returns (ms: seq<BracketMatch>)
      requires rounds >= 1
      ensures Values(ms) == AllRounds(rounds, 1)
      ensures forall i | 0 <= i < |ms| :: fresh(ms[i])
      ensures Distinct(ms)
    {
      ms := [];
      var matchesThisRound := Pow2(rounds) / 2;
      for r := 1 to rounds + 1
        invariant matchesThisRound == if r <= rounds then Pow2(rounds - r) else 0
        invariant Values(ms) + AllRounds(rounds, r) == AllRounds(rounds, 1)
        invariant forall i | 0 <= i < |ms| :: fresh(ms[i])
        invariant Distinct(ms)
      {
        RoundAdded(rounds, r, Values(ms));
        var all := AppendRound(ms, r, matchesThisRound);
        assert forall i | 0 <= i < |ms| :: all[i] == all[..|ms|][i];
        ms := all;
        matchesThisRound := matchesThisRound / 2;
      }
      assert Values(ms) + [] == Values(ms);
    }

    static method NewBracket(name: string, numSlots: nat, includeThirdPlace: bool, now: int)
      returns (b: TournamentBracket)
      requires numSlots in {4, 8, 16, 32}
      ensures fresh(b.Objects()) && b.Separate()
      ensures Ok(b.Value()) == BracketSpec.Create(name, numSlots, includeThirdPlace, now)
    {
      SizesArePowers(numSlots);
      var totalRounds := Log2(numSlots);
      var matches := NewRounds(totalRounds);
      var tp: BracketMatch? := null;
      if includeThirdPlace {
        tp := new BracketMatch(MatchIds.THIRD_PLACE_ID, totalRounds + 1, 0);
      }
      assert Values(matches) == AllRounds(totalRounds, 1);
      b := new TournamentBracket(name, numSlots, includeThirdPlace, matches, tp, Setup, now);
      assert b.Value().matches == AllRounds(totalRounds, 1);
    }

    method Create(name: string, numSlots: int, includeThirdPlace: bool, now: int) returns (error: Option<BracketError>)
      requires Ready()
      modifies this
      ensures Ready()
      ensures error == None ==> fresh(Footprint())
      ensures error != None ==> bracket == old(bracket)
      ensures Outcome(Value(), error) == Step(old(Value()), Op.Create(name, numSlots, includeThirdPlace, now))
    {
      StepOk(Value(), Op.Create(name, numSlots, includeThirdPlace, now));
      if numSlots !in {4, 8, 16, 32} { return Some(InvalidSize); }
      bracket := NewBracket(name, numSlots, includeThirdPlace, now);
      error := None;
    }

    // Unbind the matches one after the other, noting each court once, in the order met.
    static method ReleaseMatches(ms: seq<BracketMatch>) returns (released: seq<string>)
      requires Distinct(ms)
      modifies ms
      ensures forall i | 0 <= i < |ms| :: ms[i].Value() == Unbound(old(ms[i].Value()))
      ensures released == AssignedIn(old(Values(ms)))
    {
      released := [];
      ghost var before := Values(ms);
      for k := 0 to |ms|
        invariant forall i | 0 <= i < |ms| :: ms[i].Value() == if i < k then Unbound(before[i]) else before[i]
        invariant released == AssignedIn(before[..k])
      {
        assert before[..k + 1][..k] == before[..k] && before[..k + 1][k] == ms[k].Value();
        released := Unbind(ms[k], released);
      }
      assert before[..|ms|] == before;
    }

    method ReleaseAll() returns (released: seq<string>)
      requires Ready()
      modifies Footprint()
      ensures Ready() && bracket == old(bracket)
      ensures Outcome(Value(), None) == Step(old(Value()), ReleaseCourts)
      ensures released == if old(Value()).Some? then Assigned(old(Value()).value) else []
    {
      StepOk(Value(), ReleaseCourts);
      var b := bracket;
      if b == null { return []; }
      ghost var v := b.Value();
      assert forall i | 0 <= i < |b.matches| :: b.matches[i].Value() == v.matches[i];
      released := ReleaseMatches(b.matches);
      if b.thirdPlaceMatch != null {
        assert (v.matches + [v.thirdPlace.value])[..|v.matches|] == v.matches;
        released := Unbind(b.thirdPlaceMatch, released);
      } else {
        assert v.matches + [] == v.matches;
      }
      assert b.Value().matches == BracketSpec.ReleaseAll(v).matches;
    }

    // Give up the match's court, if any, and note it unless it has been noted.
    static method Unbind(m: BracketMatch, noted: seq<string>) returns (released: seq<string>)
      modifies m
      ensures m.Value() == Unbound(old(m.Value()))
      ensures var v := old(m.Value());
              released == if v.HasCourt() && v.courtId.value !in noted then noted + [v.courtId.value] else noted
    {
      released := noted;
      if m.courtId.Some? && m.courtId.value != "" {
        if m.courtId.value !in released {
          released := released + [m.courtId.value];
        }
        m.courtId := None;
      }
    }

    method Reset()
      requires Ready()
      modifies this
      ensures Ready() && bracket == null
      ensures Outcome(Value(), None) == Step(old(Value()), Op.Reset)
    {
      bracket := null;
    }

    static method CopyMatches(matches: seq<Match>) returns (ms: seq<BracketMatch>)
      ensures Values(ms) == matches
      ensures forall i | 0 <= i < |ms| :: fresh(ms[i])
      ensures forall i, j | 0 <= i < j < |ms| :: ms[i] != ms[j]
    {
      ms := [];
      for k := 0 to |matches|
        invariant Values(ms) == matches[..k]
        invariant forall i | 0 <= i < |ms| :: fresh(ms[i])
        invariant forall i, j | 0 <= i < j < |ms| :: ms[i] != ms[j]
      {
        ghost var soFar := Values(ms);
        var m := new BracketMatch.Copy(matches[k]);
        ms := ms + [m];
        assert Values(ms) == soFar + [m.Value()];
      }
    }

    // A deep copy of any snapshot: later changes to the engine's matches do not reach it.
    method Restore(snapshot: Bracket)
      modifies this
      ensures Linked() && Value() == Some(snapshot)
      ensures fresh(Footprint())
    {
      var ms := CopyMatches(snapshot.matches);
      var tp: BracketMatch? := null;
      if snapshot.thirdPlace.Some? {
        tp := new BracketMatch.Copy(snapshot.thirdPlace.value);
      }
      bracket := new TournamentBracket(snapshot.name, snapshot.numSlots, snapshot.includeThirdPlace, ms, tp,
                                       snapshot.status, snapshot.createdAt);
      assert bracket.Value().matches == snapshot.matches;
    }
  }
}
