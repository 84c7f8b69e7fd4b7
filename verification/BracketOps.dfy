// The engine as a step machine: every public operation, addressed by match id as callers do,
// with its error cases. A failed operation leaves the bracket as it was.

module BracketOps {
  import opened Types
  import opened BracketTree
  import opened BracketSpec

  // What can be done to one match.
  datatype MatchOp =
    | AssignPlayer(slot: Player, player: string)
    | SetWinner(winner: Player)
    | SetThirdPlaceLoser(loser: Player)
    | UndoMatch
    | SetCourt(courtId: Option<string>)

  datatype Op =
    | Create(name: string, numSlots: int, includeThirdPlace: bool, now: int)
    | OnMatch(id: string, op: MatchOp)
    | ReleaseCourts
    | Reset

  datatype Outcome = Outcome(bracket: Option<Bracket>, error: Option<BracketError>)

  ghost predicate EngineOk(e: Option<Bracket>) { e.Some? ==> WellFormed(e.value) }

  function Settle(e: Option<Bracket>, r: Result<Bracket, BracketError>): Outcome {
    match r
    case Ok(b) => Outcome(Some(b), None)
    case Err(x) => Outcome(e, Some(x))
  }

  function ApplyTo(b: Bracket, ref: Ref, op: MatchOp): Result<Bracket, BracketError>
    requires TreeSize(|b.matches|) && Valid(b, ref)
  {
    match op
    case AssignPlayer(s, name) => AssignSlot(b, ref, s, name)
    case SetWinner(w) => DeclareWinner(b, ref, w)
    case SetThirdPlaceLoser(loser) => FeedLoser(b, ref, loser)
    case UndoMatch => Ok(Undo(b, ref))
    case SetCourt(c) => Ok(BindCourt(b, ref, c))
  }

  // The match is looked up by id before anything else is checked.
  function ApplyById(b: Bracket, id: string, op: MatchOp): Result<Bracket, BracketError>
    requires TreeSize(|b.matches|)
  {
    match Find(b, id)
    case None => Err(MatchNotFound)
    case Some(ref) => ApplyTo(b, ref, op)
  }

  function Step(e: Option<Bracket>, op: Op): Outcome
    requires EngineOk(e)
  {
    match op
    case Create(name, numSlots, tp, now) => Settle(e, BracketSpec.Create(name, numSlots, tp, now))
    case OnMatch(id, mop) =>
      if e.None? then Outcome(e, Some(NoBracket))
      else
        WellFormedTree(e.value);
        Settle(e, ApplyById(e.value, id, mop))
    case ReleaseCourts => Outcome(if e.Some? then Some(ReleaseAll(e.value)) else None, None)
    case Reset => Outcome(None, None)
  }

  // ---- every step keeps the shape ----

  lemma {:induction false} AllRoundsPlaced(rounds: nat, from: nat)
    requires 1 <= from <= rounds + 1
    ensures var ms := AllRounds(rounds, from);
            && |ms| == Pow2(rounds + 1 - from) - 1
            && forall i | 0 <= i < |ms| ::
                 && 0 <= Offset(rounds, from)
                 && At(rounds, Offset(rounds, from) + i, ms[i].round, ms[i].position)
                 && ms[i] == EmptyMatch(MatchIds.MatchId(ms[i].round, ms[i].position), ms[i].round, ms[i].position)
    decreases rounds + 1 - from
  {
    OffsetMonotone(rounds, 1, from);
    if from <= rounds {
      AllRoundsPlaced(rounds, from + 1);
      OffsetStep(rounds, from);
      var c := Pow2(rounds - from);
      assert Pow2(rounds + 1 - from) == 2 * c;
      var first, rest := RoundMatches(from, c), AllRounds(rounds, from + 1);
      var ms := AllRounds(rounds, from);
      forall i | 0 <= i < |ms|
        ensures At(rounds, Offset(rounds, from) + i, ms[i].round, ms[i].position)
        ensures ms[i] == EmptyMatch(MatchIds.MatchId(ms[i].round, ms[i].position), ms[i].round, ms[i].position)
      {
        if i < c {
          assert ms[i] == first[i];
        } else {
          assert ms[i] == rest[i - c];
        }
      }
    } else {
      assert Pow2(0) == 1;
    }
  }

  // A created bracket has the right shape, for any number of rounds from two on.
  lemma EmptyBracketWellFormed(b: Bracket, rounds: nat)
    requires rounds >= 2 && b.numSlots == Pow2(rounds)
    requires b.matches == AllRounds(rounds, 1)
    requires b.thirdPlace == if b.includeThirdPlace
                             then Some(EmptyMatch(MatchIds.THIRD_PLACE_ID, rounds + 1, 0)) else None
    ensures WellFormed(b) && b.Rounds() == rounds
    ensures forall ref | Valid(b, ref) ::
              Get(b, ref) == EmptyMatch(Get(b, ref).id, Get(b, ref).round, Get(b, ref).position)
  {
    Log2OfPow2(rounds);
    AllRoundsPlaced(rounds, 1);
    assert Offset(rounds, 1) == 0;
  }

  lemma SizesArePowers(numSlots: int)
    requires numSlots in {4, 8, 16, 32}
    ensures 2 <= Log2(numSlots) <= 5 && Pow2(Log2(numSlots)) == numSlots
  {
    assert Pow2(1) == 2 && Pow2(2) == 4 && Pow2(3) == 8;
    assert Pow2(4) == 16 && Pow2(5) == 32;
    Log2OfPow2(2);
    Log2OfPow2(3);
    Log2OfPow2(4);
    Log2OfPow2(5);
  }

  lemma CreateWellFormed(name: string, numSlots: int, includeThirdPlace: bool, now: int)
    requires numSlots in {4, 8, 16, 32}
    ensures var b := BracketSpec.Create(name, numSlots, includeThirdPlace, now).value;
            && WellFormed(b)
            && forall ref | Valid(b, ref) ::
                 Get(b, ref) == EmptyMatch(Get(b, ref).id, Get(b, ref).round, Get(b, ref).position)
  {
    SizesArePowers(numSlots);
    EmptyBracketWellFormed(BracketSpec.Create(name, numSlots, includeThirdPlace, now).value, Log2(numSlots));
  }

  lemma ApplyKeepsPlaces(b: Bracket, ref: Ref, op: MatchOp)
    requires TreeSize(|b.matches|) && Valid(b, ref)
    ensures ApplyTo(b, ref, op).Ok? ==> SamePlaces(b, ApplyTo(b, ref, op).value)
  {
  }

  lemma StepOk(e: Option<Bracket>, op: Op)
    requires EngineOk(e)
    ensures EngineOk(Step(e, op).bracket)
  {
    match op
    case Create(name, numSlots, tp, now) =>
      if numSlots in {4, 8, 16, 32} {
        CreateWellFormed(name, numSlots, tp, now);
      }
    case OnMatch(id, mop) =>
      if e.Some? {
        var b := e.value;
        WellFormedTree(b);
        if Find(b, id).Some? && ApplyById(b, id, mop).Ok? {
          ApplyKeepsPlaces(b, Find(b, id).value, mop);
          SamePlacesWellFormed(b, ApplyById(b, id, mop).value);
        }
      }
    case ReleaseCourts =>
      if e.Some? {
        SamePlacesWellFormed(e.value, ReleaseAll(e.value));
      }
    case Reset =>
  }

  // Any number of operations, failed ones included.
  function Run(e: Option<Bracket>, ops: seq<Op>): (r: Option<Bracket>)
    requires EngineOk(e)
    ensures EngineOk(r)
    decreases ops
  {
    if ops == [] then e
    else
      StepOk(e, ops[0]);
      Run(Step(e, ops[0]).bracket, ops[1..])
  }

  lemma {:induction false} RunSplit(e: Option<Bracket>, ops: seq<Op>, more: seq<Op>)
    requires EngineOk(e)
    ensures Run(e, ops + more) == Run(Run(e, ops), more)
    decreases ops
  {
    if ops == [] {
      assert ops + more == more;
    } else {
      assert (ops + more)[1..] == ops[1..] + more;
      StepOk(e, ops[0]);
      RunSplit(Step(e, ops[0]).bracket, ops[1..], more);
    }
  }

  lemma RunOne(e: Option<Bracket>, op: Op)
    requires EngineOk(e)
    ensures Run(e, [op]) == Step(e, op).bracket
  {
    StepOk(e, op);
    assert [op][1..] == [];
    assert Run(e, [op]) == Run(Step(e, op).bracket, []);
  }
}
