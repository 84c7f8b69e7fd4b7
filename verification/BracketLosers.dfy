// Whose names the third-place match holds. As long as nobody writes to it by hand, each of its
// slots is empty or holds the loser of its decided semifinal, until an undo strands a loser there.

module BracketLosers {
  import opened Types
  import opened BracketTree
  import opened BracketSpec
  import opened BracketUndo
  import opened BracketThirdPlace
  import opened BracketOps
  import opened BracketCoherence
  import opened BracketProvenance

  // The third-place slot of semifinal s, if taken, has the name of the loser of s.
  predicate LoserOrEmpty(b: Bracket, s: nat)
    requires s < |b.matches| && b.thirdPlace.Some?
  {
    var m, slot := b.matches[s], b.thirdPlace.value.Slot(Side(s));
    slot.Some? ==> m.Decided() && m.winner.Some? && slot == m.Slot(m.winner.value.Other())
  }

  ghost predicate HoldsLosers(b: Bracket)
    requires TreeSize(|b.matches|)
  {
    b.thirdPlace.Some? ==> forall s | 0 <= s < |b.matches| && IsSemifinal(|b.matches|, s) :: LoserOrEmpty(b, s)
  }

  // Undoing match i comes to semifinal s through the match its loser had won, while the loser is in
  // the third-place match.
  predicate Strands(b: Bracket, i: nat, s: nat)
    requires TreeSize(|b.matches|) && i < |b.matches| && s < |b.matches| && b.thirdPlace.Some?
  {
    var m := b.matches[s];
    && IsSemifinal(|b.matches|, s) && s in Chain(b.matches, i)
    && b.thirdPlace.value.Slot(Side(s)).Some?
    && m.winner.Some? && FedBy(|b.matches|, Chain(b.matches, i), s, m.winner.value.Other())
  }

  // ---- undo ----

  lemma UndoReaching(b: Bracket, i: nat, s: nat)
    requires TreeSize(|b.matches|) && i < |b.matches| && b.thirdPlace.Some?
    requires IsSemifinal(|b.matches|, s) && s in Chain(b.matches, i) && LoserOrEmpty(b, s)
    ensures Undo(b, Main(i)).thirdPlace.Some? && |Undo(b, Main(i)).matches| == |b.matches|
    ensures LoserOrEmpty(Undo(b, Main(i)), s) <==> !Strands(b, i, s)
  {
    ThirdPlaceAfterUndo(b, i, s);
    UndoEffect(b, i, s, A);
  }

  // A semifinal the undo does not reach keeps its decision, its names and its third-place slot.
  lemma UndoMissing(b: Bracket, i: nat, s: nat)
    requires TreeSize(|b.matches|) && i < |b.matches| && b.thirdPlace.Some?
    requires IsSemifinal(|b.matches|, s) && s !in Chain(b.matches, i) && LoserOrEmpty(b, s)
    ensures Undo(b, Main(i)).thirdPlace.Some? && |Undo(b, Main(i)).matches| == |b.matches|
    ensures LoserOrEmpty(Undo(b, Main(i)), s)
  {
    var n, ms, c := |b.matches|, b.matches, Chain(b.matches, i);
    UndoEffect(b, i, s, A);
    if FedBy(n, c, s, A) { ChainClosed(ms, i, Feeder(n, s, A)); }
    if FedBy(n, c, s, B) { ChainClosed(ms, i, Feeder(n, s, B)); }
    ThirdPlaceSlotKept(b, i, s);
  }

  lemma ThirdPlaceSlotKept(b: Bracket, i: nat, s: nat)
    requires TreeSize(|b.matches|) && i < |b.matches| && b.thirdPlace.Some?
    requires IsSemifinal(|b.matches|, s) && s !in Chain(b.matches, i)
    ensures Undo(b, Main(i)).thirdPlace.Some?
    ensures Undo(b, Main(i)).thirdPlace.value.Slot(Side(s)) == b.thirdPlace.value.Slot(Side(s))
  {
    if t :| t in Chain(b.matches, i) && IsSemifinal(|b.matches|, t) {
      OtherSemifinal(|b.matches|, s, t);
      OtherSlotKept(b, i, s, t);
    } else {
      ThirdPlaceUntouched(b, i);
    }
  }

  // The two semifinals feed different slots.
  lemma OtherSemifinal(n: nat, s: nat, t: nat)
    requires TreeSize(n) && IsSemifinal(n, s) && IsSemifinal(n, t) && s != t
    ensures Side(s) != Side(t)
  {
  }

  lemma OtherSlotKept(b: Bracket, i: nat, s: nat, t: nat)
    requires TreeSize(|b.matches|) && i < |b.matches| && b.thirdPlace.Some?
    requires IsSemifinal(|b.matches|, t) && t in Chain(b.matches, i) && Side(s) != Side(t)
    ensures Undo(b, Main(i)).thirdPlace.Some?
    ensures Undo(b, Main(i)).thirdPlace.value.Slot(Side(s)) == b.thirdPlace.value.Slot(Side(s))
  {
    ThirdPlaceAfterUndo(b, i, t);
  }

  // An undo keeps the third-place match right if and only if it strands nobody.
  lemma UndoLosersIff(b: Bracket, i: nat)
    requires TreeSize(|b.matches|) && i < |b.matches| && HoldsLosers(b)
    ensures |Undo(b, Main(i)).matches| == |b.matches|
    ensures HoldsLosers(Undo(b, Main(i)))
       <==> b.thirdPlace.None? || forall s | 0 <= s < |b.matches| :: !Strands(b, i, s)
  {
    if b.thirdPlace.Some? {
      var b' := Undo(b, Main(i));
      forall s | 0 <= s < |b.matches| && IsSemifinal(|b.matches|, s)
        ensures b'.thirdPlace.Some? && |b'.matches| == |b.matches|
        ensures LoserOrEmpty(b', s) <==> !Strands(b, i, s)
      {
        if s in Chain(b.matches, i) {
          UndoReaching(b, i, s);
        } else {
          UndoMissing(b, i, s);
        }
      }
    }
  }

  // ---- the other operations ----

  // A late winner never lands in the slot of a loser: that slot is empty while its match is undecided.
  lemma DeclareKeepsLosers(b: Bracket, i: nat, w: Player)
    requires Sound(b.matches) && i < |b.matches| && HoldsLosers(b)
    requires DeclareWinner(b, Main(i), w).Ok?
    ensures HoldsLosers(DeclareWinner(b, Main(i), w).value)
  {
    var n := |b.matches|;
    if b.thirdPlace.Some? && !IsFinal(n, i) {
      var j := Next(n, i);
      FeederOfNext(n, i);
      assert FromFeeder(b.matches, j, Side(i));
      assert IsSemifinal(n, j) ==> LoserOrEmpty(b, j);
    }
    assert b.thirdPlace.Some? && IsSemifinal(n, i) ==> LoserOrEmpty(b, i);
    var b' := DeclareWinner(b, Main(i), w).value;
    forall s | b.thirdPlace.Some? && 0 <= s < n && IsSemifinal(n, s)
      ensures LoserOrEmpty(b', s)
    {
      assert LoserOrEmpty(b, s);
    }
  }

  // The feed is checked against the semifinal's own result, whoever calls it.
  lemma FeedKeepsLosers(b: Bracket, i: nat, loser: Player)
    requires WellFormed(b) && Coherent(b) && i < |b.matches| && TreeSize(|b.matches|) && HoldsLosers(b)
    requires FeedLoser(b, Main(i), loser).Ok?
    ensures |FeedLoser(b, Main(i), loser).value.matches| == |b.matches|
    ensures HoldsLosers(FeedLoser(b, Main(i), loser).value)
  {
    StageOf(b, i);
    var b' := FeedLoser(b, Main(i), loser).value;
    forall s | b.thirdPlace.Some? && 0 <= s < |b.matches| && IsSemifinal(|b.matches|, s)
      ensures LoserOrEmpty(b', s)
    {
      assert LoserOrEmpty(b, s) && CoherentMatch(b.matches[s]);
      if s != i { OtherSemifinal(|b.matches|, s, i); }
    }
  }

  // Feeding the third-place match itself is refused.
  lemma NoFeedFromThirdPlace(b: Bracket, loser: Player)
    requires WellFormed(b) && b.thirdPlace.Some?
    ensures FeedLoser(b, ThirdPlace, loser).Err?
  {
  }

  // Same slots and decisions, in the main tree and the third place.
  lemma SamePlayersSameLosers(b: Bracket, b': Bracket)
    requires TreeSize(|b.matches|) && HoldsLosers(b)
    requires |b'.matches| == |b.matches| && b'.thirdPlace.Some? == b.thirdPlace.Some?
    requires forall k | 0 <= k < |b.matches| ::
               b'.matches[k] == b.matches[k].(courtId := b'.matches[k].courtId)
    requires b.thirdPlace.Some? ==>
               b'.thirdPlace.value.playerA == b.thirdPlace.value.playerA
               && b'.thirdPlace.value.playerB == b.thirdPlace.value.playerB
    ensures HoldsLosers(b')
  {
    forall s | b.thirdPlace.Some? && 0 <= s < |b.matches| && IsSemifinal(|b.matches|, s)
      ensures LoserOrEmpty(b', s)
    {
      assert LoserOrEmpty(b, s);
    }
  }

  lemma AssignKeepsLosers(b: Bracket, i: nat, p: Player, name: string)
    requires TreeSize(|b.matches|) && i < |b.matches| && HoldsLosers(b) && !b.matches[i].Decided()
    requires AssignSlot(b, Main(i), p, name).Ok?
    ensures HoldsLosers(AssignSlot(b, Main(i), p, name).value)
  {
    var b' := AssignSlot(b, Main(i), p, name).value;
    forall s | b.thirdPlace.Some? && 0 <= s < |b.matches| && IsSemifinal(|b.matches|, s)
      ensures LoserOrEmpty(b', s)
    {
      assert LoserOrEmpty(b, s);
    }
  }

  // ---- runs ----

  ghost predicate EngineLosers(e: Option<Bracket>) {
    e.Some? && TreeSize(|e.value.matches|) ==> HoldsLosers(e.value)
  }

  // Names are only assigned as seedings, to undecided matches of the main tree.
  predicate Careful(e: Option<Bracket>, op: Op) {
    && Disciplined(e, op)
    && (op.OnMatch? && op.op.AssignPlayer? && e.Some? && Find(e.value, op.id).Some? ==>
          var ref := Find(e.value, op.id).value;
          ref.Main? && !Get(e.value, ref).Decided())
  }

  // The operation is an undo that strands a loser.
  ghost predicate Stranding(e: Option<Bracket>, op: Op) {
    && op.OnMatch? && op.op.UndoMatch? && e.Some? && TreeSize(|e.value.matches|)
    && Find(e.value, op.id).Some? && Find(e.value, op.id).value.Main? && e.value.thirdPlace.Some?
    && exists s :: 0 <= s < |e.value.matches| && Strands(e.value, Find(e.value, op.id).value.index, s)
  }

  lemma ApplyLosersIff(b: Bracket, ref: Ref, op: MatchOp)
    requires WellFormed(b) && Coherent(b) && Valid(b, ref) && Sound(b.matches) && HoldsLosers(b)
    requires op.AssignPlayer? ==> ref.Main? && !Get(b, ref).Decided()
    requires ApplyTo(b, ref, op).Ok?
    ensures |ApplyTo(b, ref, op).value.matches| == |b.matches|
    ensures HoldsLosers(ApplyTo(b, ref, op).value)
       <==> !(op.UndoMatch? && ref.Main? && b.thirdPlace.Some?
              && exists s :: 0 <= s < |b.matches| && Strands(b, ref.index, s))
  {
    match op
    case AssignPlayer(s, name) => AssignKeepsLosers(b, ref.index, s, name);
    case SetWinner(w) =>
      if ref.Main? {
        DeclareKeepsLosers(b, ref.index, w);
      } else {
        SamePlayersSameLosers(b, DeclareWinner(b, ref, w).value);
      }
    case SetThirdPlaceLoser(loser) =>
      if ref.Main? {
        FeedKeepsLosers(b, ref.index, loser);
      } else {
        NoFeedFromThirdPlace(b, loser);
      }
    case UndoMatch =>
      if ref.Main? {
        UndoLosersIff(b, ref.index);
      } else {
        SamePlayersSameLosers(b, Undo(b, ref));
      }
    case SetCourt(c) => SamePlayersSameLosers(b, BindCourt(b, ref, c));
  }

  lemma OnMatchLosersIff(b: Bracket, id: string, op: MatchOp)
    requires WellFormed(b) && Coherent(b) && Sound(b.matches) && HoldsLosers(b)
    requires Careful(Some(b), OnMatch(id, op))
    ensures EngineLosers(Step(Some(b), OnMatch(id, op)).bracket) <==> !Stranding(Some(b), OnMatch(id, op))
  {
    WellFormedTree(b);
    var at := Find(b, id);
    if at.Some? && ApplyTo(b, at.value, op).Ok? {
      ApplyLosersIff(b, at.value, op);
    }
  }

  lemma CreateLosers(e: Option<Bracket>, op: Op)
    requires EngineOk(e) && EngineLosers(e) && op.Create?
    ensures EngineLosers(Step(e, op).bracket)
  {
    if op.numSlots in {4, 8, 16, 32} {
      CreateWellFormed(op.name, op.numSlots, op.includeThirdPlace, op.now);
      WellFormedTree(Step(e, op).bracket.value);
      EmptyLosers(Step(e, op).bracket.value);
    }
  }

  // A careful step keeps the third-place match right if and only if it strands nobody.
  lemma StepLosersIff(e: Option<Bracket>, op: Op)
    requires EngineOk(e) && EngineCoherent(e) && EngineSound(e) && EngineLosers(e) && Careful(e, op)
    ensures EngineLosers(Step(e, op).bracket) <==> !Stranding(e, op)
  {
    match op
    case Create(_, _, _, _) => CreateLosers(e, op);
    case OnMatch(id, mop) => if e.Some? { OnMatchLosersIff(e.value, id, mop); }
    case ReleaseCourts =>
      if e.Some? {
        WellFormedTree(e.value);
        SamePlayersSameLosers(e.value, ReleaseAll(e.value));
      }
    case Reset =>
  }

  lemma EmptyLosers(b: Bracket)
    requires TreeSize(|b.matches|)
    requires forall ref | Valid(b, ref) ::
               Get(b, ref) == EmptyMatch(Get(b, ref).id, Get(b, ref).round, Get(b, ref).position)
    ensures HoldsLosers(b)
  {
    if b.thirdPlace.Some? {
      assert b.thirdPlace.value == Get(b, ThirdPlace);
    }
  }

  ghost predicate CarefulRun(e: Option<Bracket>, ops: seq<Op>)
    requires EngineOk(e)
    decreases ops
  {
    ops != [] ==>
      && Careful(e, ops[0]) && !Stranding(e, ops[0])
      && (StepOk(e, ops[0]); CarefulRun(Step(e, ops[0]).bracket, ops[1..]))
  }

  // In every run of careful operations without a stranding undo, each slot of the third-place match
  // is empty or holds the loser of its decided semifinal.
  lemma {:induction false} RunHoldsLosers(e: Option<Bracket>, ops: seq<Op>)
    requires EngineOk(e) && EngineCoherent(e) && EngineSound(e) && EngineLosers(e) && CarefulRun(e, ops)
    ensures EngineSound(Run(e, ops)) && EngineLosers(Run(e, ops))
    decreases ops
  {
    if ops != [] {
      StepOk(e, ops[0]);
      StepCoherent(e, ops[0]);
      StepSound(e, ops[0]);
      StepLosersIff(e, ops[0]);
      RunHoldsLosers(Step(e, ops[0]).bracket, ops[1..]);
    }
  }
}
