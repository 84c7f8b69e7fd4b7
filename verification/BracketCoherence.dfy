// What every run keeps, with no discipline asked of callers: statuses agree with winners and
// slots, the bracket status agrees with its definition, and declared winners stay declared until
// an undo reaches them. Also the exact condition under which an undo restores the bracket.

module BracketCoherence {
  import opened Types
  import opened BracketTree
  import opened BracketSpec
  import opened BracketUndo
  import opened BracketThirdPlace
  import opened BracketOps

  // Decided exactly when there is a winner; otherwise pending exactly when both slots are empty.
  predicate CoherentMatch(m: Match) {
    && (m.status == Completed <==> m.winner.Some?)
    && (m.status == Pending <==> m.winner.None? && m.playerA.None? && m.playerB.None?)
  }

  ghost predicate CoherentTree(ms: seq<Match>) {
    forall i | 0 <= i < |ms| :: CoherentMatch(ms[i])
  }

  ghost predicate Coherent(b: Bracket) {
    && CoherentTree(b.matches)
    && (b.thirdPlace.Some? ==> CoherentMatch(b.thirdPlace.value))
    && b.status == StatusOf(b)
  }

  ghost predicate EngineCoherent(e: Option<Bracket>) { e.Some? ==> Coherent(e.value) }

  // The bracket status depends only on which matches are decided.
  lemma StatusFrame(b: Bracket, b': Bracket)
    requires |b'.matches| == |b.matches| && b'.thirdPlace.Some? == b.thirdPlace.Some?
    requires forall i | 0 <= i < |b.matches| :: b'.matches[i].Decided() == b.matches[i].Decided()
    requires b.thirdPlace.Some? ==> b'.thirdPlace.value.Decided() == b.thirdPlace.value.Decided()
    ensures StatusOf(b') == StatusOf(b)
  {
    if AnyDecided(b) && !(b.thirdPlace.Some? && b.thirdPlace.value.Decided()) {
      var i :| 0 <= i < |b.matches| && b.matches[i].Decided();
      assert b'.matches[i].Decided();
    }
    if AnyDecided(b') && !(b'.thirdPlace.Some? && b'.thirdPlace.value.Decided()) {
      var i :| 0 <= i < |b'.matches| && b'.matches[i].Decided();
      assert b.matches[i].Decided();
    }
  }

  // Inside the cascade the target alone may be incoherent (its slot just emptied, its status
  // recomputed, its winner still there); the cascade repairs it.
  lemma WipeCoherent(ms: seq<Match>, i: nat)
    requires TreeSize(|ms|) && i < |ms|
    requires forall k | 0 <= k < |ms| && k != i :: CoherentMatch(ms[k])
    ensures CoherentTree(Wipe(ms, Chain(ms, i)))
  {
    forall k | 0 <= k < |ms|
      ensures CoherentMatch(WipedMatch(ms, Chain(ms, i), k))
    {
      DecidedAfterWipe(ms, i, k);
    }
  }

  lemma ClearKeepsThirdPlace(b: Bracket, i: nat)
    requires TreeSize(|b.matches|) && i < |b.matches| && b.thirdPlace.Some?
    ensures var tp, tp' := b.thirdPlace.value, CascadeUndo(b, i).thirdPlace.value;
            && (CoherentMatch(tp) ==> CoherentMatch(tp'))
            && tp'.winner == tp.winner && tp'.courtId == tp.courtId
            && tp'.Decided() == tp.Decided()
    decreases |b.matches| - i
  {
  }

  lemma UndoCoherent(b: Bracket, ref: Ref)
    requires TreeSize(|b.matches|) && Valid(b, ref) && Coherent(b)
    ensures Coherent(Undo(b, ref))
  {
    match ref
    case ThirdPlace =>
    case Main(i) =>
      var b' := CascadeUndo(b, i);
      CascadeIsWipe(b, i);
      WipeCoherent(b.matches, i);
      if b.thirdPlace.Some? {
        ClearKeepsThirdPlace(b, i);
      }
      StatusFrame(b', WithStatus(b'));
  }

  lemma DeclareCoherent(b: Bracket, ref: Ref, w: Player)
    requires TreeSize(|b.matches|) && Valid(b, ref) && Coherent(b)
    ensures DeclareWinner(b, ref, w).Ok? ==> Coherent(DeclareWinner(b, ref, w).value)
  {
    if DeclareWinner(b, ref, w).Ok? {
      var b' := DeclareWinner(b, ref, w).value;
      if ref.Main? {
        DeclaredCoherent(b.matches, ref.index, w);
        StatusFrame(b.(matches := Declared(b.matches, ref.index, w)), b');
      } else {
        StatusFrame(b.(thirdPlace := b'.thirdPlace), b');
      }
    }
  }

  lemma DeclaredCoherent(ms: seq<Match>, i: nat, w: Player)
    requires TreeSize(|ms|) && i < |ms| && CoherentTree(ms)
    ensures CoherentTree(Declared(ms, i, w))
  {
  }

  // Slots, the loser feed and courts touch no decision.
  lemma OtherOpsCoherent(b: Bracket, ref: Ref, op: MatchOp)
    requires TreeSize(|b.matches|) && Valid(b, ref) && Coherent(b)
    requires !op.UndoMatch? && !op.SetWinner?
    ensures ApplyTo(b, ref, op).Ok? ==> Coherent(ApplyTo(b, ref, op).value)
  {
    if ApplyTo(b, ref, op).Ok? {
      StatusFrame(b, ApplyTo(b, ref, op).value);
    }
  }

  lemma ApplyCoherent(b: Bracket, ref: Ref, op: MatchOp)
    requires TreeSize(|b.matches|) && Valid(b, ref) && Coherent(b)
    ensures ApplyTo(b, ref, op).Ok? ==> Coherent(ApplyTo(b, ref, op).value)
  {
    match op
    case UndoMatch => UndoCoherent(b, ref);
    case SetWinner(w) => DeclareCoherent(b, ref, w);
    case _ => OtherOpsCoherent(b, ref, op);
  }

  lemma EmptyCoherent(b: Bracket)
    requires forall ref | Valid(b, ref) ::
               Get(b, ref) == EmptyMatch(Get(b, ref).id, Get(b, ref).round, Get(b, ref).position)
    requires b.status == Setup
    ensures Coherent(b)
  {
    forall i | 0 <= i < |b.matches|
      ensures CoherentMatch(b.matches[i]) && !b.matches[i].Decided()
    {
      assert b.matches[i] == Get(b, Main(i));
    }
    assert b.thirdPlace.Some? ==> b.thirdPlace.value == Get(b, ThirdPlace);
  }

  lemma ReleaseCoherent(b: Bracket)
    requires Coherent(b)
    ensures Coherent(ReleaseAll(b))
  {
    StatusFrame(b, ReleaseAll(b));
  }

  lemma StepCoherent(e: Option<Bracket>, op: Op)
    requires EngineOk(e) && EngineCoherent(e)
    ensures EngineCoherent(Step(e, op).bracket)
  {
    match op
    case Create(name, numSlots, tp, now) =>
      if numSlots in {4, 8, 16, 32} {
        CreateWellFormed(name, numSlots, tp, now);
        EmptyCoherent(Step(e, op).bracket.value);
      }
    case OnMatch(id, mop) =>
      if e.Some? {
        WellFormedTree(e.value);
        if Find(e.value, id).Some? {
          ApplyCoherent(e.value, Find(e.value, id).value, mop);
        }
      }
    case ReleaseCourts =>
      if e.Some? {
        ReleaseCoherent(e.value);
      }
    case Reset =>
  }

  // Status coherence over every run.
  lemma {:induction false} RunCoherent(e: Option<Bracket>, ops: seq<Op>)
    requires EngineOk(e) && EngineCoherent(e)
    ensures EngineCoherent(Run(e, ops))
    decreases ops
  {
    if ops != [] {
      StepOk(e, ops[0]);
      StepCoherent(e, ops[0]);
      RunCoherent(Step(e, ops[0]).bracket, ops[1..]);
    }
  }

  // The bracket status, over every run: finished exactly if the final is decided, whatever the third
  // place; set up exactly if no match is decided; active otherwise.
  lemma StatusOverRun(e: Option<Bracket>, ops: seq<Op>)
    requires EngineOk(e) && EngineCoherent(e)
    ensures Run(e, ops).Some? ==> StatusFits(Run(e, ops).value)
  {
    RunCoherent(e, ops);
    if Run(e, ops).Some? {
      StatusOfFits(Run(e, ops).value);
    }
  }

  // ---- winners stay ----

  // The operations that take the winner of a match away: replacing or clearing the bracket, or
  // undoing a match whose unbroken chain of decided matches reaches it.
  predicate Revokes(e: Option<Bracket>, op: Op, ref: Ref)
    requires EngineOk(e) && e.Some?
  {
    match op
    case Create(_, numSlots, _, _) => numSlots in {4, 8, 16, 32}
    case Reset => true
    case OnMatch(id, UndoMatch) =>
      var target := Find(e.value, id);
      WellFormedTree(e.value);
      target.Some? && Reaches(e.value, target.value, ref)
    case _ => false
  }

  predicate Reaches(b: Bracket, target: Ref, ref: Ref)
    requires TreeSize(|b.matches|) && Valid(b, target)
  {
    || target == ref
    || (target.Main? && ref.Main? && ref.index in Chain(b.matches, target.index))
  }

  predicate HasWinner(e: Option<Bracket>, ref: Ref, w: Player) {
    e.Some? && Valid(e.value, ref) && Get(e.value, ref).winner == Some(w)
  }

  lemma UndoRevokes(b: Bracket, target: Ref, ref: Ref, w: Player)
    requires TreeSize(|b.matches|) && Valid(b, target) && HasWinner(Some(b), ref, w)
    ensures HasWinner(Some(Undo(b, target)), ref, w) <==> !Reaches(b, target, ref)
  {
    if target.Main? {
      CascadeIsWipe(b, target.index);
      if b.thirdPlace.Some? {
        ClearKeepsThirdPlace(b, target.index);
      }
    }
  }

  lemma OthersKeepWinners(b: Bracket, target: Ref, op: MatchOp, ref: Ref, w: Player)
    requires TreeSize(|b.matches|) && Valid(b, target) && Coherent(b) && HasWinner(Some(b), ref, w)
    requires !op.UndoMatch?
    ensures ApplyTo(b, target, op).Ok? ==> HasWinner(Some(ApplyTo(b, target, op).value), ref, w)
  {
  }

  // A declared winner survives a step if and only if the step does not revoke it.
  lemma WinnerStable(e: Option<Bracket>, op: Op, ref: Ref, w: Player)
    requires EngineOk(e) && EngineCoherent(e) && HasWinner(e, ref, w)
    ensures HasWinner(Step(e, op).bracket, ref, w) <==> !Revokes(e, op, ref)
  {
    var b := e.value;
    WellFormedTree(b);
    match op
    case Create(name, numSlots, tp, now) =>
      if numSlots in {4, 8, 16, 32} {
        CreateWellFormed(name, numSlots, tp, now);
      }
    case OnMatch(id, mop) =>
      var target := Find(b, id);
      if target.Some? {
        if mop.UndoMatch? {
          UndoRevokes(b, target.value, ref, w);
        } else {
          OthersKeepWinners(b, target.value, mop, ref, w);
        }
      }
    case ReleaseCourts =>
    case Reset =>
  }

  // Over a run: a winner is still there at the end if no step of the run revoked it.
  ghost predicate NeverRevoked(e: Option<Bracket>, ops: seq<Op>, ref: Ref)
    requires EngineOk(e)
    decreases ops
  {
    ops != [] ==>
      && (e.Some? ==> !Revokes(e, ops[0], ref))
      && (StepOk(e, ops[0]); NeverRevoked(Step(e, ops[0]).bracket, ops[1..], ref))
  }

  lemma {:induction false} WinnerStableOverRun(e: Option<Bracket>, ops: seq<Op>, ref: Ref, w: Player)
    requires EngineOk(e) && EngineCoherent(e) && HasWinner(e, ref, w)
    requires NeverRevoked(e, ops, ref)
    ensures HasWinner(Run(e, ops), ref, w)
    decreases ops
  {
    if ops != [] {
      StepOk(e, ops[0]);
      StepCoherent(e, ops[0]);
      WinnerStable(e, ops[0], ref, w);
      WinnerStableOverRun(Step(e, ops[0]).bracket, ops[1..], ref, w);
    }
  }

  // ---- declare, feed the loser, undo ----

  // What a decided match does in the handler: declare, then for a semifinal feed the loser.
  function DeclareAndFeed(b: Bracket, i: nat, w: Player): Result<Bracket, BracketError>
    requires WellFormed(b) && i < |b.matches|
  {
    WellFormedTree(b);
    var r := DeclareWinner(b, Main(i), w);
    if r.Err? || b.thirdPlace.None? || b.matches[i].round + 1 != b.Rounds() then r
    else FeedLoser(r.value, Main(i), w.Other())
  }

  // Nothing downstream depends on match i yet.
  predicate Unused(ms: seq<Match>, i: nat)
    requires TreeSize(|ms|) && i < |ms|
  {
    !IsFinal(|ms|, i) ==>
      && !ms[Next(|ms|, i)].Decided()
      && ms[Next(|ms|, i)].Slot(Side(i)).None?
  }

  // The third-place slot of a semifinal does not happen to hold the loser's name already.
  predicate LoserNotThere(b: Bracket, i: nat, w: Player)
    requires TreeSize(|b.matches|) && i < |b.matches|
  {
    var loser := b.matches[i].Slot(w.Other());
    b.thirdPlace.Some? && IsSemifinal(|b.matches|, i) && loser.Some? ==>
      b.thirdPlace.value.Slot(Side(i)) != loser
  }

  // Declaring a winner never fails half way: once the declaration is accepted, so is the feed.
  lemma FeedNeverFails(b: Bracket, i: nat, w: Player)
    requires WellFormed(b) && i < |b.matches|
    ensures TreeSize(|b.matches|)
    ensures DeclareAndFeed(b, i, w).Ok? <==> DeclareWinner(b, Main(i), w).Ok?
    ensures DeclareAndFeed(b, i, w).Ok? ==>
              var r := DeclareAndFeed(b, i, w).value;
              r.matches == Declared(b.matches, i, w) && OnlyPlay(b, r)
  {
    StageOf(b, i);
  }

  // Nothing but matches, third place and status differs.
  predicate OnlyPlay(b: Bracket, b': Bracket) {
    b' == b.(matches := b'.matches, thirdPlace := b'.thirdPlace, status := b'.status)
  }

  lemma MainRoundTrip(ms: seq<Match>, i: nat, w: Player)
    requires TreeSize(|ms|) && i < |ms| && CoherentTree(ms)
    requires ms[i].status == Ready
    ensures UndoMain(Declared(ms, i, w), i) == ms <==> Unused(ms, i)
  {
    var n, ms' := |ms|, Declared(ms, i, w);
    var c := Chain(ms', i);
    if Unused(ms, i) {
      assert c == {i};
      forall k | 0 <= k < n
        ensures WipedMatch(ms', c, k) == ms[k]
      {
        if HasFeeders(n, k) && (FedBy(n, c, k, A) || FedBy(n, c, k, B)) {
          assert k == Next(n, i);
        }
      }
    } else {
      var j := Next(n, i);
      FeederOfNext(n, i);
      assert i in c && FedBy(n, c, j, Side(i));
      assert Wipe(ms', c)[j] == WipedMatch(ms', c, j);
      if ms[j].Decided() {
        assert j in c;
      }
    }
  }

  lemma ThirdPlaceRoundTrip(b: Bracket, i: nat, w: Player)
    requires WellFormed(b) && Coherent(b) && i < |b.matches| && TreeSize(|b.matches|)
    requires DeclareAndFeed(b, i, w).Ok? && Unused(b.matches, i)
    requires |DeclareAndFeed(b, i, w).value.matches| == |b.matches|
    ensures Undo(DeclareAndFeed(b, i, w).value, Main(i)).thirdPlace == b.thirdPlace <==> LoserNotThere(b, i, w)
  {
    StageOf(b, i);
    FeedNeverFails(b, i, w);
    var b2 := DeclareAndFeed(b, i, w).value;
    if b.thirdPlace.Some? && IsSemifinal(|b.matches|, i) {
      ThirdPlaceAfterUndo(b2, i, i);
      NoEarlierFeeder(b2.matches, i);
    } else {
      assert Chain(b2.matches, i) == {i};
      if b.thirdPlace.Some? {
        ThirdPlaceUntouched(b2, i);
      }
    }
  }

  lemma RestoredParts(b: Bracket, b': Bracket)
    requires Coherent(b) && OnlyPlay(b, b')
    requires b'.matches == b.matches && b'.thirdPlace == b.thirdPlace && b'.status == StatusOf(b')
    ensures b' == b
  {
    StatusFrame(b, b');
  }

  lemma UndoIsPlay(b: Bracket, i: nat)
    requires TreeSize(|b.matches|) && i < |b.matches|
    ensures OnlyPlay(b, Undo(b, Main(i))) && Undo(b, Main(i)).status == StatusOf(Undo(b, Main(i)))
    ensures Undo(b, Main(i)).matches == UndoMain(b.matches, i)
  {
    CascadeIsWipe(b, i);
    var b' := CascadeUndo(b, i);
    StatusFrame(b', WithStatus(b'));
  }

  // Declaring a winner, feeding the loser of a semifinal and undoing restores the whole bracket,
  // statuses included, exactly when the winner was not needed downstream and the loser's name was
  // not in the third-place match beforehand.
  lemma RoundTrip(b: Bracket, i: nat, w: Player)
    requires WellFormed(b) && Coherent(b) && i < |b.matches|
    requires b.matches[i].status == Ready && b.matches[i].Slot(w).Some?
    ensures TreeSize(|b.matches|) && DeclareAndFeed(b, i, w).Ok?
    ensures |DeclareAndFeed(b, i, w).value.matches| == |b.matches|
    ensures Undo(DeclareAndFeed(b, i, w).value, Main(i)) == b
       <==> Unused(b.matches, i) && LoserNotThere(b, i, w)
  {
    StageOf(b, i);
    FeedNeverFails(b, i, w);
    var b2 := DeclareAndFeed(b, i, w).value;
    var b3 := Undo(b2, Main(i));
    UndoIsPlay(b2, i);
    MainRoundTrip(b.matches, i, w);
    if Unused(b.matches, i) {
      ThirdPlaceRoundTrip(b, i, w);
      if LoserNotThere(b, i, w) {
        RestoredParts(b, b3);
      }
    }
  }
}
