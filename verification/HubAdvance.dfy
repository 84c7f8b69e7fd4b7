// A court result advances the bracket completely or not at all, and the same court reporting again
// does nothing.

module HubAdvance {
  import opened Types
  import opened BracketTree
  import opened BracketSpec
  import opened BracketOps
  import opened BracketCoherence
  import opened HubSpec
  import opened HubCourts

  predicate Advances(e: Option<Bracket>, courtId: string, name: string) {
    && e.Some? && BoundTo(e.value, courtId).Some?
    && var m := Get(e.value, BoundTo(e.value, courtId).value);
       m.status == Ready && WinnerSlot(m, name).Some?
  }

  // The bracket after a result: winner declared and moved on, loser of a semifinal fed.
  function ResultApplied(b: Bracket, ref: Ref, w: Player): Result<Bracket, BracketError>
    requires WellFormed(b) && Valid(b, ref)
  {
    WellFormedTree(b);
    match ref
    case Main(i) => DeclareAndFeed(b, i, w)
    case ThirdPlace => DeclareWinner(b, ref, w)
  }

  // An accepted declaration decides the match and keeps places and bindings.
  lemma DeclarationAccepted(b: Bracket, ref: Ref, w: Player)
    requires TreeSize(|b.matches|) && Valid(b, ref)
    requires Get(b, ref).status == Ready && Get(b, ref).Slot(w).Some?
    ensures DeclareWinner(b, ref, w).Ok?
    ensures var b' := DeclareWinner(b, ref, w).value;
            SamePlaces(b, b') && SameCourts(b, b') && Get(b', ref).Decided()
  {
    ApplyKeepsPlaces(b, ref, SetWinner(w));
    ApplySameCourts(b, ref, SetWinner(w));
  }

  lemma SameCourtsTransitive(b: Bracket, b1: Bracket, b2: Bracket)
    requires SamePlaces(b, b1) && SameCourts(b, b1) && SamePlaces(b1, b2) && SameCourts(b1, b2)
    ensures SamePlaces(b, b2) && SameCourts(b, b2)
  {
  }

  lemma FeedKeepsMatch(b: Bracket, i: nat, loser: Player)
    requires i < |b.matches| && TreeSize(|b.matches|)
    ensures FeedLoser(b, Main(i), loser).Ok? ==>
              var b' := FeedLoser(b, Main(i), loser).value;
              SamePlaces(b, b') && SameCourts(b, b') && b'.matches == b.matches
  {
    ApplyKeepsPlaces(b, Main(i), SetThirdPlaceLoser(loser));
    ApplySameCourts(b, Main(i), SetThirdPlaceLoser(loser));
  }

  lemma ResultAccepted(b: Bracket, ref: Ref, w: Player)
    requires WellFormed(b) && Valid(b, ref)
    requires Get(b, ref).status == Ready && Get(b, ref).Slot(w).Some?
    ensures ResultApplied(b, ref, w).Ok?
    ensures var b' := ResultApplied(b, ref, w).value;
            SamePlaces(b, b') && SameCourts(b, b') && Get(b', ref).Decided()
  {
    WellFormedTree(b);
    DeclarationAccepted(b, ref, w);
    if ref.Main? {
      FeedNeverFails(b, ref.index, w);
      var b1 := DeclareWinner(b, ref, w).value;
      if b.thirdPlace.Some? && b.matches[ref.index].round + 1 == b.Rounds() {
        FeedKeepsMatch(b1, ref.index, w.Other());
        SameCourtsTransitive(b, b1, FeedLoser(b1, ref, w.Other()).value);
      }
    }
  }

  // The handler's own sequence of engine calls computes that, and no call is refused: the branch
  // that would catch a refusal after the winner was set is never taken.
  lemma ResultByCalls(b: Bracket, ref: Ref, w: Player)
    requires WellFormed(b) && Valid(b, ref)
    requires Get(b, ref).status == Ready && Get(b, ref).Slot(w).Some?
    ensures ResultApplied(b, ref, w).Ok?
    ensures ResultCalls(Some(b), Get(b, ref), w) == (Some(ResultApplied(b, ref, w).value), true)
    ensures Step(Some(b), OnMatch(Get(b, ref).id, SetWinner(w))).error.None?
  {
    WellFormedTree(b);
    DeclarationAccepted(b, ref, w);
    DeclareCall(b, ref, w);
    ResultAccepted(b, ref, w);
    if ref.Main? {
      FeedNeverFails(b, ref.index, w);
      FeedCallIs(DeclareWinner(b, ref, w).value, ref, w.Other());
    }
  }

  lemma DeclareCall(b: Bracket, ref: Ref, w: Player)
    requires WellFormed(b) && Valid(b, ref)
    requires DeclareWinner(b, ref, w).Ok?
    ensures Step(Some(b), OnMatch(Get(b, ref).id, SetWinner(w))) == Outcome(Some(DeclareWinner(b, ref, w).value), None)
    ensures WellFormed(DeclareWinner(b, ref, w).value)
  {
    FindOwnId(b, ref);
    StepOk(Some(b), OnMatch(Get(b, ref).id, SetWinner(w)));
  }

  lemma FeedCallIs(b: Bracket, ref: Ref, loser: Player)
    requires WellFormed(b) && Valid(b, ref)
    ensures var m, r := Get(b, ref), FeedLoser(b, ref, loser);
            FeedCall(Some(b), m, loser) ==
              if b.thirdPlace.None? || m.round + 1 != b.Rounds() then (Some(b), true)
              else if r.Ok? then (Some(r.value), true) else (Some(b), false)
  {
    FindOwnId(b, ref);
  }

  // All or nothing: without an applicable result nothing changes; with one the bracket is that of
  // the declaration and the feed, saved at once, its courts freed if the final was decided.
  lemma AutoAdvance(h: Hub, courtId: string, name: string)
    requires EngineOk(h.bracket)
    ensures CourtMatchWon(h, courtId, name).1 <==> Advances(h.bracket, courtId, name)
    ensures !CourtMatchWon(h, courtId, name).1 ==> CourtMatchWon(h, courtId, name).0 == h
    ensures Advances(h.bracket, courtId, name) ==>
              var b := h.bracket.value;
              var ref := BoundTo(b, courtId).value;
              var r := ResultApplied(b, ref, WinnerSlot(Get(b, ref), name).value);
              r.Ok? && CourtMatchWon(h, courtId, name).0 == AfterDecision(h, Some(r.value))
  {
    if Advances(h.bracket, courtId, name) {
      var b := h.bracket.value;
      var ref := BoundTo(b, courtId).value;
      ResultAccepted(b, ref, WinnerSlot(Get(b, ref), name).value);
      ResultByCalls(b, ref, WinnerSlot(Get(b, ref), name).value);
    }
  }

  lemma {:induction false} SameHolder(ms: seq<Match>, ms': seq<Match>, courtId: string)
    requires |ms'| == |ms| && forall i | 0 <= i < |ms| :: ms'[i].courtId == ms[i].courtId
    ensures LastHolder(ms', courtId) == LastHolder(ms, courtId)
    decreases ms
  {
    if ms != [] {
      SameHolder(ms[..|ms| - 1], ms'[..|ms| - 1], courtId);
    }
  }

  lemma SameCourtsSameIndex(b: Bracket, b': Bracket, courtId: string)
    requires SamePlaces(b, b') && SameCourts(b, b')
    ensures BoundTo(b', courtId) == BoundTo(b, courtId)
  {
    forall i | 0 <= i < |b.matches|
      ensures b'.matches[i].courtId == b.matches[i].courtId
    {
      assert Valid(b', Main(i));
    }
    assert b.thirdPlace.Some? ==> Valid(b', ThirdPlace);
    SameHolder(b.matches, b'.matches, courtId);
  }

  // A court holding no match, or one already decided, reports in vain.
  lemma NothingToReport(h: Hub, courtId: string, name: string)
    requires EngineOk(h.bracket)
    requires h.bracket.Some? && BoundTo(h.bracket.value, courtId).Some? ==>
               Get(h.bracket.value, BoundTo(h.bracket.value, courtId).value).Decided()
    ensures CourtMatchWon(h, courtId, name) == (h, false)
  {
  }

  function Kept(b: Bracket): Bracket { if b.status == BracketStatus.Finished then ReleaseAll(b) else b }

  lemma QuietAfterDecision(b: Bracket, b': Bracket, courtId: string, ref: Ref)
    requires WellFormed(b) && SamePlaces(b, b') && SameCourts(b, b')
    requires BoundTo(b, courtId) == Some(ref) && Valid(b', ref) && Get(b', ref).Decided()
    ensures WellFormed(Kept(b'))
    ensures BoundTo(Kept(b'), courtId).Some? ==> Get(Kept(b'), BoundTo(Kept(b'), courtId).value).Decided()
  {
    SamePlacesWellFormed(b, b');
    if b'.status == BracketStatus.Finished {
      SamePlacesWellFormed(b', ReleaseAll(b'));
      ReleaseExclusive(b');
    } else {
      SameCourtsSameIndex(b, b', courtId);
    }
  }

  lemma DecisionBracket(h: Hub, b: Bracket)
    ensures AfterDecision(h, Some(b)).bracket == Some(Kept(b))
  {
  }

  // The same court reporting again, with whatever name, does nothing.
  lemma ReplayIsNoOp(h: Hub, courtId: string, name: string, again: string)
    requires EngineOk(h.bracket) && Advances(h.bracket, courtId, name)
    ensures CourtMatchWon(h, courtId, name).1
    ensures var h' := CourtMatchWon(h, courtId, name).0;
            EngineOk(h'.bracket) && CourtMatchWon(h', courtId, again) == (h', false)
  {
    AutoAdvance(h, courtId, name);
    var b := h.bracket.value;
    var ref := BoundTo(b, courtId).value;
    var w := WinnerSlot(Get(b, ref), name).value;
    ResultAccepted(b, ref, w);
    var b' := ResultApplied(b, ref, w).value;
    QuietAfterDecision(b, b', courtId, ref);
    DecisionBracket(h, b');
    NothingToReport(AfterDecision(h, Some(b')), courtId, again);
  }
}
