// Court bindings: no court is bound to two matches, the reverse index is exact, and releasing
// gives up exactly the courts that were bound.

module HubCourts {
  import opened Types
  import opened BracketTree
  import opened BracketSpec
  import opened BracketUndo
  import opened BracketOps
  import opened CourtSpec
  import opened HubSpec

  predicate Holds(b: Bracket, ref: Ref, courtId: string) { Valid(b, ref) && HeldBy(Get(b, ref), courtId) }

  // No court is bound to two matches.
  ghost predicate Exclusive(b: Bracket) {
    forall r, r', c | Holds(b, r, c) && Holds(b, r', c) :: r == r'
  }

  ghost predicate EngineExclusive(e: Option<Bracket>) { e.Some? ==> Exclusive(e.value) }

  // The index the handler rebuilds on every lookup finds a match for a court if and only if that
  // match holds it.
  lemma IndexIsExact(b: Bracket, courtId: string, ref: Ref)
    requires Exclusive(b)
    ensures BoundTo(b, courtId) == Some(ref) <==> Holds(b, ref, courtId)
  {
    if BoundTo(b, courtId).Some? {
      assert Holds(b, BoundTo(b, courtId).value, courtId);
    }
  }

  // Same bindings, match by match.
  ghost predicate SameCourts(b: Bracket, b': Bracket) {
    forall r | Valid(b', r) :: Valid(b, r) && Get(b', r).courtId == Get(b, r).courtId
  }

  lemma SameCourtsExclusive(b: Bracket, b': Bracket)
    requires Exclusive(b) && SameCourts(b, b')
    ensures Exclusive(b')
  {
    forall r, r', c | Holds(b', r, c) && Holds(b', r', c)
      ensures r == r'
    {
      assert Holds(b, r, c) && Holds(b, r', c);
    }
  }

  lemma UndoSameCourts(b: Bracket, ref: Ref)
    requires TreeSize(|b.matches|) && Valid(b, ref)
    ensures SameCourts(b, Undo(b, ref))
  {
    if ref.Main? {
      CascadeIsWipe(b, ref.index);
      if b.thirdPlace.Some? { CascadeKeepsThirdCourt(b, ref.index); }
    }
  }

  lemma {:induction false} CascadeKeepsThirdCourt(b: Bracket, i: nat)
    requires TreeSize(|b.matches|) && i < |b.matches| && b.thirdPlace.Some?
    ensures CascadeUndo(b, i).thirdPlace.value.courtId == b.thirdPlace.value.courtId
    decreases |b.matches| - i
  {
    if !IsFinal(|b.matches|, i) && b.matches[Next(|b.matches|, i)].Decided() {
      CascadeKeepsThirdCourt(TakenBack(b, i), Next(|b.matches|, i));
    }
  }

  // Only the court operations change bindings.
  lemma ApplySameCourts(b: Bracket, ref: Ref, op: MatchOp)
    requires TreeSize(|b.matches|) && Valid(b, ref) && !op.SetCourt?
    ensures ApplyTo(b, ref, op).Ok? ==> SameCourts(b, ApplyTo(b, ref, op).value)
  {
    match op
    case UndoMatch => UndoSameCourts(b, ref);
    case _ =>
  }

  // Who holds what after a binding: the match bound holds its new court, the others what they held.
  lemma HoldersAfter(b: Bracket, ref: Ref, courtId: Option<string>, r: Ref, c: string)
    requires Valid(b, ref) && Holds(BindCourt(b, ref, courtId), r, c)
    ensures if r == ref then courtId == Some(c) && c != "" else Holds(b, r, c)
  {
  }

  // Binding a court keeps exclusivity exactly when no other match holds it.
  lemma BindExclusiveIff(b: Bracket, ref: Ref, courtId: string)
    requires WellFormed(b) && Valid(b, ref) && Exclusive(b) && courtId != ""
    ensures Exclusive(BindCourt(b, ref, Some(courtId))) <==> !TakenElsewhere(Some(b), courtId, Get(b, ref).id)
  {
    var b', at := BindCourt(b, ref, Some(courtId)), BoundTo(b, courtId);
    FindOwnId(b, ref);
    if at.Some? && at.value != ref {
      FindOwnId(b, at.value);
      assert Holds(b', ref, courtId) && Holds(b', at.value, courtId);
    } else {
      forall r, r', c | Holds(b', r, c) && Holds(b', r', c)
        ensures r == r'
      {
        HoldersAfter(b, ref, Some(courtId), r, c);
        HoldersAfter(b, ref, Some(courtId), r', c);
        IndexIsExact(b, c, r);
        IndexIsExact(b, c, r');
      }
    }
  }

  lemma UnbindExclusive(b: Bracket, ref: Ref, courtId: Option<string>)
    requires Valid(b, ref) && Exclusive(b) && (courtId.None? || courtId.value == "")
    ensures Exclusive(BindCourt(b, ref, courtId))
  {
    var b' := BindCourt(b, ref, courtId);
    forall r, r', c | Holds(b', r, c) && Holds(b', r', c)
      ensures r == r'
    {
      HoldersAfter(b, ref, courtId, r, c);
      HoldersAfter(b, ref, courtId, r', c);
    }
  }

  lemma ReleaseExclusive(b: Bracket)
    ensures Exclusive(ReleaseAll(b)) && forall r | Valid(ReleaseAll(b), r) :: !Get(ReleaseAll(b), r).HasCourt()
  {
    var b' := ReleaseAll(b);
    forall r | Valid(b', r)
      ensures !Get(b', r).HasCourt()
    {
      if r.Main? {
        assert b'.matches[r.index] == Unbound(b.matches[r.index]);
      }
    }
  }

  // Releasing gives up exactly the courts that were bound and changes nothing but the bindings.
  lemma ReleaseExactly(b: Bracket, courtId: string)
    ensures courtId in BoundCourts(b) <==> exists r :: Holds(b, r, courtId)
    ensures BoundCourts(ReleaseAll(b)) == {}
    ensures forall r | Valid(b, r) :: Valid(ReleaseAll(b), r)
              && Get(ReleaseAll(b), r) == Get(b, r).(courtId := Get(ReleaseAll(b), r).courtId)
    ensures ReleaseAll(b).status == b.status
  {
    ReleaseExclusive(b);
    var b' := ReleaseAll(b);
    forall c
      ensures c !in BoundCourts(b')
    {
      if c in BoundCourts(b') {
        var r := HolderOf(b', c);
      }
    }
    if courtId in BoundCourts(b) {
      var r := HolderOf(b, courtId);
    }
    if r :| Holds(b, r, courtId) {
      match r
      case Main(i) => assert b.matches[i].HasCourt();
      case ThirdPlace =>
    }
  }

  lemma HolderOf(b: Bracket, courtId: string) returns (r: Ref)
    requires courtId in BoundCourts(b)
    ensures Holds(b, r, courtId)
  {
    if b.thirdPlace.Some? && HeldBy(b.thirdPlace.value, courtId) {
      r := ThirdPlace;
    } else {
      var i :| 0 <= i < |b.matches| && b.matches[i].HasCourt() && b.matches[i].courtId.value == courtId;
      r := Main(i);
    }
  }

  // A single engine step keeps exclusivity, a binding only if its court is free.
  lemma StepExclusive(e: Option<Bracket>, op: Op)
    requires EngineOk(e) && EngineExclusive(e)
    requires op.OnMatch? && op.op.SetCourt? && op.op.courtId.Some? ==> !TakenElsewhere(e, op.op.courtId.value, op.id)
    ensures EngineExclusive(Step(e, op).bracket)
  {
    match op
    case Create(name, numSlots, tp, now) =>
      if numSlots in {4, 8, 16, 32} {
        CreateWellFormed(name, numSlots, tp, now);
      }
    case OnMatch(id, mop) =>
      if e.Some? {
        var b := e.value;
        WellFormedTree(b);
        if Find(b, id).Some? {
          var ref := Find(b, id).value;
          if !mop.SetCourt? {
            ApplySameCourts(b, ref, mop);
            if ApplyTo(b, ref, mop).Ok? { SameCourtsExclusive(b, ApplyTo(b, ref, mop).value); }
          } else if mop.courtId.Some? && mop.courtId.value != "" {
            BindExclusiveIff(b, ref, mop.courtId.value);
          } else {
            UnbindExclusive(b, ref, mop.courtId);
          }
        }
      }
    case ReleaseCourts => if e.Some? { ReleaseExclusive(e.value); }
    case Reset =>
  }

  // ---- nothing to release ----

  lemma HeldIsBound(b: Bracket, ref: Ref)
    requires Valid(b, ref) && Get(b, ref).HasCourt()
    ensures Get(b, ref).courtId.value in BoundCourts(b)
  {
  }

  lemma NothingBound(b: Bracket)
    requires BoundCourts(b) == {}
    ensures ReleaseAll(b) == b
  {
    forall ref | Valid(b, ref)
      ensures !Get(b, ref).HasCourt()
    {
      if Get(b, ref).HasCourt() {
        HeldIsBound(b, ref);
      }
    }
    forall i | 0 <= i < |b.matches|
      ensures Unbound(b.matches[i]) == b.matches[i]
    {
      assert b.matches[i] == Get(b, Main(i));
    }
    assert b.thirdPlace.Some? ==> b.thirdPlace.value == Get(b, ThirdPlace);
    assert ReleaseAll(b).matches == b.matches;
  }

  lemma NothingToRelease(courts: seq<Court>, ids: set<string>)
    requires forall i | 0 <= i < |courts| :: courts[i].id !in ids
    ensures CourtsReleased(courts, ids) == courts
  {
  }
}
