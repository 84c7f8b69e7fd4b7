// What the handler's requests and the court results do to the server, told from the state before:
// when each is accepted, what it writes and saves, and whose name a court result moves on.

module HubEffects {
  import opened Types
  import opened BracketTree
  import opened BracketSpec
  import opened BracketOps
  import opened BracketCoherence
  import opened BracketEffects
  import opened CourtSpec
  import opened HubSpec
  import opened HubCourts
  import opened HubAdvance

  // ---- saving now or later ----

  predicate SavedNow(h: Hub) { !h.saveTimer && h.disk == Some(h.snapshot) && h.snapshot.bracket == h.bracket }

  // The snapshot is up to date, the file waits for the timer.
  predicate SavedLater(h: Hub, h': Hub) { h'.saveTimer && h'.disk == h.disk && h'.snapshot.bracket == h'.bracket }

  ghost predicate NoCourts(b: Bracket) {
    forall ref | Valid(b, ref) :: Get(b, ref).courtId == None || Get(b, ref).courtId == Some("")
  }

  // Like b but for bindings.
  ghost predicate SameButCourts(b: Bracket, b': Bracket) {
    && SameHeader(b, b') && b'.status == b.status
    && (forall k | 0 <= k < |b.matches| :: b'.matches[k] == b.matches[k].(courtId := b'.matches[k].courtId))
    && (b.thirdPlace.Some? ==> b'.thirdPlace.value == b.thirdPlace.value.(courtId := b'.thirdPlace.value.courtId))
  }

  // A decision is saved at once, and a finished bracket gives all its courts up.
  lemma DecisionMeans(h: Hub, b: Bracket)
    ensures var h' := AfterDecision(h, Some(b));
            && SavedNow(h') && h'.bracket.Some? && SameButCourts(b, h'.bracket.value)
            && if b.status == Finished then NoCourts(h'.bracket.value)
               else h'.bracket.value == b && h'.courts == h.courts
  {
    var h' := AfterDecision(h, Some(b));
    if b.status == Finished {
      ReleaseExclusive(b);
      if BoundCourts(b) == {} {
        NothingBound(b);
      }
    }
  }

  // ---- requests on one match ----

  // An owner's request on a match reaches the engine, and is saved at once if it decided something.
  lemma RequestMeans(h: Hub, owner: bool, id: string, op: MatchOp)
    requires EngineOk(h.bracket)
    ensures var r, out := OnEngine(h, owner, id, op), Step(h.bracket, OnMatch(id, op));
            if !owner then r == (h, Refused(Unauthorized))
            else if id == "" then r == (h, Refused(InvalidParams))
            else if out.error.Some? then r == (h, EngineRefused(out.error.value))
            else
              && r.1 == Done
              && (op.SetWinner? || op.UndoMatch? ==> SavedNow(r.0))
              && (op.AssignPlayer? || op.SetCourt? ==> SavedLater(h, r.0))
              && (!op.SetWinner? ==> r.0.bracket == out.bracket && r.0.courts == h.courts)
  {
    if Step(h.bracket, OnMatch(id, op)).error.None? && op.SetWinner? {
      StepOk(h.bracket, OnMatch(id, op));
      var b := Step(h.bracket, OnMatch(id, op)).bracket.value;
      DecisionMeans(h, b);
    }
  }

  predicate SomeInService(catalog: Catalog) { exists id :: id in catalog && catalog[id].inventoryStatus == InService }

  lemma CreateMeans(h: Hub, owner: bool, name: string, numSlots: int, thirdPlace: bool, now: int)
    requires EngineOk(h.bracket)
    ensures var r := OnCreate(h, owner, name, numSlots, thirdPlace, now);
            if !owner then r == (h, Refused(Unauthorized))
            else if !SomeInService(h.catalog) then r == (h, Refused(CourtInventoryEmpty))
            else if |name| > 50 then r == (h, Refused(InvalidName))
            else if numSlots !in {4, 8, 16, 32} then r == (h, EngineRefused(InvalidSize))
            else r.1 == Done && SavedNow(r.0) && r.0.courts == h.courts
                 && r.0.bracket == Step(None, Op.Create(name, numSlots, thirdPlace, now)).bracket
  {
    if id :| id in h.catalog && Exists(h.catalog, id) {
      assert h.catalog[id].inventoryStatus == InService;
    }
    if id :| id in h.catalog && h.catalog[id].inventoryStatus == InService {
      assert Exists(h.catalog, id);
    }
  }

  // ---- courts ----

  // A court in a club's hands, or with a tournament match running.
  predicate Busy(c: Court) {
    match c.mode
    case ClubMode => c.clubStatus != Available
    case TournamentMode => c.flow.Some? && c.flow.value.TournamentFlow?
  }

  predicate InServiceAt(catalog: Catalog, courtId: string) {
    courtId in catalog && catalog[courtId].inventoryStatus == InService
  }

  // The match of this id may have the court: it exists, and no other match holds the court.
  ghost predicate Bindable(e: Option<Bracket>, ref: Ref, id: string, courtId: string) {
    && e.Some? && Valid(e.value, ref) && Get(e.value, ref).id == id
    && forall r | Valid(e.value, r) && Get(e.value, r).courtId == Some(courtId) && courtId != "" :: r == ref
  }

  ghost predicate BoundThen(h: Hub, h': Hub, ref: Ref, courtId: Option<string>)
    requires h.bracket.Some? && Valid(h.bracket.value, ref)
  {
    && h'.bracket.Some? && SavedLater(h, h') && SameHeader(h.bracket.value, h'.bracket.value)
    && Valid(h'.bracket.value, ref)
    && Get(h'.bracket.value, ref) == Get(h.bracket.value, ref).(courtId := courtId)
    && forall r | Valid(h.bracket.value, r) && r != ref ::
         Valid(h'.bracket.value, r) && Get(h'.bracket.value, r) == Get(h.bracket.value, r)
  }

  lemma TakenMeans(e: Option<Bracket>, ref: Ref, id: string, courtId: string)
    requires e.Some? && WellFormed(e.value) && Exclusive(e.value) && Valid(e.value, ref) && Get(e.value, ref).id == id
    requires courtId != ""
    ensures TakenElsewhere(e, courtId, id) <==> !Bindable(e, ref, id, courtId)
  {
    var b := e.value;
    FindOwnId(b, ref);
    var at := BoundTo(b, courtId);
    if at.Some? {
      FindOwnId(b, at.value);
      assert Holds(b, at.value, courtId);
      forall r | Valid(b, r) && Get(b, r).courtId == Some(courtId)
        ensures r == at.value
      {
        assert Holds(b, r, courtId);
      }
    }
  }

  lemma BindingBinds(h: Hub, ref: Ref, courtId: Option<string>)
    requires EngineOk(h.bracket) && h.bracket.Some? && Valid(h.bracket.value, ref)
    ensures var r := OnEngine(h, true, Get(h.bracket.value, ref).id, SetCourt(courtId));
            Get(h.bracket.value, ref).id != "" ==> r.1 == Done && BoundThen(h, r.0, ref, courtId)
  {
    RequestMeans(h, true, Get(h.bracket.value, ref).id, SetCourt(courtId));
    CourtEffect(h.bracket.value, ref, courtId);
  }

  // An assignment is accepted exactly for a court in service that no other match holds; whether the
  // court is busy is not asked.
  lemma AssignCourtMeans(h: Hub, id: string, courtId: string, ref: Ref)
    requires EngineOk(h.bracket) && EngineExclusive(h.bracket)
    requires h.bracket.Some? && Valid(h.bracket.value, ref) && Get(h.bracket.value, ref).id == id
    requires id != "" && courtId != ""
    ensures var r := OnAssignCourt(h, true, id, Some(courtId));
            if !InServiceAt(h.catalog, courtId) then r == (h, Refused(CourtNotFound))
            else if !Bindable(h.bracket, ref, id, courtId) then r == (h, Refused(CourtAlreadyAssigned))
            else r.1 == Done && BoundThen(h, r.0, ref, Some(courtId)) && r.0.courts == h.courts
    ensures var r := OnAssignCourt(h, true, id, None); r.1 == Done && BoundThen(h, r.0, ref, None)
  {
    TakenMeans(h.bracket, ref, id, courtId);
    BindingBinds(h, ref, Some(courtId));
    BindingBinds(h, ref, None);
    RequestMeans(h, true, id, SetCourt(Some(courtId)));
  }

  ghost predicate BusyAt(courts: seq<Court>, courtId: string) {
    exists k :: 0 <= k < |courts| && courts[k].id == courtId && Busy(courts[k])
  }

  lemma InUseMeans(courts: seq<Court>, courtId: string)
    requires UniqueIds(courts)
    ensures InUse(courts, courtId).Some? <==> BusyAt(courts, courtId)
    ensures InUse(courts, courtId) in {None, Some(CourtReserved), Some(CourtBusy)}
  {
    var at := CourtIndex(courts, courtId);
    if at.Some? {
      assert Busy(courts[at.value]) <==> InUse(courts, courtId).Some?;
      forall k | 0 <= k < |courts| && courts[k].id == courtId
        ensures k == at.value
      {
        assert UniqueIds(courts);
      }
    }
  }

  lemma SelectRefusalMeans(h: Hub, id: string, courtId: string, ref: Ref)
    requires EngineOk(h.bracket) && EngineExclusive(h.bracket) && UniqueIds(h.courts)
    requires h.bracket.Some? && Valid(h.bracket.value, ref) && Get(h.bracket.value, ref).id == id
    requires id != "" && courtId != ""
    ensures var refusal := SelectRefusal(h, id, courtId);
            if !InServiceAt(h.catalog, courtId) then refusal == Some(CourtNotFound)
            else if BusyAt(h.courts, courtId) then refusal == Some(CourtReserved) || refusal == Some(CourtBusy)
            else if !Bindable(h.bracket, ref, id, courtId) then refusal == Some(CourtAlreadyAssigned)
            else refusal == None
  {
    TakenMeans(h.bracket, ref, id, courtId);
    InUseMeans(h.courts, courtId);
  }

  lemma SelectionBinds(h: Hub, id: string, courtId: string, pin: string, ref: Ref)
    requires EngineOk(h.bracket) && h.bracket.Some? && Valid(h.bracket.value, ref)
    requires Get(h.bracket.value, ref).id == id && SelectRefusal(h, id, courtId) == None
    ensures var r := OnSelectTable(h, true, id, courtId, pin);
            && r.1 == Done && BoundThen(h, r.0, ref, Some(courtId))
            && Known(r.0.courts, courtId) && h.courts <= r.0.courts
  {
    CourtEffect(h.bracket.value, ref, Some(courtId));
    SelectedCourts(h.courts, h.catalog, courtId, pin);
  }

  // A selection is accepted exactly for a court in service that is not busy and that no other match
  // holds; then the match has the court, and the court a runtime entry.
  lemma SelectMeans(h: Hub, id: string, courtId: string, pin: string, ref: Ref)
    requires EngineOk(h.bracket) && EngineExclusive(h.bracket) && UniqueIds(h.courts)
    requires h.bracket.Some? && Valid(h.bracket.value, ref) && Get(h.bracket.value, ref).id == id
    requires id != "" && courtId != ""
    ensures var r := OnSelectTable(h, true, id, courtId, pin);
            if !InServiceAt(h.catalog, courtId) then r == (h, Refused(CourtNotFound))
            else if BusyAt(h.courts, courtId) then r == (h, Refused(CourtReserved)) || r == (h, Refused(CourtBusy))
            else if !Bindable(h.bracket, ref, id, courtId) then r == (h, Refused(CourtAlreadyAssigned))
            else
              && r.1 == Done && BoundThen(h, r.0, ref, Some(courtId))
              && Known(r.0.courts, courtId) && h.courts <= r.0.courts
  {
    SelectRefusalMeans(h, id, courtId, ref);
    if SelectRefusal(h, id, courtId) == None {
      SelectionBinds(h, id, courtId, pin, ref);
    }
  }

  lemma SelectedCourts(courts: seq<Court>, catalog: Catalog, courtId: string, pin: string)
    requires InServiceAt(catalog, courtId)
    ensures Known(Ensured(courts, catalog, courtId, pin), courtId) && courts <= Ensured(courts, catalog, courtId, pin)
  {
    KnownIff(courts, courtId);
    if CourtIndex(courts, courtId).None? {
      PutKnown(courts, FreshCourt(catalog[courtId], pin), courtId);
    }
  }

  // ---- court results ----

  // A court no match holds reports in vain.
  lemma NoHolderNoResult(h: Hub, courtId: string, name: string)
    requires EngineOk(h.bracket)
    requires h.bracket.Some? ==>
               forall ref | Valid(h.bracket.value, ref) ::
                 courtId == "" || Get(h.bracket.value, ref).courtId != Some(courtId)
    ensures CourtMatchWon(h, courtId, name) == (h, false)
  {
  }

  // The side that has the reported name, the first one if both have it.
  function SideNamed(m: Match, name: string): Player { if m.playerA == Some(name) then A else B }

  lemma WinnerSlotMeans(m: Match, name: string)
    ensures WinnerSlot(m, name)
         == if name != "" && (m.playerA == Some(name) || m.playerB == Some(name)) then Some(SideNamed(m, name))
            else None
  {
  }

  predicate Fits(m: Match, name: string) {
    m.status == Ready && name != "" && (m.playerA == Some(name) || m.playerB == Some(name))
  }

  // A court result is accepted exactly if the match the court holds is ready and has the reported name
  // on a side; otherwise nothing changes.
  lemma ResultAcceptedIff(h: Hub, courtId: string, name: string, ref: Ref)
    requires EngineOk(h.bracket) && EngineExclusive(h.bracket) && h.bracket.Some? && courtId != ""
    requires Valid(h.bracket.value, ref) && Get(h.bracket.value, ref).courtId == Some(courtId)
    ensures CourtMatchWon(h, courtId, name).1 <==> Fits(Get(h.bracket.value, ref), name)
    ensures !CourtMatchWon(h, courtId, name).1 ==> CourtMatchWon(h, courtId, name).0 == h
    ensures Advances(h.bracket, courtId, name) <==> Fits(Get(h.bracket.value, ref), name)
    ensures BoundTo(h.bracket.value, courtId) == Some(ref)
  {
    assert Holds(h.bracket.value, ref, courtId);
    IndexIsExact(h.bracket.value, courtId, ref);
    AutoAdvance(h, courtId, name);
    WinnerSlotMeans(Get(h.bracket.value, ref), name);
  }

  // Match i won by side w, whatever has become of the bindings: the match is decided, the winner's
  // name is in the slot of the next match, the other name of a semifinal has gone to the third place,
  // and the end of the final is the end of the bracket.
  ghost predicate WonBy(b: Bracket, b': Bracket, i: nat, w: Player)
    requires TreeSize(|b.matches|) && i < |b.matches|
  {
    var n, m := |b.matches|, b.matches[i];
    && SameHeader(b, b') && StatusFits(b')
    && DecidedFor(m, b'.matches[i].(courtId := m.courtId), w)
    && (IsFinal(n, i) ==> b'.status == Finished)
    && (!IsFinal(n, i) ==> NameOf(b'.matches[Next(n, i)], Side(i)) == NameOf(m, w))
    && (b.thirdPlace.Some? ==>
          var tp, tp' := b.thirdPlace.value, b'.thirdPlace.value.(courtId := b.thirdPlace.value.courtId);
          if IsSemifinal(n, i) then LoserSent(tp, tp', i, NameOf(m, w.Other())) else tp' == tp)
  }

  lemma WonByCourtsAside(b: Bracket, b1: Bracket, b': Bracket, i: nat, w: Player)
    requires TreeSize(|b.matches|) && i < |b.matches| && WonBy(b, b1, i, w) && SameButCourts(b1, b')
    ensures WonBy(b, b', i, w)
  {
    assert |b'.matches| == |b1.matches|;
    assert forall k | 0 <= k < |b1.matches| :: b'.matches[k].status == b1.matches[k].status;
  }

  lemma DeclareAndFeedWins(b: Bracket, i: nat, w: Player)
    requires WellFormed(b) && i < |b.matches|
    requires b.matches[i].status == Ready && NameOf(b.matches[i], w).Some?
    ensures TreeSize(|b.matches|) && DeclareAndFeed(b, i, w).Ok? && WonBy(b, DeclareAndFeed(b, i, w).value, i, w)
  {
    DeclareAndFeedMoves(b, i, w);
  }

  // And then the player with that name has won.
  lemma ResultMeans(h: Hub, courtId: string, name: string, i: nat)
    requires EngineOk(h.bracket) && EngineExclusive(h.bracket) && h.bracket.Some? && courtId != ""
    requires i < |h.bracket.value.matches| && h.bracket.value.matches[i].courtId == Some(courtId)
    requires Fits(h.bracket.value.matches[i], name)
    ensures TreeSize(|h.bracket.value.matches|)
    ensures var b, h' := h.bracket.value, CourtMatchWon(h, courtId, name).0;
            && SavedNow(h') && h'.bracket.Some?
            && WonBy(b, h'.bracket.value, i, SideNamed(b.matches[i], name))
            && NameOf(b.matches[i], SideNamed(b.matches[i], name)) == Some(name)
            && (h'.bracket.value.status == Finished ==> NoCourts(h'.bracket.value))
  {
    var b := h.bracket.value;
    ResultAcceptedIff(h, courtId, name, Main(i));
    AutoAdvance(h, courtId, name);
    var w := SideNamed(b.matches[i], name);
    WinnerSlotMeans(b.matches[i], name);
    DeclareAndFeedWins(b, i, w);
    var b1 := DeclareAndFeed(b, i, w).value;
    DecisionMeans(h, b1);
    WonByCourtsAside(b, b1, AfterDecision(h, Some(b1)).bracket.value, i, w);
  }

  lemma DeclareAndFeedMoves(b: Bracket, i: nat, w: Player)
    requires WellFormed(b) && i < |b.matches|
    requires b.matches[i].status == Ready && NameOf(b.matches[i], w).Some?
    ensures TreeSize(|b.matches|) && DeclareAndFeed(b, i, w).Ok?
    ensures var b' := DeclareAndFeed(b, i, w).value;
            && SameHeader(b, b') && StatusFits(b') && DecidedFor(b.matches[i], b'.matches[i], w)
            && (!IsFinal(|b.matches|, i) ==>
                  NameOf(b'.matches[Next(|b.matches|, i)], Side(i)) == NameOf(b.matches[i], w))
            && (b.thirdPlace.Some? ==>
                  if IsSemifinal(|b.matches|, i)
                  then LoserSent(b.thirdPlace.value, b'.thirdPlace.value, i, NameOf(b.matches[i], w.Other()))
                  else b'.thirdPlace == b.thirdPlace)
  {
    WellFormedTree(b);
    DeclarationMoves(b, i, w);
    FeedNeverFails(b, i, w);
    if b.thirdPlace.Some? {
      DeclareAndFeedEffect(b, i, w);
    }
  }

  // The third-place match ends the same way and sends nobody anywhere.
  lemma ThirdPlaceResultMeans(h: Hub, courtId: string, name: string)
    requires EngineOk(h.bracket) && EngineExclusive(h.bracket) && h.bracket.Some? && courtId != ""
    requires h.bracket.value.thirdPlace.Some? && h.bracket.value.thirdPlace.value.courtId == Some(courtId)
    requires Fits(h.bracket.value.thirdPlace.value, name)
    ensures var b, h' := h.bracket.value, CourtMatchWon(h, courtId, name).0;
            var m := b.thirdPlace.value;
            && SavedNow(h') && h'.bracket.Some? && SameHeader(b, h'.bracket.value)
            && var b' := h'.bracket.value;
               && DecidedFor(m, b'.thirdPlace.value.(courtId := m.courtId), SideNamed(m, name))
               && b'.thirdPlace.value.WinnerName() == Some(name)
               && forall k | 0 <= k < |b.matches| :: b'.matches[k] == b.matches[k].(courtId := b'.matches[k].courtId)
  {
    var b := h.bracket.value;
    ResultAcceptedIff(h, courtId, name, ThirdPlace);
    AutoAdvance(h, courtId, name);
    WinnerSlotMeans(b.thirdPlace.value, name);
    WellFormedTree(b);
    DecisionMeans(h, DeclareWinner(b, ThirdPlace, SideNamed(b.thirdPlace.value, name)).value);
  }

  // The owner's own decision of the final finishes the bracket as well, whatever the third place.
  lemma FinalByRequest(h: Hub, w: Player)
    requires EngineOk(h.bracket) && h.bracket.Some?
    requires var ms := h.bracket.value.matches;
             |ms| > 0 && ms[|ms| - 1].status == Ready && NameOf(ms[|ms| - 1], w).Some?
    ensures var ms := h.bracket.value.matches;
            var r := OnEngine(h, true, ms[|ms| - 1].id, SetWinner(w));
            && r.1 == Done && SavedNow(r.0) && r.0.bracket.Some?
            && r.0.bracket.value.status == Finished && NoCourts(r.0.bracket.value)
  {
    var b := h.bracket.value;
    var i := |b.matches| - 1;
    FinalEnds(b, w);
    IdIsThere(b, i);
    DecisionMeans(h, Sent(b, Main(i), SetWinner(w)).bracket.value);
  }

  lemma IdIsThere(b: Bracket, i: nat)
    requires WellFormed(b) && i < |b.matches|
    ensures b.matches[i].id != ""
  {
  }

  // ---- the other requests ----

  // Assigning a player: too long a name is refused before anything else is looked up; any other goes
  // to the slot without its tags, and is saved later.
  lemma AssignPlayerMeans(h: Hub, id: string, slot: Player, name: string, ref: Ref)
    requires EngineOk(h.bracket) && h.bracket.Some? && Valid(h.bracket.value, ref)
    requires Get(h.bracket.value, ref).id == id && id != ""
    ensures var r, v := OnAssignPlayer(h, true, id, slot, name), NameRules.Sanitized(name);
            if |name| > 50 then r == (h, EngineRefused(NameTooLong))
            else
              && r.1 == Done && SavedLater(h, r.0) && r.0.courts == h.courts && r.0.bracket.Some?
              && Valid(r.0.bracket.value, ref)
              && Written(Get(h.bracket.value, ref), Get(r.0.bracket.value, ref), slot,
                         if v == "" then None else Some(v))
  {
    var v := NameRules.Sanitized(name);
    NameRules.SanitizedIsClean(name);
    AssignEffect(h.bracket.value, ref, slot, v);
    RequestMeans(h, true, id, AssignPlayer(slot, v));
  }

  // A forced end takes the court from the match and nothing else, and is saved later; of a match
  // that is not there it takes nothing.
  lemma UnbindMeans(h: Hub, id: string)
    requires EngineOk(h.bracket)
    ensures forall ref | h.bracket.Some? && Valid(h.bracket.value, ref) && Get(h.bracket.value, ref).id == id ::
              BoundThen(h, Unbind(h, id), ref, None)
    ensures (h.bracket.Some? ==> forall ref | Valid(h.bracket.value, ref) :: Get(h.bracket.value, ref).id != id) ==>
              Unbind(h, id) == h
  {
    forall ref | h.bracket.Some? && Valid(h.bracket.value, ref) && Get(h.bracket.value, ref).id == id
      ensures BoundThen(h, Unbind(h, id), ref, None)
    {
      CourtEffect(h.bracket.value, ref, None);
    }
  }

  // Releasing leaves no match with a court and is saved at once if any had one; the courts that were
  // held have nothing running any more, unless they are a club's, and the others are as they were.
  lemma ReleaseMeans(h: Hub, k: nat)
    requires h.bracket.Some?
    ensures var h', held := AllReleased(h), BoundCourts(h.bracket.value);
            && h'.bracket.Some? && SameButCourts(h.bracket.value, h'.bracket.value) && NoCourts(h'.bracket.value)
            && (if held == {} then h' == h else SavedNow(h'))
            && |h'.courts| == |h.courts|
            && (k < |h.courts| ==>
                  h'.courts[k] == if h.courts[k].id in held then FlowReleased(h.courts[k]) else h.courts[k])
  {
    ReleaseExclusive(h.bracket.value);
    if BoundCourts(h.bracket.value) == {} {
      NothingBound(h.bracket.value);
      NothingToRelease(h.courts, {});
    }
  }

  // ---- the writers ----

  // A pending save that comes to its end writes the document as it then is; without one nothing
  // happens. The session save first collects the rows of all courts.
  lemma TimersMean(h: Hub)
    ensures SaveTimerFires(h) == if h.saveTimer then h.(saveTimer := false, disk := Some(h.snapshot)) else h
    ensures var doc := Document(Sessions(h.courts), h.snapshot.bracket);
            && PersistSessions(h) == h.(persistTimer := false, snapshot := doc, disk := Some(doc))
            && PersistTimerFires(h) == if h.persistTimer then PersistSessions(h) else h
  {
  }
}
