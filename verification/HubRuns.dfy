// Over every run of events: the engine only ever goes through its own operations, so all that is
// proved of engine runs carries over; statuses stay coherent and bindings exclusive; and with
// seed-only assignments the server's bracket stays the pure one.

module HubRuns {
  import opened Types
  import opened BracketSpec
  import opened BracketOps
  import opened BracketCoherence
  import opened BracketProvenance
  import opened BracketLosers
  import opened CourtSpec
  import opened HubSpec
  import opened HubCourts
  import opened HubAdvance

  ghost predicate BracketGood(e: Option<Bracket>) { EngineOk(e) && EngineCoherent(e) && EngineExclusive(e) }

  // What every event keeps, whatever it is.
  ghost predicate Sane(h: Hub) { BracketGood(h.bracket) && UniqueIds(h.courts) }

  // ---- every event is a sequence of engine operations ----

  function MaybeRelease(e: Option<Bracket>): seq<Op> {
    if e.Some? && e.value.status == BracketStatus.Finished then [Op.ReleaseCourts] else []
  }

  // The engine operations an event amounts to; refused operations change nothing and may be listed.
  function OpsOf(h: Hub, ev: Event): seq<Op>
    requires EngineOk(h.bracket)
  {
    match ev
    case Create(owner, name, numSlots, thirdPlace, now) =>
      if OnCreate(h, owner, name, numSlots, thirdPlace, now).1 != Done then []
      else [Op.Create(name, numSlots, thirdPlace, now)]
    case PlayerRequest(owner, id, slot, name) =>
      if OnAssignPlayer(h, owner, id, slot, name).1 == Done then [Placing(id, slot, name)] else []
    case EngineRequest(owner, id, op) =>
      if OnEngine(h, owner, id, op).1 != Done then []
      else [OnMatch(id, op)] + if op.SetWinner? then MaybeRelease(Step(h.bracket, OnMatch(id, op)).bracket) else []
    case AssignCourt(owner, id, binding) =>
      if OnAssignCourt(h, owner, id, binding).1 == Done then [OnMatch(id, SetCourt(binding))] else []
    case SelectTable(owner, id, courtId, pin) =>
      if OnSelectTable(h, owner, id, courtId, pin).1 == Done then [OnMatch(id, SetCourt(Some(courtId)))] else []
    case ResetRequest(owner, socket, confirm, newToken, now) =>
      if OnReset(h, owner, socket, confirm, newToken, now).1 == Done then [Op.ReleaseCourts, Op.Reset] else []
    case MatchWon(courtId, name) => if Advances(h.bracket, courtId, name) then WonOps(h, courtId, name) else []
    case UnbindMatch(id) => [OnMatch(id, SetCourt(None))]
    case ReleaseCourts => [Op.ReleaseCourts]
    case FinishRequest => if h.disk.Some? then [Op.ReleaseCourts] else []
    case _ => []
  }

  function Placing(id: string, slot: Player, name: string): Op {
    OnMatch(id, AssignPlayer(slot, NameRules.Sanitized(name)))
  }

  function WonOps(h: Hub, courtId: string, name: string): seq<Op>
    requires EngineOk(h.bracket) && Advances(h.bracket, courtId, name)
  {
    var b := h.bracket.value;
    var ref := BoundTo(b, courtId).value;
    var m := Get(b, ref);
    var w := WinnerSlot(m, name).value;
    var r := ResultApplied(b, ref, w);
    CallOps(b, m, w) + if r.Ok? then MaybeRelease(Some(r.value)) else []
  }

  // The engine calls for a result.
  function CallOps(b: Bracket, m: Match, w: Player): seq<Op> {
    [OnMatch(m.id, SetWinner(w))]
    + if b.thirdPlace.Some? && m.round + 1 == b.Rounds() then [OnMatch(m.id, SetThirdPlaceLoser(w.Other()))] else []
  }

  lemma DecisionIsRun(h: Hub, e: Option<Bracket>)
    requires EngineOk(e)
    ensures AfterDecision(h, e).bracket == Run(e, MaybeRelease(e))
  {
    if MaybeRelease(e) != [] {
      RunOne(e, Op.ReleaseCourts);
    }
  }

  lemma CallsAreRun(b: Bracket, ref: Ref, w: Player)
    requires WellFormed(b) && Valid(b, ref)
    requires Get(b, ref).status == Ready && Get(b, ref).Slot(w).Some?
    ensures ResultApplied(b, ref, w).Ok?
    ensures Run(Some(b), CallOps(b, Get(b, ref), w)) == Some(ResultApplied(b, ref, w).value)
  {
    ResultByCalls(b, ref, w);
    var m := Get(b, ref);
    var won := OnMatch(m.id, SetWinner(w));
    RunOne(Some(b), won);
    if b.thirdPlace.Some? && m.round + 1 == b.Rounds() {
      var feed := OnMatch(m.id, SetThirdPlaceLoser(w.Other()));
      RunSplit(Some(b), [won], [feed]);
      RunOne(Step(Some(b), won).bracket, feed);
    } else {
      assert CallOps(b, m, w) == [won];
    }
  }

  lemma WonIsRun(h: Hub, courtId: string, name: string)
    requires EngineOk(h.bracket) && Advances(h.bracket, courtId, name)
    ensures CourtMatchWon(h, courtId, name).0.bracket == Run(h.bracket, WonOps(h, courtId, name))
  {
    AutoAdvance(h, courtId, name);
    var b := h.bracket.value;
    var ref := BoundTo(b, courtId).value;
    var w := WinnerSlot(Get(b, ref), name).value;
    CallsAreRun(b, ref, w);
    var e := Some(ResultApplied(b, ref, w).value);
    RunSplit(h.bracket, CallOps(b, Get(b, ref), w), MaybeRelease(e));
    DecisionIsRun(h, e);
  }

  lemma RequestIsRun(h: Hub, owner: bool, id: string, op: MatchOp)
    requires EngineOk(h.bracket)
    ensures OnEngine(h, owner, id, op).0.bracket == Run(h.bracket, OpsOf(h, EngineRequest(owner, id, op)))
  {
    if OnEngine(h, owner, id, op).1 == Done {
      var e := Step(h.bracket, OnMatch(id, op)).bracket;
      StepOk(h.bracket, OnMatch(id, op));
      RunOne(h.bracket, OnMatch(id, op));
      RunSplit(h.bracket, [OnMatch(id, op)], MaybeRelease(e));
      DecisionIsRun(h, e);
      assert [OnMatch(id, op)] + [] == [OnMatch(id, op)];
    }
  }

  // A request that only schedules or makes a save is its one engine operation.
  lemma OneOpIsRun(h: Hub, owner: bool, id: string, op: MatchOp)
    requires EngineOk(h.bracket) && !op.SetWinner?
    ensures var r := OnEngine(h, owner, id, op);
            r.0.bracket == if r.1 == Done then Run(h.bracket, [OnMatch(id, op)]) else h.bracket
  {
    RunOne(h.bracket, OnMatch(id, op));
  }

  lemma PlacingIsRun(h: Hub, owner: bool, id: string, slot: Player, name: string)
    requires EngineOk(h.bracket)
    ensures OnAssignPlayer(h, owner, id, slot, name).0.bracket
         == Run(h.bracket, OpsOf(h, PlayerRequest(owner, id, slot, name)))
  {
    OneOpIsRun(h, owner, id, AssignPlayer(slot, NameRules.Sanitized(name)));
  }

  lemma ResetIsRun(h: Hub)
    requires EngineOk(h.bracket)
    ensures Run(h.bracket, [Op.ReleaseCourts, Op.Reset]) == None
  {
    StepOk(h.bracket, Op.ReleaseCourts);
    RunSplit(h.bracket, [Op.ReleaseCourts], [Op.Reset]);
    RunOne(h.bracket, Op.ReleaseCourts);
    RunOne(Step(h.bracket, Op.ReleaseCourts).bracket, Op.Reset);
    assert [Op.ReleaseCourts] + [Op.Reset] == [Op.ReleaseCourts, Op.Reset];
  }

  lemma AssignIsRun(h: Hub, owner: bool, id: string, binding: Option<string>)
    requires EngineOk(h.bracket)
    ensures OnAssignCourt(h, owner, id, binding).0.bracket == Run(h.bracket, OpsOf(h, AssignCourt(owner, id, binding)))
  {
    OneOpIsRun(h, owner, id, SetCourt(binding));
  }

  lemma SelectIsRun(h: Hub, owner: bool, id: string, courtId: string, pin: string)
    requires EngineOk(h.bracket)
    ensures OnSelectTable(h, owner, id, courtId, pin).0.bracket
         == Run(h.bracket, OpsOf(h, SelectTable(owner, id, courtId, pin)))
  {
    RunOne(h.bracket, OnMatch(id, SetCourt(Some(courtId))));
  }

  lemma CreateIsRun(h: Hub, owner: bool, name: string, numSlots: int, thirdPlace: bool, now: int)
    requires EngineOk(h.bracket)
    ensures OnCreate(h, owner, name, numSlots, thirdPlace, now).0.bracket
         == Run(h.bracket, OpsOf(h, Event.Create(owner, name, numSlots, thirdPlace, now)))
  {
    RunOne(h.bracket, Op.Create(name, numSlots, thirdPlace, now));
  }

  lemma ResultIsRun(h: Hub, courtId: string, name: string)
    requires EngineOk(h.bracket)
    ensures CourtMatchWon(h, courtId, name).0.bracket == Run(h.bracket, OpsOf(h, MatchWon(courtId, name)))
  {
    AutoAdvance(h, courtId, name);
    if Advances(h.bracket, courtId, name) { WonIsRun(h, courtId, name); }
  }

  lemma UnbindIsRun(h: Hub, id: string)
    requires EngineOk(h.bracket)
    ensures Unbind(h, id).bracket == Run(h.bracket, [OnMatch(id, SetCourt(None))])
  {
    RunOne(h.bracket, OnMatch(id, SetCourt(None)));
  }

  lemma ReleaseIsRun(h: Hub)
    requires EngineOk(h.bracket)
    ensures AllReleased(h).bracket == Run(h.bracket, [Op.ReleaseCourts])
  {
    RunOne(h.bracket, Op.ReleaseCourts);
  }

  // Timers, flushes, court and catalog changes, disconnections and the two wipes of documents do not
  // touch the bracket.
  predicate IsQuiet(ev: Event) {
    ev.Disconnect? || ev.SaveTimer? || ev.PersistTimer? || ev.FlushBracket? || ev.FlushSessions?
    || ev.CourtsChange? || ev.CatalogChange? || ev.DiscardRequest? || ev.SetupReset?
  }

  lemma QuietIsRun(h: Hub, ev: Event)
    requires EngineOk(h.bracket) && IsQuiet(ev)
    ensures Handle(h, ev).bracket == h.bracket && OpsOf(h, ev) == []
  {
  }

  lemma OwnerIsRun(h: Hub, ev: Event)
    requires EngineOk(h.bracket)
    requires ev.Create? || ev.PlayerRequest? || ev.EngineRequest? || ev.AssignCourt? || ev.SelectTable?
    ensures Handle(h, ev).bracket == Run(h.bracket, OpsOf(h, ev))
  {
    match ev
    case Create(owner, name, numSlots, thirdPlace, now) => CreateIsRun(h, owner, name, numSlots, thirdPlace, now);
    case PlayerRequest(owner, id, slot, name) => PlacingIsRun(h, owner, id, slot, name);
    case EngineRequest(owner, id, op) => RequestIsRun(h, owner, id, op);
    case AssignCourt(owner, id, binding) => AssignIsRun(h, owner, id, binding);
    case SelectTable(owner, id, courtId, pin) => SelectIsRun(h, owner, id, courtId, pin);
  }

  // Whatever happens to the server, the bracket only ever goes through engine operations.
  lemma EventIsEngineRun(h: Hub, ev: Event)
    requires EngineOk(h.bracket)
    ensures Handle(h, ev).bracket == Run(h.bracket, OpsOf(h, ev))
  {
    match ev
    case Create(_, _, _, _, _) => OwnerIsRun(h, ev);
    case PlayerRequest(_, _, _, _) => OwnerIsRun(h, ev);
    case EngineRequest(_, _, _) => OwnerIsRun(h, ev);
    case AssignCourt(_, _, _) => OwnerIsRun(h, ev);
    case SelectTable(_, _, _, _) => OwnerIsRun(h, ev);
    case UnbindMatch(id) => UnbindIsRun(h, id);
    case ResetRequest(_, _, _, _, _) => ResetIsRun(h);
    case MatchWon(courtId, name) => ResultIsRun(h, courtId, name);
    case ReleaseCourts => ReleaseIsRun(h);
    case FinishRequest => ReleaseIsRun(h);
    case _ => QuietIsRun(h, ev);
  }

  // ---- what every run keeps ----

  predicate BindsNothing(op: Op) { !(op.OnMatch? && op.op.SetCourt? && op.op.courtId.Some?) }

  lemma {:induction false} RunExclusive(e: Option<Bracket>, ops: seq<Op>)
    requires EngineOk(e) && EngineExclusive(e)
    requires forall i | 0 <= i < |ops| :: BindsNothing(ops[i])
    ensures EngineExclusive(Run(e, ops))
    decreases ops
  {
    if ops != [] {
      assert BindsNothing(ops[0]);
      StepOk(e, ops[0]);
      StepExclusive(e, ops[0]);
      assert forall i | 0 <= i < |ops[1..]| :: ops[1..][i] == ops[i + 1];
      RunExclusive(Step(e, ops[0]).bracket, ops[1..]);
    }
  }

  lemma OpsBindNothing(h: Hub, ev: Event)
    requires EngineOk(h.bracket) && Allowed(ev) && !ev.AssignCourt? && !ev.SelectTable?
    ensures forall i | 0 <= i < |OpsOf(h, ev)| :: BindsNothing(OpsOf(h, ev)[i])
  {
  }

  lemma AssignExclusive(h: Hub, owner: bool, id: string, binding: Option<string>)
    requires EngineOk(h.bracket) && EngineExclusive(h.bracket)
    ensures EngineExclusive(OnAssignCourt(h, owner, id, binding).0.bracket)
  {
    if !(binding.Some? && TakenElsewhere(h.bracket, binding.value, id)) {
      StepExclusive(h.bracket, OnMatch(id, SetCourt(binding)));
    }
  }

  lemma SelectExclusive(h: Hub, owner: bool, id: string, courtId: string, pin: string)
    requires EngineOk(h.bracket) && EngineExclusive(h.bracket)
    ensures EngineExclusive(OnSelectTable(h, owner, id, courtId, pin).0.bracket)
  {
    if !TakenElsewhere(h.bracket, courtId, id) {
      StepExclusive(h.bracket, OnMatch(id, SetCourt(Some(courtId))));
    }
  }

  lemma EventExclusive(h: Hub, ev: Event)
    requires EngineOk(h.bracket) && EngineExclusive(h.bracket) && Allowed(ev)
    ensures EngineExclusive(Handle(h, ev).bracket)
  {
    match ev
    case AssignCourt(owner, id, binding) => AssignExclusive(h, owner, id, binding);
    case SelectTable(owner, id, courtId, pin) => SelectExclusive(h, owner, id, courtId, pin);
    case _ =>
      OpsBindNothing(h, ev);
      EventIsEngineRun(h, ev);
      RunExclusive(h.bracket, OpsOf(h, ev));
  }

  // Same courts by id, in the same order.
  ghost predicate SameIds(courts: seq<Court>, courts': seq<Court>) {
    |courts'| == |courts| && forall i | 0 <= i < |courts| :: courts'[i].id == courts[i].id
  }

  lemma ReleasedSameIds(h: Hub)
    ensures SameIds(h.courts, AllReleased(h).courts)
  {
    if h.bracket.Some? {
      assert AllReleased(h).courts == CourtsReleased(h.courts, BoundCourts(h.bracket.value));
    }
  }

  lemma DecisionSameIds(h: Hub, e: Option<Bracket>)
    ensures SameIds(h.courts, AfterDecision(h, e).courts)
  {
    ReleasedSameIds(PersistNow(h.(bracket := e)));
  }

  lemma RequestSameIds(h: Hub, owner: bool, id: string, op: MatchOp)
    requires EngineOk(h.bracket)
    ensures SameIds(h.courts, OnEngine(h, owner, id, op).0.courts)
  {
    DecisionSameIds(h, Step(h.bracket, OnMatch(id, op)).bracket);
  }

  lemma ResultSameIds(h: Hub, courtId: string, name: string)
    requires EngineOk(h.bracket)
    ensures SameIds(h.courts, CourtMatchWon(h, courtId, name).0.courts)
  {
    forall e
      ensures SameIds(h.courts, AfterDecision(h, e).courts)
    {
      DecisionSameIds(h, e);
    }
  }

  lemma ResetSameIds(h: Hub, ev: Event)
    requires EngineOk(h.bracket) && ev.ResetRequest?
    ensures SameIds(h.courts, Handle(h, ev).courts)
  {
    ReleasedSameIds(h.(pending := h.pending - {ev.socket}));
  }

  lemma CreateSameIds(h: Hub, ev: Event)
    requires EngineOk(h.bracket) && ev.Create?
    ensures SameIds(h.courts, Handle(h, ev).courts)
  {
  }

  // Only selecting a court adds one, and only finishing drops any.
  lemma EventSameIds(h: Hub, ev: Event)
    requires EngineOk(h.bracket) && !ev.SelectTable? && !ev.CourtsChange? && !ev.FinishRequest?
    ensures SameIds(h.courts, Handle(h, ev).courts)
  {
    match ev
    case PlayerRequest(owner, id, slot, name) =>
      RequestSameIds(h, owner, id, AssignPlayer(slot, NameRules.Sanitized(name)));
    case EngineRequest(owner, id, op) => RequestSameIds(h, owner, id, op);
    case AssignCourt(owner, id, binding) => RequestSameIds(h, owner, id, SetCourt(binding));
    case MatchWon(courtId, name) => ResultSameIds(h, courtId, name);
    case ResetRequest(_, _, _, _, _) => ResetSameIds(h, ev);
    case Create(_, _, _, _, _) => CreateSameIds(h, ev);
    case ReleaseCourts => ReleasedSameIds(h);
    case _ =>
  }

  lemma EventUnique(h: Hub, ev: Event)
    requires EngineOk(h.bracket) && UniqueIds(h.courts) && Allowed(ev)
    ensures UniqueIds(Handle(h, ev).courts)
  {
    match ev
    case SelectTable(_, _, courtId, pin) => EnsuredUnique(h.courts, h.catalog, courtId, pin);
    case FinishRequest => FinishUnique(h);
    case CourtsChange(_) =>
    case _ => EventSameIds(h, ev);
  }

  lemma EnsuredUnique(courts: seq<Court>, catalog: Catalog, id: string, pin: string)
    requires UniqueIds(courts)
    ensures UniqueIds(Ensured(courts, catalog, id, pin))
  {
  }

  lemma {:induction false} ClubsAreCourts(courts: seq<Court>, k: nat)
    requires UniqueIds(courts)
    ensures UniqueIds(ClubCourts(courts))
    ensures k < |ClubCourts(courts)| ==> exists i :: 0 <= i < |courts| && courts[i] == ClubCourts(courts)[k]
    decreases courts
  {
    if courts != [] {
      var init, last := courts[..|courts| - 1], courts[|courts| - 1];
      forall k | 0 <= k < |ClubCourts(init)|
        ensures exists i :: 0 <= i < |courts| - 1 && courts[i] == ClubCourts(init)[k]
      {
        ClubsAreCourts(init, k);
        var i :| 0 <= i < |init| && init[i] == ClubCourts(init)[k];
        assert courts[i] == init[i];
      }
      ClubsAreCourts(init, k);
    }
  }

  lemma FinishUnique(h: Hub)
    requires UniqueIds(h.courts)
    ensures UniqueIds(OnFinish(h).courts)
  {
    ReleasedSameIds(h);
    ClubsAreCourts(AllReleased(h).courts, 0);
  }

  lemma HandleSane(h: Hub, ev: Event)
    requires Sane(h) && Allowed(ev)
    ensures Sane(Handle(h, ev))
  {
    EventIsEngineRun(h, ev);
    RunCoherent(h.bracket, OpsOf(h, ev));
    EventExclusive(h, ev);
    EventUnique(h, ev);
  }

  function HubRun(h: Hub, evs: seq<Event>): (r: Hub)
    requires EngineOk(h.bracket)
    ensures EngineOk(r.bracket)
    decreases evs
  {
    if evs == [] then h
    else
      EventIsEngineRun(h, evs[0]);
      HubRun(Handle(h, evs[0]), evs[1..])
  }

  ghost predicate AllAllowed(evs: seq<Event>) { forall i | 0 <= i < |evs| :: Allowed(evs[i]) }

  // Every interleaving, wiping requests included, keeps statuses coherent, bindings exclusive and
  // court ids unique.
  lemma {:induction false} EveryRunIsSane(h: Hub, evs: seq<Event>)
    requires Sane(h) && AllAllowed(evs)
    ensures Sane(HubRun(h, evs))
    decreases evs
  {
    if evs != [] {
      assert Allowed(evs[0]);
      EventIsEngineRun(h, evs[0]);
      HandleSane(h, evs[0]);
      assert forall i | 0 <= i < |evs[1..]| :: evs[1..][i] == evs[i + 1];
      EveryRunIsSane(Handle(h, evs[0]), evs[1..]);
    }
  }

  // ---- the meaning of the bracket, over server runs ----

  // Player assignments in the main tree are seedings; nothing else is asked.
  ghost predicate SeedsOnly(h: Hub, ev: Event)
    requires EngineOk(h.bracket)
  {
    && (ev.PlayerRequest? ==> Disciplined(h.bracket, Placing(ev.id, ev.slot, ev.name)))
    && (ev.EngineRequest? ==> Disciplined(h.bracket, OnMatch(ev.id, ev.op)))
  }

  lemma {:induction false} OthersDisciplined(e: Option<Bracket>, ops: seq<Op>)
    requires EngineOk(e)
    requires ops != [] ==> Disciplined(e, ops[0])
    requires SafeAfter(ops, 1)
    ensures DisciplinedRun(e, ops)
    decreases ops
  {
    if ops != [] {
      StepOk(e, ops[0]);
      assert forall i | 0 <= i < |ops[1..]| :: ops[1..][i] == ops[i + 1];
      assert ops[1..] != [] ==> !Risky(ops[1..][0]);
      OthersDisciplined(Step(e, ops[0]).bracket, ops[1..]);
    }
  }

  // The operations that are not safe in every state.
  predicate Risky(op: Op) { op.OnMatch? && (op.op.AssignPlayer? || op.op.UndoMatch?) }

  predicate SafeAfter(ops: seq<Op>, first: nat) { forall i | first <= i < |ops| :: !Risky(ops[i]) }

  lemma ResultOpsSafe(h: Hub, courtId: string, name: string)
    requires EngineOk(h.bracket) && Advances(h.bracket, courtId, name)
    ensures SafeAfter(WonOps(h, courtId, name), 0)
  {
  }

  // Only requests assign players or undo, and only with their first operation.
  lemma WhereRisksAre(h: Hub, ev: Event)
    requires EngineOk(h.bracket)
    ensures SafeAfter(OpsOf(h, ev), 1)
    ensures OpsOf(h, ev) != [] ==>
              match ev
              case PlayerRequest(_, id, slot, name) => OpsOf(h, ev)[0] == Placing(id, slot, name)
              case EngineRequest(_, id, op) => OpsOf(h, ev)[0] == OnMatch(id, op)
              case _ => !Risky(OpsOf(h, ev)[0])
  {
    match ev
    case MatchWon(courtId, name) => if Advances(h.bracket, courtId, name) { ResultOpsSafe(h, courtId, name); }
    case _ =>
  }

  lemma EventDisciplined(h: Hub, ev: Event)
    requires EngineOk(h.bracket) && SeedsOnly(h, ev)
    ensures DisciplinedRun(h.bracket, OpsOf(h, ev))
  {
    WhereRisksAre(h, ev);
    OthersDisciplined(h.bracket, OpsOf(h, ev));
  }

  ghost predicate SeedsOnlyRun(h: Hub, evs: seq<Event>)
    requires EngineOk(h.bracket)
    decreases evs
  {
    evs != [] ==>
      && SeedsOnly(h, evs[0])
      && (EventIsEngineRun(h, evs[0]); SeedsOnlyRun(Handle(h, evs[0]), evs[1..]))
  }

  // Manual requests and court results alike: the server's bracket stays the pure function of its
  // seeds and declared winners.
  lemma {:induction false} ServerBracketIsPure(h: Hub, evs: seq<Event>)
    requires EngineOk(h.bracket) && EngineSound(h.bracket) && SeedsOnlyRun(h, evs)
    ensures EngineSound(HubRun(h, evs).bracket)
    decreases evs
  {
    if evs != [] {
      EventIsEngineRun(h, evs[0]);
      EventDisciplined(h, evs[0]);
      RunSound(h.bracket, OpsOf(h, evs[0]));
      ServerBracketIsPure(Handle(h, evs[0]), evs[1..]);
    }
  }

  // ---- whose names the third-place match holds, over server runs ----

  // Assignments go to undecided matches of the main tree, and no undo strands a loser.
  ghost predicate Tidy(h: Hub, ev: Event)
    requires EngineOk(h.bracket)
  {
    && (ev.PlayerRequest? ==> Careful(h.bracket, Placing(ev.id, ev.slot, ev.name)))
    && (ev.EngineRequest? ==>
          Careful(h.bracket, OnMatch(ev.id, ev.op)) && !Stranding(h.bracket, OnMatch(ev.id, ev.op)))
  }

  lemma {:induction false} OthersCareful(e: Option<Bracket>, ops: seq<Op>)
    requires EngineOk(e)
    requires ops != [] ==> Careful(e, ops[0]) && !Stranding(e, ops[0])
    requires SafeAfter(ops, 1)
    ensures CarefulRun(e, ops)
    decreases ops
  {
    if ops != [] {
      StepOk(e, ops[0]);
      assert forall i | 0 <= i < |ops[1..]| :: ops[1..][i] == ops[i + 1];
      assert ops[1..] != [] ==> !Risky(ops[1..][0]);
      OthersCareful(Step(e, ops[0]).bracket, ops[1..]);
    }
  }

  lemma EventCareful(h: Hub, ev: Event)
    requires EngineOk(h.bracket) && Tidy(h, ev)
    ensures CarefulRun(h.bracket, OpsOf(h, ev))
  {
    WhereRisksAre(h, ev);
    OthersCareful(h.bracket, OpsOf(h, ev));
  }

  ghost predicate TidyRun(h: Hub, evs: seq<Event>)
    requires EngineOk(h.bracket)
    decreases evs
  {
    evs != [] ==>
      && Tidy(h, evs[0])
      && (EventIsEngineRun(h, evs[0]); TidyRun(Handle(h, evs[0]), evs[1..]))
  }

  // Court results and requests alike: each slot of the server's third-place match is empty or holds
  // the loser of its decided semifinal.
  lemma {:induction false} ServerHoldsLosers(h: Hub, evs: seq<Event>)
    requires BracketGood(h.bracket) && EngineSound(h.bracket) && EngineLosers(h.bracket) && TidyRun(h, evs)
    requires AllAllowed(evs)
    ensures EngineSound(HubRun(h, evs).bracket) && EngineLosers(HubRun(h, evs).bracket)
    decreases evs
  {
    if evs != [] {
      assert Allowed(evs[0]);
      EventIsEngineRun(h, evs[0]);
      EventCareful(h, evs[0]);
      RunCoherent(h.bracket, OpsOf(h, evs[0]));
      RunHoldsLosers(h.bracket, OpsOf(h, evs[0]));
      EventExclusive(h, evs[0]);
      assert forall i | 0 <= i < |evs[1..]| :: evs[1..][i] == evs[i + 1];
      ServerHoldsLosers(Handle(h, evs[0]), evs[1..]);
    }
  }
}
