// The handler object around the engine: it looks the court index up, calls the engine, writes the
// shared document through the coordinator and frees courts through the court manager. Each method
// is proved to do to the server what HubSpec says, so the run theorems hold of it.

module BracketHandler {
  import opened Types
  import opened BracketTree
  import opened BracketSpec
  import opened BracketOps
  import opened CourtSpec
  import opened HubSpec
  import E = BracketEngine
  import C = CourtManager

  class BracketHandler {
    const engine: E.BracketEngine
    const store: C.PersistenceCoordinator
    const tableManager: C.CourtManager
    var pendingResetBySocket: map<string, PendingReset>
    var saveTimer: bool

    ghost function Footprint(): set<object>
      reads this, engine
    {
      {this, engine, store, tableManager} + engine.Footprint()
    }

    // The objects fit together, whatever bracket the engine has.
    ghost predicate Wired()
      reads Footprint()
    {
      && {this, engine, store, tableManager} !! engine.Footprint()
      && engine.Linked() && tableManager.coordinator == store && UniqueIds(tableManager.courts)
    }

    ghost predicate Valid()
      reads Footprint()
    {
      Wired() && EngineOk(engine.Value())
    }

    // The server as one value.
    ghost function State(): Hub
      reads Footprint()
    {
      Hub(engine.Value(), saveTimer, pendingResetBySocket, store.snapshot, store.disk,
          tableManager.courts, tableManager.persistTimer, tableManager.catalog)
    }

    // Restart: the engine copies the bracket of the snapshot.
    constructor (store: C.PersistenceCoordinator, tableManager: C.CourtManager)
      requires tableManager.coordinator == store && UniqueIds(tableManager.courts)
      ensures Wired() && this.store == store && this.tableManager == tableManager
      ensures forall o | o in Footprint() :: o == store || o == tableManager || fresh(o)
      ensures State() == Hub(store.snapshot.bracket, false, map[], store.snapshot, store.disk,
                             tableManager.courts, tableManager.persistTimer, tableManager.catalog)
    {
      this.store, this.tableManager := store, tableManager;
      var e := new E.BracketEngine();
      engine := e;
      pendingResetBySocket, saveTimer := map[], false;
      new;
      var persisted := store.GetBracket();
      if persisted.Some? {
        engine.Restore(persisted.value);
      }
    }

    // ---- saving ----

    method PersistNow()
      requires Wired()
      modifies `saveTimer, store
      ensures Wired() && State() == HubSpec.PersistNow(old(State()))
    {
      saveTimer := false;
      store.SetBracket(engine.Value());
      store.Flush();
    }

    method ScheduleDebouncedSave()
      requires Wired()
      modifies `saveTimer, store
      ensures Wired() && State() == ScheduleSave(old(State()))
    {
      store.SetBracket(engine.Value());
      saveTimer := true;
    }

    // The timer has run out; one that has been cleared does not.
    method OnSaveTimer()
      requires Wired() && saveTimer
      modifies `saveTimer, store
      ensures Wired() && State() == SaveTimerFires(old(State()))
    {
      saveTimer := false;
      store.Flush();
    }

    method FlushPending()
      requires Wired()
      modifies `saveTimer, store
      ensures Wired() && State() == SaveTimerFires(old(State()))
    {
      if saveTimer {
        saveTimer := false;
        store.Flush();
      }
    }

    // ---- the court index ----

    static method IndexMatches(matches: seq<E.BracketMatch>) returns (index: map<string, E.BracketMatch>)
      ensures forall c :: c in index <==> LastHolder(E.Values(matches), c).Some?
      ensures forall c | c in index :: index[c] == matches[LastHolder(E.Values(matches), c).value]
    {
      index := map[];
      ghost var ms := E.Values(matches);
      for k := 0 to |matches|
        invariant forall c :: c in index <==> LastHolder(ms[..k], c).Some?
        invariant forall c | c in index :: index[c] == matches[LastHolder(ms[..k], c).value]
      {
        assert ms[..k + 1][..k] == ms[..k] && ms[..k + 1][k] == matches[k].Value();
        var m := matches[k];
        if m.courtId.Some? && m.courtId.value != "" {
          index := index[m.courtId.value := m];
        }
      }
      assert ms[..|matches|] == ms;
    }

    method BuildCourtIndex() returns (index: map<string, E.BracketMatch>)
      requires Valid()
      ensures engine.bracket == null ==> index == map[]
      ensures engine.bracket != null ==>
        forall c ::
          && (c in index <==> BoundTo(engine.bracket.Value(), c).Some?)
          && (c in index ==> engine.bracket.Holds(BoundTo(engine.bracket.Value(), c).value, index[c]))
    {
      var b := engine.bracket;
      if b == null { return map[]; }
      index := IndexMatches(b.matches);
      var tp := b.thirdPlaceMatch;
      if tp != null && tp.courtId.Some? && tp.courtId.value != "" {
        index := index[tp.courtId.value := tp];
      }
    }

    // Whether another match than this one already holds the court.
    method BoundElsewhere(courtId: string, id: string) returns (taken: bool)
      requires Valid()
      ensures taken == TakenElsewhere(engine.Value(), courtId, id)
    {
      var index := BuildCourtIndex();
      taken := courtId in index && index[courtId].id != id;
      ghost var e := engine.Value();
      if e.Some? && courtId in index {
        assert Get(e.value, BoundTo(e.value, courtId).value) == index[courtId].Value();
      }
    }

    // ---- releasing ----

    method ReleaseFlows(ids: seq<string>)
      requires UniqueIds(tableManager.courts)
      modifies tableManager
      ensures tableManager.courts == CourtsReleased(old(tableManager.courts), Elements(ids))
      ensures tableManager.catalog == old(tableManager.catalog) && UniqueIds(tableManager.courts)
      ensures tableManager.persistTimer ==
                (old(tableManager.persistTimer)
                 || exists i :: 0 <= i < |old(tableManager.courts)| && old(tableManager.courts)[i].id in Elements(ids))
    {
      ghost var courts := tableManager.courts;
      for k := 0 to |ids|
        invariant tableManager.courts == CourtsReleased(courts, Elements(ids[..k]))
        invariant tableManager.catalog == old(tableManager.catalog)
        invariant tableManager.persistTimer ==
                    (old(tableManager.persistTimer)
                     || exists i :: 0 <= i < |courts| && courts[i].id in Elements(ids[..k]))
        invariant UniqueIds(tableManager.courts)
      {
        ReleaseOneMore(courts, Elements(ids[..k]), ids[k]);
        tableManager.ReleaseCourtFlow(ids[k]);
        assert Elements(ids[..k + 1]) == Elements(ids[..k]) + {ids[k]} by {
          assert ids[..k + 1] == ids[..k] + [ids[k]];
        }
      }
      assert ids[..|ids|] == ids;
    }

    static ghost function Elements(ids: seq<string>): set<string> { set id | id in ids }

    static lemma AssignedCourts(b: Bracket)
      ensures Elements(Assigned(b)) == BoundCourts(b)
    {
      forall id
        ensures id in Elements(Assigned(b)) <==> id in BoundCourts(b)
      {
        AssignedIsBound(b, id);
      }
    }

    method FreeCourts() returns (released: seq<string>)
      requires Valid() && engine.bracket != null
      modifies engine.Footprint(), tableManager
      ensures Valid() && engine.bracket == old(engine.bracket)
      ensures State() == Freed(old(State()))
      ensures released == Assigned(old(engine.Value()).value)
    {
      AssignedCourts(engine.Value().value);
      released := ReleaseMatches();
      ReleaseCourtsOf(released);
    }

    // The bindings, in the engine.
    method ReleaseMatches() returns (released: seq<string>)
      requires Valid() && engine.bracket != null
      modifies engine.Footprint()
      ensures Valid() && engine.bracket == old(engine.bracket)
      ensures var h := old(State()); State() == h.(bracket := Some(BracketSpec.ReleaseAll(h.bracket.value)))
      ensures released == Assigned(old(engine.Value()).value)
    {
      released := engine.ReleaseAll();
    }

    // The flows, in the court manager.
    method ReleaseCourtsOf(ids: seq<string>)
      requires Valid()
      modifies tableManager
      ensures Valid()
      ensures var h, freed := old(State()), Elements(ids);
              State() == h.(courts := CourtsReleased(h.courts, freed),
                            persistTimer := || h.persistTimer
                                            || exists i :: 0 <= i < |h.courts| && h.courts[i].id in freed)
    {
      ReleaseFlows(ids);
    }

    // Returns the courts given up, each once, in match order.
    method ReleaseAllCourts() returns (released: seq<string>)
      requires Valid()
      modifies Footprint()
      ensures Valid() && engine.bracket == old(engine.bracket)
      ensures State() == AllReleased(old(State()))
      ensures released == if old(engine.Value()).Some? then Assigned(old(engine.Value()).value) else []
    {
      if engine.bracket == null { return []; }
      AssignedCourts(engine.Value().value);
      released := FreeCourts();
      if released != [] {
        assert released[0] in Elements(released);
        PersistNow();
      }
    }

    lemma ReleaseOneMore(courts: seq<Court>, done: set<string>, id: string)
      requires UniqueIds(courts)
      ensures CourtReleased(CourtsReleased(courts, done), id) == CourtsReleased(courts, done + {id})
      ensures UniqueIds(CourtsReleased(courts, done + {id}))
      ensures CourtIndex(CourtsReleased(courts, done), id).Some?
         <==> exists i :: 0 <= i < |courts| && courts[i].id == id
    {
      var now := CourtsReleased(courts, done);
      if i :| 0 <= i < |courts| && courts[i].id == id {
        assert now[i].id == id;
      }
    }

    method ReleaseIfCompleted()
      requires Valid()
      modifies Footprint()
      ensures Valid() && engine.bracket == old(engine.bracket)
      ensures State() == ReleasedIfCompleted(old(State()))
    {
      if engine.bracket != null && engine.bracket.status == Finished {
        var _ := ReleaseAllCourts();
      }
    }

    // What a decided match costs: an immediate save, and the courts once the final is decided.
    method SaveDecision()
      requires Valid()
      modifies Footprint()
      ensures Valid() && engine.bracket == old(engine.bracket)
      ensures State() == AfterDecision(old(State()), old(engine.Value()))
    {
      PersistNow();
      ReleaseIfCompleted();
    }

    // ---- requests ----

    method OnCreate(owner: bool, name: string, numSlots: int, thirdPlace: bool, now: int) returns (reply: Reply)
      requires Valid()
      modifies Footprint()
      ensures Valid() && fresh(Footprint() - old(Footprint()))
      ensures (State(), reply) == HubSpec.OnCreate(old(State()), owner, name, numSlots, thirdPlace, now)
    {
      if !owner { return Refused(Unauthorized); }
      if !HasActive(tableManager.catalog) { return Refused(CourtInventoryEmpty); }
      if |name| > MAX_NAME_LEN { return Refused(InvalidName); }
      var error := engine.Create(name, numSlots, thirdPlace, now);
      if error.Some? { return EngineRefused(error.value); }
      PersistNow();
      reply := Done;
    }

    method OnAssignPlayer(owner: bool, id: string, slot: Player, name: string) returns (reply: Reply)
      requires Valid()
      modifies Footprint()
      ensures Valid()
      ensures (State(), reply) == HubSpec.OnAssignPlayer(old(State()), owner, id, slot, name)
    {
      if !owner { return Refused(Unauthorized); }
      if id == "" { return Refused(InvalidParams); }
      if |name| > MAX_NAME_LEN { return EngineRefused(NameTooLong); }
      var error := engine.AssignPlayer(id, slot, NameRules.Sanitized(name));
      if error.Some? { return EngineRefused(error.value); }
      ScheduleDebouncedSave();
      reply := Done;
    }

    method OnSetWinner(owner: bool, id: string, winner: Player) returns (reply: Reply)
      requires Valid()
      modifies Footprint()
      ensures Valid()
      ensures (State(), reply) == OnEngine(old(State()), owner, id, SetWinner(winner))
    {
      if !owner { return Refused(Unauthorized); }
      if id == "" { return Refused(InvalidParams); }
      var error := engine.SetWinner(id, winner);
      if error.Some? { return EngineRefused(error.value); }
      SaveDecision();
      reply := Done;
    }

    method OnUndoMatch(owner: bool, id: string) returns (reply: Reply)
      requires Valid()
      modifies Footprint()
      ensures Valid()
      ensures (State(), reply) == OnEngine(old(State()), owner, id, UndoMatch)
    {
      if !owner { return Refused(Unauthorized); }
      if id == "" { return Refused(InvalidParams); }
      var error := engine.UndoMatch(id);
      if error.Some? { return EngineRefused(error.value); }
      PersistNow();
      reply := Done;
    }

    method BindCourt(id: string, courtId: Option<string>) returns (error: Option<BracketError>)
      requires Valid()
      modifies Footprint()
      ensures Valid() && engine.bracket == old(engine.bracket)
      ensures var out := Step(old(engine.Value()), OnMatch(id, SetCourt(courtId)));
              && error == out.error
              && State() == if error.Some? then old(State()) else ScheduleSave(old(State()).(bracket := out.bracket))
    {
      error := engine.AssignCourt(id, courtId);
      if error.None? {
        ScheduleDebouncedSave();
      }
    }

    method CheckBinding(id: string, courtId: Option<string>) returns (refusal: Option<Refusal>)
      requires Valid()
      ensures refusal == BindingRefusal(State(), id, courtId)
    {
      if id == "" { return Some(InvalidParams); }
      if courtId.None? { return None; }
      if !Exists(tableManager.catalog, courtId.value) { return Some(CourtNotFound); }
      var taken := BoundElsewhere(courtId.value, id);
      refusal := if taken then Some(CourtAlreadyAssigned) else None;
    }

    method OnAssignCourt(owner: bool, id: string, courtId: Option<string>) returns (reply: Reply)
      requires Valid()
      modifies Footprint()
      ensures Valid()
      ensures (State(), reply) == HubSpec.OnAssignCourt(old(State()), owner, id, courtId)
    {
      if !owner { return Refused(Unauthorized); }
      var refusal := CheckBinding(id, courtId);
      if refusal.Some? { return Refused(refusal.value); }
      var error := BindCourt(id, courtId);
      reply := if error.Some? then EngineRefused(error.value) else Done;
    }

    method CheckSelect(id: string, courtId: string) returns (refusal: Option<Refusal>)
      requires Valid()
      ensures refusal == SelectRefusal(State(), id, courtId)
    {
      if id == "" || courtId == "" { return Some(InvalidParams); }
      if !Exists(tableManager.catalog, courtId) { return Some(CourtNotFound); }
      var busy := InUse(tableManager.courts, courtId);
      if busy.Some? { return busy; }
      var taken := BoundElsewhere(courtId, id);
      refusal := if taken then Some(CourtAlreadyAssigned) else None;
    }

    method Materialize(courtId: string)
      requires Valid() && Exists(tableManager.catalog, courtId)
      modifies tableManager
      ensures Valid()
      ensures var h := old(State());
              State() == h.(courts := Ensured(h.courts, h.catalog, courtId, tableManager.newPin(courtId)),
                            persistTimer := h.persistTimer || CourtIndex(h.courts, courtId).None?)
    {
      StillUnique(courtId);
      var _ := tableManager.EnsureRuntimeTournamentCourt(courtId);
    }

    method OnSelectTable(owner: bool, id: string, courtId: string) returns (reply: Reply)
      requires Valid()
      modifies Footprint()
      ensures Valid()
      ensures (State(), reply) == HubSpec.OnSelectTable(old(State()), owner, id, courtId, tableManager.newPin(courtId))
    {
      if !owner { return Refused(Unauthorized); }
      var refusal := CheckSelect(id, courtId);
      if refusal.Some? { return Refused(refusal.value); }
      var error := BindCourt(id, Some(courtId));
      if error.Some? { return EngineRefused(error.value); }
      Materialize(courtId);
      reply := Done;
    }

    lemma StillUnique(courtId: string)
      requires UniqueIds(tableManager.courts)
      ensures UniqueIds(Ensured(tableManager.courts, tableManager.catalog, courtId, tableManager.newPin(courtId)))
    {
    }

    // A token is passed in, as the random identifier the request would draw.
    method OnReset(owner: bool, socket: string, confirm: Option<string>, newToken: string, now: int)
      returns (reply: Reply)
      requires Valid()
      modifies Footprint()
      ensures Valid()
      ensures (State(), reply) == HubSpec.OnReset(old(State()), owner, socket, confirm, newToken, now)
    {
      if !owner { return Refused(Unauthorized); }
      if confirm.None? || confirm.value == "" {
        pendingResetBySocket := pendingResetBySocket[socket := PendingReset(newToken, now + RESET_TIMEOUT_MS)];
        return Token(newToken);
      }
      if socket !in pendingResetBySocket || pendingResetBySocket[socket].token != confirm.value {
        return Refused(InvalidToken);
      }
      var pending := pendingResetBySocket[socket];
      pendingResetBySocket := pendingResetBySocket - {socket};
      if now > pending.expiresAt { return Refused(ResetExpired); }
      Clear();
      reply := Done;
    }

    // The courts are given up before the bracket goes, and the result is written at once.
    method Clear()
      requires Valid()
      modifies Footprint()
      ensures Valid()
      ensures State() == Flushed(WithSnapshotBracket(AllReleased(old(State())).(bracket := None)))
    {
      var _ := ReleaseAllCourts();
      engine.Reset();
      store.SetBracket(None);
      store.Flush();
    }

    method OnDisconnect(socket: string)
      requires Valid()
      modifies this`pendingResetBySocket
      ensures Valid() && State() == Handle(old(State()), Disconnect(socket))
    {
      pendingResetBySocket := pendingResetBySocket - {socket};
    }

    // ---- from the courts ----

    method UnbindMatch(id: string)
      requires Valid()
      modifies Footprint()
      ensures Valid() && State() == Unbind(old(State()), id)
    {
      var _ := BindCourt(id, None);
    }

    method FeedIfSemifinal(b: E.TournamentBracket, m: E.BracketMatch, loser: Player) returns (ok: bool)
      requires Valid() && engine.bracket == b
      modifies engine.Footprint()
      ensures Valid() && engine.bracket == b
      ensures var r := FeedCall(old(engine.Value()), old(m.Value()), loser);
              ok == r.1 && State() == old(State()).(bracket := r.0)
    {
      if b.thirdPlaceMatch == null || m.round + 1 != Log2(b.numSlots) { return true; }
      var error := engine.SetThirdPlaceLoser(m.id, loser);
      ok := error.None?;
    }

    method CallEngine(b: E.TournamentBracket, m: E.BracketMatch, winner: Player) returns (ok: bool)
      requires Valid() && engine.bracket == b
      modifies engine.Footprint()
      ensures Valid() && engine.bracket == b
      ensures var r := ResultCalls(old(engine.Value()), old(m.Value()), winner);
              ok == r.1 && State() == old(State()).(bracket := r.0)
    {
      ghost var e, v := engine.Value(), m.Value();
      StepOk(e, OnMatch(m.id, SetWinner(winner)));
      var error := engine.SetWinner(m.id, winner);
      if error.Some? { return false; }
      ok := FeedIfSemifinal(b, m, winner.Other());
      SameMatch(Step(e, OnMatch(v.id, SetWinner(winner))).bracket, v, m.Value(), winner.Other());
    }

    // The feed looks only at the id and the round of the match.
    lemma SameMatch(e: Option<Bracket>, m: Match, m': Match, loser: Player)
      requires EngineOk(e) && m'.id == m.id && m'.round == m.round
      ensures FeedCall(e, m', loser) == FeedCall(e, m, loser)
    {
    }

    // The bracket match currently bound to a court.
    method ResolveBracketMatchForCourt(courtId: string) returns (m: E.BracketMatch?)
      requires Valid()
      ensures m == null <==> engine.bracket == null || BoundTo(engine.bracket.Value(), courtId).None?
      ensures m != null ==> m.Value() == Get(engine.bracket.Value(), BoundTo(engine.bracket.Value(), courtId).value)
    {
      var index := BuildCourtIndex();
      if courtId !in index { return null; }
      m := index[courtId];
    }

    // The slot of the match that holds this name.
    static method SlotOf(m: E.BracketMatch, name: string) returns (slot: Option<Player>)
      ensures slot == WinnerSlot(m.Value(), name)
    {
      slot := if name == "" then None
              else if m.playerA == Some(name) then Some(A)
              else if m.playerB == Some(name) then Some(B) else None;
    }

    method HandleCourtMatchWon(courtId: string, winningName: string) returns (advanced: bool)
      requires Valid()
      modifies Footprint()
      ensures Valid()
      ensures (State(), advanced) == CourtMatchWon(old(State()), courtId, winningName)
    {
      var m := ResolveBracketMatchForCourt(courtId);
      if m == null || m.status != Ready { return false; }
      var slot := SlotOf(m, winningName);
      if slot.None? { return false; }
      advanced := CallEngine(engine.bracket, m, slot.value);
      if advanced {
        SaveDecision();
      }
    }
  }
}
