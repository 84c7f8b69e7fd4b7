// Runtime courts, the sessions saved for them, and the document both writers share.

module CourtSpec {
  import opened Types
  import opened MatchSpec
  import opened BracketSpec

  datatype FlowMode = TournamentMode | ClubMode

  datatype ClubStatus = Available | Reserved | Occupied | Over

  // The session identity a club flow carries.
  datatype ClubSession = ClubSession(
    mode: Option<string>, occupiedAt: Option<int>, playerName: Option<string>,
    phone: Option<string>, adminId: Option<string>)

  // The one active flow of a court.
  datatype Flow =
    | TournamentFlow(startedAt: int)
    | ClubFlow(over: bool, session: ClubSession)

  datatype InventoryStatus = InService | Maintenance | Archived

  datatype CourtRecord = CourtRecord(courtId: string, number: int, name: string, inventoryStatus: InventoryStatus)

  // The admin's court catalog, keyed by the records' own ids.
  type Catalog = c: map<string, CourtRecord> | forall id | id in c :: c[id].courtId == id
    witness map[]

  predicate Exists(catalog: Catalog, courtId: string) {
    courtId in catalog && catalog[courtId].inventoryStatus == InService
  }

  // A match and the sport whose rules score it.
  datatype Engine = Engine(state: MatchState, rules: Sport)

  datatype Court = Court(
    id: string, number: int, name: string, mode: FlowMode, flow: Option<Flow>,
    status: MatchSpec.MatchStatus, clubStatus: ClubStatus, pin: string, playerNames: PlayerNames,
    session: ClubSession, engine: Engine)

  // A saved flow row.
  datatype Session = Session(
    courtId: string, flow: Option<Flow>, matchState: Option<Saved>,
    number: Option<int>, name: Option<string>, pin: Option<string>, playerNames: Option<PlayerNames>)

  // The one document on disk: court sessions and bracket.
  datatype Document = Document(liveSessions: seq<Session>, bracket: Option<Bracket>)

  // ---- the repository: a map that keeps insertion order ----

  function CourtIndex(courts: seq<Court>, id: string): (i: Option<nat>)
    ensures i.Some? ==> i.value < |courts| && courts[i.value].id == id
    ensures i.None? ==> forall k | 0 <= k < |courts| :: courts[k].id != id
  {
    if courts == [] then None
    else if courts[|courts| - 1].id == id then Some(|courts| - 1)
    else CourtIndex(courts[..|courts| - 1], id)
  }

  predicate Known(courts: seq<Court>, id: string) { exists k :: 0 <= k < |courts| && courts[k].id == id }

  // Replaces the court of the same id, or adds it at the end.
  function PutCourt(courts: seq<Court>, c: Court): seq<Court> {
    match CourtIndex(courts, c.id)
    case Some(i) => courts[i := c]
    case None => courts + [c]
  }

  ghost predicate UniqueIds(courts: seq<Court>) {
    forall i, j | 0 <= i < j < |courts| :: courts[i].id != courts[j].id
  }

  // ---- saving ----

  // Only a flow of the court's own mode is written.
  function Serialize(c: Court): Option<Session> {
    if c.flow.None? || c.flow.value.TournamentFlow? != c.mode.TournamentMode? then None
    else Some(Session(c.id, c.flow, Some(ToPersisted(GetState(c.engine.state))),
                      Some(c.number), Some(c.name), Some(c.pin), Some(c.playerNames)))
  }

  function Sessions(courts: seq<Court>): seq<Session> {
    if courts == [] then []
    else
      var last := Serialize(courts[|courts| - 1]);
      Sessions(courts[..|courts| - 1]) + if last.Some? then [last.value] else []
  }

  // ---- materializing and releasing ----

  const NO_SESSION := ClubSession(None, None, None, None, None)

  function NewEngine(courtId: string, name: string): Engine {
    Engine(InitialState(INITIAL_CONFIG).(courtId := courtId, courtName := name), TableTennis)
  }

  function FreshCourt(r: CourtRecord, pin: string): Court {
    Court(r.courtId, r.number, r.name, TournamentMode, None, Waiting, Available, pin, DEFAULT_NAMES,
          NO_SESSION, NewEngine(r.courtId, r.name))
  }

  // A bracket court gets a runtime entry if it is in service and has none yet.
  function Ensured(courts: seq<Court>, catalog: Catalog, id: string, pin: string): seq<Court> {
    if CourtIndex(courts, id).Some? || !Exists(catalog, id) then courts
    else PutCourt(courts, FreshCourt(catalog[id], pin))
  }

  // End of a tournament flow; a club court is left alone.
  function FlowReleased(c: Court): Court {
    if c.mode == ClubMode then c
    else c.(flow := None, status := Waiting, engine := c.engine.(state := InitialState(INITIAL_CONFIG)))
  }

  function CourtReleased(courts: seq<Court>, id: string): seq<Court> {
    match CourtIndex(courts, id)
    case Some(i) => courts[i := FlowReleased(courts[i])]
    case None => courts
  }

  // ---- finishing ----

  predicate IsClub(c: Court) { c.mode == ClubMode }

  // Finishing a tournament drops the tournament courts.
  function ClubCourts(courts: seq<Court>): seq<Court> {
    if courts == [] then []
    else
      var c := courts[|courts| - 1];
      ClubCourts(courts[..|courts| - 1]) + if IsClub(c) then [c] else []
  }

  // ---- restoring ----

  // A saved row comes back only if it has a flow and its court is still in the catalog. The match
  // engine is rebuilt without naming its sport's rules, so the default ones score it.
  function RestoredCourt(s: Session, record: CourtRecord): Court
    requires s.flow.Some?
  {
    var flow := s.flow.value;
    var name := record.name;
    var names := OrElse(s.playerNames, DEFAULT_NAMES);
    var state := if s.matchState.Some? then MatchSpec.Restored(s.matchState.value, s.courtId, name, s.playerNames)
                 else NewEngine(s.courtId, name).state.(playerNames := names);
    Court(s.courtId, record.number, name, if flow.TournamentFlow? then TournamentMode else ClubMode, Some(flow),
          if flow.ClubFlow? then Waiting else if s.matchState.Some? then s.matchState.value.status else Live,
          if flow.ClubFlow? then (if flow.over then Over else Occupied) else Available,
          OrElse(s.pin, ""), names,
          if flow.ClubFlow? then flow.session else NO_SESSION,
          Engine(state, TableTennis))
  }

  predicate Restorable(s: Session, catalog: Catalog) { s.flow.Some? && s.courtId in catalog }

  function RestoredSessions(courts: seq<Court>, catalog: Catalog, sessions: seq<Session>): seq<Court> {
    if sessions == [] then courts
    else
      var s := sessions[|sessions| - 1];
      var before := RestoredSessions(courts, catalog, sessions[..|sessions| - 1]);
      if Restorable(s, catalog) then PutCourt(before, RestoredCourt(s, catalog[s.courtId])) else before
  }

  function EnsuredAll(courts: seq<Court>, catalog: Catalog, ids: seq<string>, newPin: string -> string): seq<Court> {
    if ids == [] then courts
    else
      var id := ids[|ids| - 1];
      Ensured(EnsuredAll(courts, catalog, ids[..|ids| - 1], newPin), catalog, id, newPin(id))
  }

  // The courts after a restart: saved flows first, then the courts the bracket needs.
  function AfterRestart(courts: seq<Court>, catalog: Catalog, disk: Document, bracket: Option<Bracket>,
                        newPin: string -> string): seq<Court> {
    var restored := RestoredSessions(courts, catalog, disk.liveSessions);
    if bracket.None? then restored else EnsuredAll(restored, catalog, Assigned(bracket.value), newPin)
  }

  // ---- what a restart brings back ----

  lemma KnownIff(courts: seq<Court>, id: string)
    ensures CourtIndex(courts, id).Some? <==> Known(courts, id)
  {
  }

  lemma PutKnown(courts: seq<Court>, c: Court, id: string)
    ensures Known(PutCourt(courts, c), id) <==> Known(courts, id) || id == c.id
    ensures UniqueIds(courts) ==> UniqueIds(PutCourt(courts, c))
    ensures exists k :: 0 <= k < |PutCourt(courts, c)| && PutCourt(courts, c)[k] == c
    ensures forall k | 0 <= k < |courts| && courts[k].id != c.id ::
              k < |PutCourt(courts, c)| && PutCourt(courts, c)[k] == courts[k]
  {
    var r := PutCourt(courts, c);
    if CourtIndex(courts, c.id).Some? {
      assert r[CourtIndex(courts, c.id).value] == c;
    } else {
      assert r[|courts|] == c;
    }
    if Known(courts, id) {
      var k :| 0 <= k < |courts| && courts[k].id == id;
      assert r[k].id == id;
    }
  }

  // Exactly the rows that name a cataloged court come back: no ghost sessions.
  lemma {:induction false} RestoredKnown(catalog: Catalog, sessions: seq<Session>, id: string)
    ensures UniqueIds(RestoredSessions([], catalog, sessions))
    ensures Known(RestoredSessions([], catalog, sessions), id)
       <==> exists i :: 0 <= i < |sessions| && sessions[i].courtId == id && Restorable(sessions[i], catalog)
    decreases sessions
  {
    if sessions != [] {
      var s, init := sessions[|sessions| - 1], sessions[..|sessions| - 1];
      RestoredKnown(catalog, init, id);
      if Restorable(s, catalog) {
        PutKnown(RestoredSessions([], catalog, init), RestoredCourt(s, catalog[s.courtId]), id);
      }
      assert forall i | 0 <= i < |init| :: init[i] == sessions[i];
      if i :| 0 <= i < |init| && init[i].courtId == id && Restorable(init[i], catalog) {
        assert sessions[i].courtId == id;
      }
    }
  }

  lemma NothingRestoredIff(catalog: Catalog, sessions: seq<Session>)
    ensures RestoredSessions([], catalog, sessions) == []
       <==> forall i | 0 <= i < |sessions| :: !Restorable(sessions[i], catalog)
  {
    var courts := RestoredSessions([], catalog, sessions);
    if courts != [] {
      RestoredKnown(catalog, sessions, courts[0].id);
      assert Known(courts, courts[0].id);
    }
    if i :| 0 <= i < |sessions| && Restorable(sessions[i], catalog) {
      RestoredKnown(catalog, sessions, sessions[i].courtId);
    }
  }

  // A court that gets a runtime entry because a match needs it.
  predicate MadeFrom(c: Court, catalog: Catalog, pin: string) {
    && Exists(catalog, c.id) && c.number == catalog[c.id].number && c.name == catalog[c.id].name && c.pin == pin
    && c.mode == TournamentMode && c.flow.None? && c.status == Waiting && c.clubStatus == Available
  }

  lemma EnsuredMeans(courts: seq<Court>, catalog: Catalog, id: string, pin: string)
    ensures var r := Ensured(courts, catalog, id, pin);
            if Known(courts, id) || !Exists(catalog, id) then r == courts
            else |r| == |courts| + 1 && r[..|courts|] == courts && r[|courts|].id == id
                 && MadeFrom(r[|courts|], catalog, pin)
  {
    KnownIff(courts, id);
  }

  // All courts added are such courts, each with the pin drawn for it.
  lemma {:induction false} EnsuredAllMeans(courts: seq<Court>, catalog: Catalog, ids: seq<string>,
                                           newPin: string -> string, k: nat)
    requires |courts| <= k < |EnsuredAll(courts, catalog, ids, newPin)|
    ensures var r := EnsuredAll(courts, catalog, ids, newPin); MadeFrom(r[k], catalog, newPin(r[k].id))
    decreases ids
  {
    var init, id := ids[..|ids| - 1], ids[|ids| - 1];
    var before := EnsuredAll(courts, catalog, init, newPin);
    EnsuredMeans(before, catalog, id, newPin(id));
    if k < |before| {
      EnsuredAllMeans(courts, catalog, init, newPin, k);
      assert EnsuredAll(courts, catalog, ids, newPin)[..|before|] == before;
    }
  }

  lemma {:induction false} EnsuredAllKnown(courts: seq<Court>, catalog: Catalog, ids: seq<string>,
                                           newPin: string -> string, id: string)
    requires UniqueIds(courts)
    ensures UniqueIds(EnsuredAll(courts, catalog, ids, newPin))
    ensures Known(EnsuredAll(courts, catalog, ids, newPin), id)
       <==> Known(courts, id) || (id in ids && Exists(catalog, id))
    ensures courts <= EnsuredAll(courts, catalog, ids, newPin)
    decreases ids
  {
    if ids != [] {
      var last, init := ids[|ids| - 1], ids[..|ids| - 1];
      EnsuredAllKnown(courts, catalog, init, newPin, id);
      var before := EnsuredAll(courts, catalog, init, newPin);
      KnownIff(before, last);
      if !Known(before, last) && Exists(catalog, last) {
        PutKnown(before, FreshCourt(catalog[last], newPin(last)), id);
      }
      assert ids == init + [last];
    }
  }

  // After a restart from an empty repository a court has a runtime entry if and only if a saved
  // flow names it and it is cataloged, or the bracket names it and it is in service.
  lemma RestartExactly(catalog: Catalog, disk: Document, bracket: Option<Bracket>, newPin: string -> string, id: string)
    ensures var courts := AfterRestart([], catalog, disk, bracket, newPin);
            && UniqueIds(courts)
            && (Known(courts, id) <==>
                  || (exists i :: 0 <= i < |disk.liveSessions| && disk.liveSessions[i].courtId == id
                                  && Restorable(disk.liveSessions[i], catalog))
                  || (bracket.Some? && id in BoundCourts(bracket.value) && Exists(catalog, id)))
            && (Known(courts, id) ==> id in catalog)
  {
    RestoredKnown(catalog, disk.liveSessions, id);
    if bracket.Some? {
      AssignedIsBound(bracket.value, id);
      EnsuredAllKnown(RestoredSessions([], catalog, disk.liveSessions), catalog, Assigned(bracket.value), newPin, id);
    }
  }

  // ---- saving and restarting ----

  // The courts whose flow a restart brings back: saved, and still in the catalog.
  predicate ComesBack(catalog: Catalog, c: Court) { Serialize(c).Some? && c.id in catalog }

  function ComingBack(courts: seq<Court>, catalog: Catalog): seq<Court> {
    if courts == [] then []
    else
      var c := courts[|courts| - 1];
      ComingBack(courts[..|courts| - 1], catalog) + if ComesBack(catalog, c) then [c] else []
  }

  lemma {:induction false} ComingBackAreCourts(courts: seq<Court>, catalog: Catalog, k: nat)
    requires k < |ComingBack(courts, catalog)|
    ensures exists i :: 0 <= i < |courts| && courts[i] == ComingBack(courts, catalog)[k]
    decreases courts
  {
    var init := courts[..|courts| - 1];
    if k < |ComingBack(init, catalog)| {
      ComingBackAreCourts(init, catalog, k);
      var i :| 0 <= i < |init| && init[i] == ComingBack(init, catalog)[k];
      assert courts[i] == ComingBack(courts, catalog)[k];
    } else {
      assert courts[|courts| - 1] == ComingBack(courts, catalog)[k];
    }
  }

  // The court a restart makes of this one.
  predicate BroughtBack(catalog: Catalog, c: Court, back: Court) {
    ComesBack(catalog, c) && back == RestoredCourt(Serialize(c).value, catalog[c.id])
  }

  // Flow, mode, pin, names and match are those of before; number and name those the catalog has now.
  lemma BroughtBackMeans(catalog: Catalog, c: Court, back: Court)
    requires BroughtBack(catalog, c, back)
    ensures back.id == c.id && back.number == catalog[c.id].number && back.name == catalog[c.id].name
    ensures back.flow == c.flow && back.mode == c.mode && back.pin == c.pin && back.playerNames == c.playerNames
    ensures back.engine.state ==
              Restored(ToPersisted(GetState(c.engine.state)), c.id, catalog[c.id].name, Some(c.playerNames))
    // A club court comes back in the hands of its session, over or not; a tournament court with its
    // match as far as it was.
    ensures c.flow.value.ClubFlow? ==>
              && back.clubStatus == (if c.flow.value.over then Over else Occupied)
              && back.session == c.flow.value.session && back.status == Waiting
    ensures c.flow.value.TournamentFlow? ==>
              && back.clubStatus == Available && back.session == ClubSession(None, None, None, None, None)
              && back.status == c.engine.state.game.status
    // The rules that will score it are those of its sport only if that sport is the default one.
    ensures back.engine.rules == back.engine.state.game.sport <==> c.engine.state.game.sport == TableTennis
  {
  }

  // A row is written exactly for a court with a flow of its own mode, and says what the court is.
  lemma RowMeans(c: Court)
    ensures Serialize(c).Some?
       <==> c.flow.Some? && (c.flow.value.TournamentFlow? <==> c.mode == TournamentMode)
    ensures Serialize(c).Some? ==>
              var row := Serialize(c).value;
              && row.courtId == c.id && row.flow == c.flow
              && row.number == Some(c.number) && row.name == Some(c.name) && row.pin == Some(c.pin)
              && row.playerNames == Some(c.playerNames)
              && row.matchState.Some? && row.matchState.value.status == c.engine.state.game.status
  {
  }

  // A row that lacks something comes back with nothing in its place: no pin, default names, and a
  // match of its own if none was saved.
  lemma RestoredRowMeans(s: Session, record: CourtRecord)
    requires s.flow.Some?
    ensures var back := RestoredCourt(s, record);
            && back.id == s.courtId && back.number == record.number && back.name == record.name
            && back.flow == s.flow && (back.mode == TournamentMode <==> s.flow.value.TournamentFlow?)
            && (s.pin.None? ==> back.pin == "")
            && (s.playerNames.None? ==> back.playerNames == PlayerNames("Player A", "Player B"))
            && (s.playerNames.Some? ==> back.playerNames == back.engine.state.playerNames == s.playerNames.value)
            && back.engine.state.courtId == s.courtId && back.engine.state.courtName == record.name
            && (s.matchState.None? && s.flow.value.TournamentFlow? ==>
                  back.status == Live && back.engine.state.game.status == Waiting && back.engine.state.history == [])
  {
  }

  // The runtime court a bracket court gets: identity of the record, nothing running, ready for use.
  lemma FreshCourtMeans(r: CourtRecord, pin: string)
    ensures var c := FreshCourt(r, pin);
            && c.id == r.courtId && c.number == r.number && c.name == r.name && c.pin == pin
            && c.mode == TournamentMode && c.flow.None? && c.status == Waiting && c.clubStatus == Available
            && c.playerNames == PlayerNames("Player A", "Player B") && Serialize(c).None?
            && c.engine.rules == TableTennis && c.engine.state.game.status == Waiting
            && c.engine.state.courtId == r.courtId && c.engine.state.courtName == r.name
  {
  }

  // Ending a tournament flow: nothing runs on the court, its match starts over, and the rest of it
  // stays. A club court is left as it is.
  lemma FlowReleasedMeans(c: Court)
    ensures var c' := FlowReleased(c);
            if c.mode == ClubMode then c' == c
            else
              && c' == c.(flow := None, status := Waiting, engine := c'.engine)
              && c'.engine.rules == c.engine.rules && c'.engine.state.game.status == Waiting
              && c'.engine.state.history == [] && c'.engine.state.game.sets == Score(0, 0)
  {
  }

  // Saving and restarting, whatever has become of the catalog meanwhile, brings back exactly the
  // courts with a flow that are still in it, in order; renamed courts under their new names.
  lemma {:induction false} SaveRestartRoundTrip(courts: seq<Court>, catalog: Catalog)
    requires UniqueIds(courts)
    ensures var back, kept := RestoredSessions([], catalog, Sessions(courts)), ComingBack(courts, catalog);
            && |back| == |kept|
            && forall k | 0 <= k < |kept| :: BroughtBack(catalog, kept[k], back[k])
    decreases courts
  {
    if courts != [] {
      var c, init := courts[|courts| - 1], courts[..|courts| - 1];
      assert courts == init + [c];
      SaveRestartRoundTrip(init, catalog);
      var back, kept := RestoredSessions([], catalog, Sessions(init)), ComingBack(init, catalog);
      if Serialize(c).Some? {
        NotYetBack(init, c, catalog, back);
        RestoreOneMore(back, catalog, Sessions(init), c);
        assert Sessions(courts) == Sessions(init) + [Serialize(c).value];
      } else {
        assert Sessions(courts) == Sessions(init);
      }
      if ComesBack(catalog, c) {
        assert ComingBack(courts, catalog) == kept + [c];
        assert BroughtBack(catalog, c, RestoredCourt(Serialize(c).value, catalog[c.id]));
      } else {
        assert ComingBack(courts, catalog) == kept;
      }
    }
  }

  lemma NotYetBack(init: seq<Court>, c: Court, catalog: Catalog, back: seq<Court>)
    requires UniqueIds(init + [c]) && |back| == |ComingBack(init, catalog)|
    requires forall k | 0 <= k < |back| :: BroughtBack(catalog, ComingBack(init, catalog)[k], back[k])
    ensures forall k | 0 <= k < |back| :: back[k].id != c.id
  {
    forall k | 0 <= k < |back|
      ensures back[k].id != c.id
    {
      ComingBackAreCourts(init, catalog, k);
      var i :| 0 <= i < |init| && init[i] == ComingBack(init, catalog)[k];
      assert (init + [c])[i] == init[i] && (init + [c])[|init|] == c;
      assert BroughtBack(catalog, ComingBack(init, catalog)[k], back[k]);
    }
  }

  lemma RestoreOneMore(back: seq<Court>, catalog: Catalog, before: seq<Session>, c: Court)
    requires back == RestoredSessions([], catalog, before) && Serialize(c).Some?
    requires forall k | 0 <= k < |back| :: back[k].id != c.id
    ensures RestoredSessions([], catalog, before + [Serialize(c).value])
         == if c.id in catalog then back + [RestoredCourt(Serialize(c).value, catalog[c.id])] else back
  {
    var sessions := before + [Serialize(c).value];
    assert sessions[..|sessions| - 1] == before;
    assert CourtIndex(back, c.id).None?;
  }
}
