// Two writers, two debounce timers, one document, over every interleaving of events: whether the
// shared snapshot has the engine's bracket, whether the disk is behind with no save pending, and
// what the pair of flushes at shutdown leaves on disk. Three requests wipe the file or the snapshot
// under the live server; what that loses, and what brings it back, is exact.

module HubPersistence {
  import opened Types
  import opened BracketSpec
  import opened BracketOps
  import opened CourtSpec
  import opened HubSpec
  import opened HubCourts
  import opened HubAdvance
  import opened HubRuns

  // What a restart would find: a missing file reads as no bracket and no sessions.
  function DiskBracket(h: Hub): Option<Bracket> { if h.disk.Some? then h.disk.value.bracket else None }

  function DiskSessions(h: Hub): seq<Session> { if h.disk.Some? then h.disk.value.liveSessions else [] }

  predicate InStep(h: Hub) { h.snapshot.bracket == h.bracket }

  predicate BracketSaved(h: Hub) { InStep(h) && (!h.saveTimer ==> DiskBracket(h) == h.bracket) }

  predicate SessionsSaved(h: Hub) {
    DiskSessions(h) == h.snapshot.liveSessions && (!h.persistTimer ==> DiskSessions(h) == Sessions(h.courts))
  }

  // The disk is never behind without a save pending.
  predicate Durable(h: Hub) { BracketSaved(h) && SessionsSaved(h) }

  predicate Wipes(ev: Event) { ev.DiscardRequest? || ev.FinishRequest? || ev.SetupReset? }

  // ---- the bracket's writer ----

  predicate HoldsCourts(h: Hub) { h.bracket.Some? && BoundCourts(h.bracket.value) != {} }

  // The event puts the engine's bracket into the snapshot.
  predicate BracketWritten(h: Hub, ev: Event)
    requires EngineOk(h.bracket)
  {
    match ev
    case Create(owner, name, numSlots, thirdPlace, now) => OnCreate(h, owner, name, numSlots, thirdPlace, now).1 == Done
    case PlayerRequest(owner, id, slot, name) => OnAssignPlayer(h, owner, id, slot, name).1 == Done
    case EngineRequest(owner, id, op) => OnEngine(h, owner, id, op).1 == Done
    case AssignCourt(owner, id, binding) => OnAssignCourt(h, owner, id, binding).1 == Done
    case SelectTable(owner, id, courtId, pin) => OnSelectTable(h, owner, id, courtId, pin).1 == Done
    case ResetRequest(owner, socket, confirm, newToken, now) =>
      OnReset(h, owner, socket, confirm, newToken, now).1 == Done
    case MatchWon(courtId, name) => CourtMatchWon(h, courtId, name).1
    case UnbindMatch(id) => Step(h.bracket, OnMatch(id, SetCourt(None))).error.None?
    case ReleaseCourts => HoldsCourts(h)
    case FinishRequest => h.disk.Some? && HoldsCourts(h)
    case _ => false
  }

  // What the bracket's writer leaves: its part on disk or pending, the other part as it was.
  predicate WroteBracket(h: Hub, h': Hub) {
    && BracketSaved(h')
    && h'.snapshot.liveSessions == h.snapshot.liveSessions
    && (h'.disk == h.disk || h'.disk == Some(h'.snapshot))
    && (h.persistTimer ==> h'.persistTimer)
    && (!h'.persistTimer ==> h'.courts == h.courts)
  }

  lemma ReleasedWrites(h: Hub)
    ensures if HoldsCourts(h) then WroteBracket(h, AllReleased(h)) else AllReleased(h) == h
  {
    if h.bracket.Some? {
      var b := h.bracket.value;
      var ids := BoundCourts(b);
      if !(exists i :: 0 <= i < |h.courts| && h.courts[i].id in ids) {
        NothingToRelease(h.courts, ids);
      }
      if ids == {} {
        NothingBound(b);
      }
    }
  }

  lemma DecisionWrites(h: Hub, e: Option<Bracket>)
    ensures WroteBracket(h, AfterDecision(h, e))
  {
    ReleasedWrites(PersistNow(h.(bracket := e)));
  }

  lemma RequestWrites(h: Hub, owner: bool, id: string, op: MatchOp)
    requires EngineOk(h.bracket)
    ensures var r := OnEngine(h, owner, id, op);
            if r.1 == Done then WroteBracket(h, r.0) else r.0 == h
  {
    DecisionWrites(h, Step(h.bracket, OnMatch(id, op)).bracket);
  }

  lemma CreateWrites(h: Hub, owner: bool, name: string, numSlots: int, thirdPlace: bool, now: int)
    requires EngineOk(h.bracket)
    ensures var r := OnCreate(h, owner, name, numSlots, thirdPlace, now);
            if r.1 == Done then WroteBracket(h, r.0) else r.0 == h
  {
  }

  lemma SelectWrites(h: Hub, owner: bool, id: string, courtId: string, pin: string)
    requires EngineOk(h.bracket)
    ensures var r := OnSelectTable(h, owner, id, courtId, pin);
            if r.1 == Done then WroteBracket(h, r.0) else r.0 == h
  {
  }

  lemma ResetWrites(h: Hub, owner: bool, socket: string, confirm: Option<string>, newToken: string, now: int)
    ensures var r := OnReset(h, owner, socket, confirm, newToken, now);
            if r.1 == Done then WroteBracket(h, r.0) else r.0 == h.(pending := r.0.pending)
  {
    ReleasedWrites(h.(pending := h.pending - {socket}));
  }

  lemma ResultWrites(h: Hub, courtId: string, name: string)
    requires EngineOk(h.bracket)
    ensures var r := CourtMatchWon(h, courtId, name);
            if r.1 then WroteBracket(h, r.0) else r.0 == h
  {
    AutoAdvance(h, courtId, name);
    if Advances(h.bracket, courtId, name) {
      var b := h.bracket.value;
      var ref := BoundTo(b, courtId).value;
      DecisionWrites(h, Some(ResultApplied(b, ref, WinnerSlot(Get(b, ref), name).value).value));
    }
  }

  lemma UnbindWrites(h: Hub, id: string)
    requires EngineOk(h.bracket)
    ensures if BracketWritten(h, UnbindMatch(id)) then WroteBracket(h, Unbind(h, id)) else Unbind(h, id) == h
  {
  }

  // The bracket side's own events: they write, or they change nothing but reset tokens.
  predicate OfBracketSide(ev: Event) {
    || ev.Create? || ev.PlayerRequest? || ev.EngineRequest? || ev.AssignCourt? || ev.SelectTable?
    || ev.ResetRequest? || ev.MatchWon? || ev.UnbindMatch? || ev.ReleaseCourts?
  }

  lemma BracketSideWrites(h: Hub, ev: Event)
    requires EngineOk(h.bracket) && OfBracketSide(ev)
    ensures if BracketWritten(h, ev) then WroteBracket(h, Handle(h, ev))
            else Handle(h, ev) == h.(pending := Handle(h, ev).pending)
  {
    match ev
    case Create(owner, name, numSlots, thirdPlace, now) => CreateWrites(h, owner, name, numSlots, thirdPlace, now);
    case PlayerRequest(owner, id, slot, name) =>
      RequestWrites(h, owner, id, AssignPlayer(slot, NameRules.Sanitized(name)));
    case EngineRequest(owner, id, op) => RequestWrites(h, owner, id, op);
    case AssignCourt(owner, id, binding) => RequestWrites(h, owner, id, SetCourt(binding));
    case SelectTable(owner, id, courtId, pin) => SelectWrites(h, owner, id, courtId, pin);
    case ResetRequest(owner, socket, confirm, newToken, now) => ResetWrites(h, owner, socket, confirm, newToken, now);
    case MatchWon(courtId, name) => ResultWrites(h, courtId, name);
    case UnbindMatch(id) => UnbindWrites(h, id);
    case ReleaseCourts => ReleasedWrites(h);
  }

  // ---- the sessions' writer, and both over every event ----

  predicate SessionsWritten(h: Hub, ev: Event) { ev.FlushSessions? || (ev.PersistTimer? && h.persistTimer) }

  predicate Parts(h: Hub, h': Hub, bracket: bool, sessions: bool) {
    && (BracketSaved(h) || bracket ==> BracketSaved(h'))
    && (SessionsSaved(h) || sessions ==> SessionsSaved(h'))
    && (!sessions ==> h'.snapshot.liveSessions == h.snapshot.liveSessions)
  }

  lemma WroteParts(h: Hub, h': Hub, written: bool)
    requires if written then WroteBracket(h, h') else h' == h.(pending := h'.pending)
    ensures Parts(h, h', written, false)
  {
  }

  lemma BracketSideParts(h: Hub, ev: Event)
    requires EngineOk(h.bracket) && OfBracketSide(ev)
    ensures Parts(h, Handle(h, ev), BracketWritten(h, ev), SessionsWritten(h, ev))
  {
    BracketSideWrites(h, ev);
    WroteParts(h, Handle(h, ev), BracketWritten(h, ev));
  }

  lemma OtherParts(h: Hub, ev: Event)
    requires EngineOk(h.bracket) && !OfBracketSide(ev) && !Wipes(ev)
    ensures Parts(h, Handle(h, ev), BracketWritten(h, ev), SessionsWritten(h, ev))
  {
  }

  // No event but a wiping one harms either part, and each part is saved once its writer has written,
  // whatever was on disk before.
  lemma EventSaves(h: Hub, ev: Event)
    requires EngineOk(h.bracket) && !Wipes(ev)
    ensures BracketSaved(h) || BracketWritten(h, ev) ==> BracketSaved(Handle(h, ev))
    ensures SessionsSaved(h) || SessionsWritten(h, ev) ==> SessionsSaved(Handle(h, ev))
    ensures !SessionsWritten(h, ev) ==> Handle(h, ev).snapshot.liveSessions == h.snapshot.liveSessions
  {
    if OfBracketSide(ev) {
      BracketSideParts(h, ev);
    } else {
      OtherParts(h, ev);
    }
  }

  // Snapshot and engine agree on the bracket after an event exactly if it wrote the bracket or they
  // agreed before, except that setting the club up afresh parts them whenever there is a bracket.
  lemma EventInStep(h: Hub, ev: Event)
    requires EngineOk(h.bracket)
    ensures InStep(Handle(h, ev)) <==> if ev.SetupReset? then h.bracket.None? else BracketWritten(h, ev) || InStep(h)
  {
    if OfBracketSide(ev) {
      BracketSideWrites(h, ev);
    } else if ev.FinishRequest? {
      ReleasedWrites(h);
    }
  }

  // ---- the wiping requests ----

  // Some court the bracket holds has a runtime entry: freeing it schedules a session save.
  predicate FreesACourt(h: Hub) {
    h.bracket.Some? && exists i :: 0 <= i < |h.courts| && h.courts[i].id in BoundCourts(h.bracket.value)
  }

  // What a wiping request must find so as to lose nothing.
  predicate Harmless(h: Hub, ev: Event) {
    match ev
    case DiscardRequest => (h.saveTimer || h.bracket.None?) && h.snapshot.liveSessions == []
    case FinishRequest =>
      || h.disk.None?
      || ((h.bracket.None? || (h.saveTimer && !HoldsCourts(h))) && h.snapshot.liveSessions == [])
    case SetupReset => h.bracket.None? && (h.persistTimer || Sessions(h.courts) == [])
    case _ => true
  }

  // What freeing the bracket's courts leaves pending.
  lemma FreeingMeans(h: Hub)
    requires Durable(h)
    ensures Durable(AllReleased(h)) && AllReleased(h).snapshot.liveSessions == h.snapshot.liveSessions
    ensures AllReleased(h).bracket.Some? == h.bracket.Some?
    ensures AllReleased(h).persistTimer <==> h.persistTimer || FreesACourt(h)
    ensures AllReleased(h).saveTimer <==> h.saveTimer && !HoldsCourts(h)
    ensures !FreesACourt(h) ==> AllReleased(h).courts == h.courts
  {
    ReleasedWrites(h);
    if h.bracket.Some? && !FreesACourt(h) {
      NothingToRelease(h.courts, BoundCourts(h.bracket.value));
    }
  }

  lemma FinishDurableIff(h: Hub)
    requires Durable(h)
    ensures Durable(OnFinish(h)) <==> Harmless(h, FinishRequest)
  {
    FreeingMeans(h);
    SessionsOfClubs(h.courts);
  }

  lemma DiscardDurableIff(h: Hub)
    requires Durable(h)
    ensures Durable(OnDiscard(h)) <==> Harmless(h, DiscardRequest)
  {
  }

  lemma SetupResetDurableIff(h: Hub)
    requires Durable(h)
    ensures Durable(OnSetupReset(h)) <==> Harmless(h, SetupReset)
  {
  }

  lemma OthersDurable(h: Hub, ev: Event)
    requires EngineOk(h.bracket) && Durable(h) && !Wipes(ev)
    ensures Durable(Handle(h, ev))
  {
    EventSaves(h, ev);
  }

  // Each wiping request keeps saving sound if and only if it was harmless.
  lemma HandleDurableIff(h: Hub, ev: Event)
    requires EngineOk(h.bracket) && Durable(h)
    ensures Durable(Handle(h, ev)) <==> Harmless(h, ev)
  {
    match ev
    case FinishRequest => FinishDurableIff(h);
    case DiscardRequest => DiscardDurableIff(h);
    case SetupReset => SetupResetDurableIff(h);
    case _ => OthersDurable(h, ev);
  }

  // ---- over every run ----

  ghost predicate Good(h: Hub) { Sane(h) && Durable(h) }

  lemma HandleGoodIff(h: Hub, ev: Event)
    requires Good(h) && Allowed(ev)
    ensures Good(Handle(h, ev)) <==> Harmless(h, ev)
  {
    HandleSane(h, ev);
    HandleDurableIff(h, ev);
  }

  // No wiping request of the run loses anything.
  ghost predicate HarmlessRun(h: Hub, evs: seq<Event>)
    requires EngineOk(h.bracket)
    decreases evs
  {
    evs != [] ==>
      && Harmless(h, evs[0])
      && (EventIsEngineRun(h, evs[0]); HarmlessRun(Handle(h, evs[0]), evs[1..]))
  }

  // Every interleaving of requests, court results, timers and flushes keeps statuses coherent,
  // bindings exclusive and saving sound, so long as the wiping requests in it are harmless.
  lemma {:induction false} EveryRunIsGood(h: Hub, evs: seq<Event>)
    requires Good(h) && AllAllowed(evs) && HarmlessRun(h, evs)
    ensures Good(HubRun(h, evs))
    decreases evs
  {
    if evs != [] {
      assert Allowed(evs[0]);
      EventIsEngineRun(h, evs[0]);
      HandleGoodIff(h, evs[0]);
      assert forall i | 0 <= i < |evs[1..]| :: evs[1..][i] == evs[i + 1];
      EveryRunIsGood(Handle(h, evs[0]), evs[1..]);
    }
  }

  // Some event of the run writes this part of the document.
  ghost predicate WritesBoth(h: Hub, evs: seq<Event>, bracket: bool, sessions: bool)
    requires EngineOk(h.bracket)
    decreases evs
  {
    if evs == [] then bracket && sessions
    else
      EventIsEngineRun(h, evs[0]);
      WritesBoth(Handle(h, evs[0]), evs[1..],
                 bracket || BracketWritten(h, evs[0]), sessions || SessionsWritten(h, evs[0]))
  }

  // And after a harmful one everything is sound again once both writers have written, in whichever
  // order and whatever else happens, until the next wiping request.
  lemma {:induction false} RunRecovers(h: Hub, evs: seq<Event>, bracket: bool, sessions: bool)
    requires Sane(h) && AllAllowed(evs) && forall i | 0 <= i < |evs| :: !Wipes(evs[i])
    requires (bracket ==> BracketSaved(h)) && (sessions ==> SessionsSaved(h))
    requires WritesBoth(h, evs, bracket, sessions)
    ensures Good(HubRun(h, evs))
    decreases evs
  {
    if evs != [] {
      assert Allowed(evs[0]) && !Wipes(evs[0]);
      EventIsEngineRun(h, evs[0]);
      HandleSane(h, evs[0]);
      EventSaves(h, evs[0]);
      assert forall i | 0 <= i < |evs[1..]| :: evs[1..][i] == evs[i + 1];
      RunRecovers(Handle(h, evs[0]), evs[1..],
                  bracket || BracketWritten(h, evs[0]), sessions || SessionsWritten(h, evs[0]));
    }
  }

  // Neither writer loses the other one's latest data. After any such run: no event but a session
  // save touches the sessions on disk; a session save leaves there the engine's bracket and the
  // current sessions; and without a bracket save pending the disk has the engine's bracket.
  lemma NoWriteLosesTheOther(h: Hub, evs: seq<Event>, ev: Event)
    requires Good(h) && AllAllowed(evs) && HarmlessRun(h, evs) && Allowed(ev) && !Wipes(ev)
    ensures var before := HubRun(h, evs);
            var after := Handle(before, ev);
            var saves := SessionsWritten(before, ev);
            && DiskSessions(after) == (if saves then Sessions(before.courts) else DiskSessions(before))
            && (saves ==> after.bracket == before.bracket && DiskBracket(after) == before.bracket)
            && (!after.saveTimer ==> DiskBracket(after) == after.bracket)
  {
    EveryRunIsGood(h, evs);
    EventSaves(HubRun(h, evs), ev);
  }

  // ---- shutdown ----

  // The shutdown pair, in the order the server runs it: sessions, then the pending bracket save.
  function ShutDown(h: Hub): Hub { SaveTimerFires(PersistSessions(h)) }

  // Whether, after a run, a club setup reset has put the snapshot behind a live bracket and nothing
  // has written the bracket since.
  function Behind(h: Hub, evs: seq<Event>, behind: bool): bool
    requires EngineOk(h.bracket)
    decreases evs
  {
    if evs == [] then behind
    else
      EventIsEngineRun(h, evs[0]);
      Behind(Handle(h, evs[0]), evs[1..],
             if evs[0].SetupReset? then h.bracket.Some? else behind && !BracketWritten(h, evs[0]))
  }

  lemma {:induction false} BehindIsOutOfStep(h: Hub, evs: seq<Event>)
    requires EngineOk(h.bracket)
    ensures InStep(HubRun(h, evs)) <==> !Behind(h, evs, !InStep(h))
    decreases evs
  {
    if evs != [] {
      EventIsEngineRun(h, evs[0]);
      EventInStep(h, evs[0]);
      BehindIsOutOfStep(Handle(h, evs[0]), evs[1..]);
    }
  }

  // After any run at all, the two flushes of a shutdown leave on disk the current sessions, and the
  // current bracket exactly unless a club setup reset has put the snapshot behind.
  lemma ShutdownAfterAnyRun(h: Hub, evs: seq<Event>)
    requires EngineOk(h.bracket) && InStep(h)
    ensures var h' := HubRun(h, evs);
            && ShutDown(h') == Handle(Handle(h', FlushSessions), FlushBracket)
            && DiskSessions(ShutDown(h')) == Sessions(h'.courts)
            && (DiskBracket(ShutDown(h')) == h'.bracket <==> !Behind(h, evs, false))
  {
    BehindIsOutOfStep(h, evs);
  }

  // ---- what the wiping requests lose, and what comes back ----

  // The discarded document is back in the file once the pending timers have fired, exactly when
  // one was pending; and then the discard has made no difference.
  lemma DiscardLastsIff(h: Hub)
    ensures var later := PersistTimerFires(SaveTimerFires(OnDiscard(h)));
            && (later.disk.None? <==> !h.saveTimer && !h.persistTimer)
            && (later.disk.Some? ==> later == PersistTimerFires(SaveTimerFires(h)))
    ensures PersistNow(OnDiscard(h)) == PersistNow(h) && PersistSessions(OnDiscard(h)) == PersistSessions(h)
  {
  }

  // Finishing keeps the bracket for display. With the pending timers run out it is on disk exactly
  // if there is none, or some save was left pending: a session save from before or from freeing a
  // court, or a bracket save from before that freeing the bracket's courts had not already made.
  lemma FinishLosesBracketIff(h: Hub)
    requires Durable(h) && h.disk.Some?
    ensures OnFinish(h).bracket.Some? == h.bracket.Some?
    ensures DiskBracket(PersistTimerFires(SaveTimerFires(OnFinish(h)))) == OnFinish(h).bracket
       <==> h.bracket.None? || h.persistTimer || FreesACourt(h) || (h.saveTimer && !HoldsCourts(h))
  {
    FreeingMeans(h);
  }

  // The next bracket save writes back the rows last collected, those of the courts just dropped
  // included. They stay until a session save, which is pending exactly if one was before or a court
  // was freed; so with both timers run out the rows are those of the courts still there if and only
  // if a session save was pending, or a court was freed, or only club courts had a row.
  lemma FinishedSessionsStayIff(h: Hub)
    requires Durable(h) && h.disk.Some?
    ensures DiskSessions(PersistNow(OnFinish(h))) == h.snapshot.liveSessions
    ensures DiskSessions(PersistTimerFires(PersistNow(OnFinish(h)))) == Sessions(OnFinish(h).courts)
       <==> || h.persistTimer || FreesACourt(h)
            || forall i | 0 <= i < |h.courts| && Serialize(h.courts[i]).Some? :: IsClub(h.courts[i])
  {
    FreeingMeans(h);
    SessionsOfClubs(h.courts);
  }

  // Setting the club up afresh wipes bracket and rows from snapshot and file, but the engine keeps
  // the bracket and the courts keep their flows: any later bracket save writes the bracket back, any
  // later session save the rows, and a shutdown in between loses the bracket.
  lemma SetupResetIsUndone(h: Hub)
    ensures var h' := OnSetupReset(h);
            && h'.bracket == h.bracket && h'.courts == h.courts
            && DiskBracket(h') == None && DiskSessions(h') == []
            && DiskBracket(PersistNow(h')) == h.bracket
            && DiskSessions(PersistSessions(h')) == Sessions(h.courts)
            && (DiskBracket(ShutDown(h')) == h.bracket <==> h.bracket.None?)
  {
  }

  lemma SessionsOneMore(courts: seq<Court>, c: Court)
    ensures Sessions(courts + [c]) == Sessions(courts) + if Serialize(c).Some? then [Serialize(c).value] else []
    ensures ClubCourts(courts + [c]) == ClubCourts(courts) + if IsClub(c) then [c] else []
  {
    assert (courts + [c])[..|courts|] == courts;
  }

  lemma {:induction false} SessionsOfClubs(courts: seq<Court>)
    ensures |Sessions(ClubCourts(courts))| <= |Sessions(courts)|
    ensures Sessions(ClubCourts(courts)) == Sessions(courts)
       <==> forall i | 0 <= i < |courts| && Serialize(courts[i]).Some? :: IsClub(courts[i])
    ensures |Sessions(ClubCourts(courts))| == |Sessions(courts)| ==> Sessions(ClubCourts(courts)) == Sessions(courts)
    decreases courts
  {
    if courts != [] {
      var init, c := courts[..|courts| - 1], courts[|courts| - 1];
      SessionsOfClubs(init);
      assert courts == init + [c];
      SessionsOneMore(init, c);
      if IsClub(c) {
        SessionsOneMore(ClubCourts(init), c);
      } else {
        assert ClubCourts(courts) == ClubCourts(init);
      }
      assert forall i | 0 <= i < |init| :: courts[i] == init[i];
    }
  }
}
