// Server runs after which the file holds what it should not, or lacks what it should hold, with no
// save pending that would put it right.

module HubExamples {
  import opened Types
  import opened BracketSpec
  import opened BracketOps
  import opened CourtSpec
  import opened HubSpec
  import opened HubRuns
  import opened HubPersistence
  import opened HubRestart

  const RECORD := CourtRecord("c1", 1, "Mesa 1", InService)

  function OneCourt(): Catalog { map["c1" := RECORD] }

  // A court of the catalog with a tournament match running on it.
  function BusyCourt(): Court { FreshCourt(RECORD, "1234").(flow := Some(TournamentFlow(0)), status := MatchSpec.Live) }

  function Row(): Session { Serialize(BusyCourt()).value }

  const EMPTY := Document([], None)
  const ROW_ONLY := Document([Row()], None)

  // A server started without a file.
  function Started(): Hub { Hub(None, false, map[], EMPTY, None, [], false, OneCourt()) }

  lemma StartedIsRestart(newPin: string -> string)
    ensures Started() == Restart(None, OneCourt(), newPin) && Good(Started())
  {
    RestartCourts(EMPTY, OneCourt(), newPin);
    RestartIsGoodIff(None, OneCourt(), newPin);
  }

  function CreateOpen(): Event { Event.Create(true, "open", 4, false, 0) }

  // The court gets its match, and the session timer runs out.
  function Played(): seq<Event> { [CourtsChange([BusyCourt()]), PersistTimer] }

  lemma RunAppend(h: Hub, evs: seq<Event>, ev: Event)
    requires EngineOk(h.bracket)
    ensures HubRun(h, evs + [ev]) == Handle(HubRun(h, evs), ev)
    decreases evs
  {
    EventIsEngineRun(h, (evs + [ev])[0]);
    if evs == [] {
      assert [ev][1..] == [] && evs + [ev] == [ev];
      assert HubRun(h, [ev]) == HubRun(Handle(h, ev), []);
    } else {
      assert (evs + [ev])[1..] == evs[1..] + [ev];
      RunAppend(Handle(h, evs[0]), evs[1..], ev);
    }
  }

  lemma RunOfOne(h: Hub, ev: Event)
    requires EngineOk(h.bracket)
    ensures HubRun(h, [ev]) == Handle(h, ev)
  {
    RunAppend(h, [], ev);
    assert [] + [ev] == [ev];
  }

  lemma RowOfBusyCourt()
    ensures Serialize(BusyCourt()) == Some(Row()) && Sessions([BusyCourt()]) == [Row()]
  {
    assert [BusyCourt()][..0] == [];
    assert Sessions([BusyCourt()]) == Sessions([]) + [Row()] == [Row()];
  }

  // The session timer runs out with the busy court there.
  lemma RowWritten(h: Hub)
    requires h.courts == [BusyCourt()] && h.persistTimer
    ensures PersistTimerFires(h) == h.(persistTimer := false, snapshot := h.snapshot.(liveSessions := [Row()]),
                                       disk := Some(h.snapshot.(liveSessions := [Row()])))
  {
    RowOfBusyCourt();
  }

  function Saved(): Hub { Started().(courts := [BusyCourt()], snapshot := ROW_ONLY, disk := Some(ROW_ONLY)) }

  // The busy court is changed, and the session timer runs out.
  function RowIn(h: Hub): Hub {
    var doc := h.snapshot.(liveSessions := [Row()]);
    h.(courts := [BusyCourt()], persistTimer := false, snapshot := doc, disk := Some(doc))
  }

  lemma CourtSteps(h: Hub)
    requires h.bracket.None?
    ensures Handle(Handle(h, CourtsChange([BusyCourt()])), PersistTimer) == RowIn(h)
  {
    RowWritten(h.(courts := [BusyCourt()], persistTimer := true));
  }

  lemma CourtSaved(evs: seq<Event>, h: Hub)
    requires h.bracket.None? && HubRun(Started(), evs) == h
    ensures HubRun(Started(), evs + [CourtsChange([BusyCourt()])] + [PersistTimer]) == RowIn(h)
  {
    RunAppend(Started(), evs, CourtsChange([BusyCourt()]));
    RunAppend(Started(), evs + [CourtsChange([BusyCourt()])], PersistTimer);
    CourtSteps(h);
  }

  lemma SavedRow()
    ensures HubRun(Started(), Played()) == Saved()
  {
    CourtSaved([], Started());
    assert [] + [CourtsChange([BusyCourt()])] + [PersistTimer] == Played();
  }

  // ---- finishing ----

  // With no bracket there is nothing to free.
  lemma FinishedIs()
    ensures OnFinish(Saved()) == Saved().(courts := [], disk := None)
  {
    assert [BusyCourt()][..0] == [];
    assert ClubCourts([BusyCourt()]) == ClubCourts([]) + [];
  }

  lemma CreatedIs(h: Hub)
    requires h.bracket.None? && h.catalog == OneCourt()
    ensures Handle(h, CreateOpen()).bracket.Some?
    ensures Handle(h, CreateOpen()) == PersistNow(h.(bracket := Handle(h, CreateOpen()).bracket))
    ensures BoundCourts(Handle(h, CreateOpen()).bracket.value) == {}
  {
    assert Exists(OneCourt(), "c1");
    var b := BracketSpec.Create("open", 4, false, 0).value;
    CreateWellFormed("open", 4, false, 0);
    forall i | 0 <= i < |b.matches|
      ensures !b.matches[i].HasCourt()
    {
      assert b.matches[i] == Get(b, Main(i));
    }
  }

  // The tournament is finished, the next one is created: the file has the row of a court that is
  // gone, and no session save is pending.
  lemma FinishedRowIsBack() returns (h: Hub)
    ensures h == HubRun(Started(), Played() + [FinishRequest] + [CreateOpen()])
    ensures h.bracket.Some? && h.courts == [] && !h.persistTimer && DiskSessions(h) == [Row()]
  {
    SavedRow();
    FinishedIs();
    RunAppend(Started(), Played(), FinishRequest);
    RunAppend(Started(), Played() + [FinishRequest], CreateOpen());
    CreatedIs(OnFinish(Saved()));
    h := Handle(OnFinish(Saved()), CreateOpen());
  }

  // A bracket is created, and the tournament finished: the bracket is still on display, and neither
  // is it on disk nor is any save pending.
  lemma FinishedBracketIsLost() returns (h: Hub)
    ensures h == HubRun(Started(), [CreateOpen()] + [FinishRequest])
    ensures h.bracket.Some? && DiskBracket(h) == None && !h.saveTimer && !h.persistTimer
  {
    CreatedIs(Started());
    RunOfOne(Started(), CreateOpen());
    RunAppend(Started(), [CreateOpen()], FinishRequest);
    var h1 := Handle(Started(), CreateOpen());
    ReleasedWrites(h1);
    h := OnFinish(h1);
  }

  // ---- setting the club up afresh ----

  function AfterSetup(): seq<Event> { Played() + [SetupReset] + [CourtsChange([BusyCourt()])] + [PersistTimer] }

  function Wiped(): Hub { Saved().(catalog := map[], snapshot := EMPTY, disk := Some(EMPTY)) }

  lemma RowIsWiped()
    ensures HubRun(Started(), Played() + [SetupReset]) == Wiped()
  {
    SavedRow();
    RunAppend(Started(), Played(), SetupReset);
  }

  lemma RowIsBack()
    ensures HubRun(Started(), AfterSetup()) == Saved().(catalog := map[])
  {
    RowIsWiped();
    CourtSaved(Played() + [SetupReset], Wiped());
  }

  lemma SavedIsGood()
    ensures Good(Saved().(catalog := map[]))
  {
    RowOfBusyCourt();
  }

  // The club is set up afresh while a match runs, the match goes on, its row is saved again; after a
  // restart the court is not back, its row is still in the file, and no save is pending.
  lemma GhostRowStays(newPin: string -> string) returns (h: Hub, on: Hub)
    ensures h == HubRun(Started(), AfterSetup()) && Good(h)
    ensures on == Restart(h.disk, h.catalog, newPin)
    ensures on.courts == [] && !on.persistTimer && DiskSessions(on) == [Row()] && !Good(on)
  {
    RowIsBack();
    SavedIsGood();
    h := Saved().(catalog := map[]);
    on := Restart(h.disk, h.catalog, newPin);
    RestartCourts(ROW_ONLY, map[], newPin);
    RestartIsGoodIff(h.disk, map[], newPin);
  }

  // A bracket is created and the club set up afresh: the shutdown that follows loses the bracket.
  lemma SetupResetLosesBracket() returns (h: Hub)
    ensures h == HubRun(Started(), [CreateOpen()] + [SetupReset])
    ensures h.bracket.Some? && DiskBracket(ShutDown(h)) == None
  {
    CreatedIs(Started());
    RunOfOne(Started(), CreateOpen());
    RunAppend(Started(), [CreateOpen()], SetupReset);
    h := OnSetupReset(Handle(Started(), CreateOpen()));
    SetupResetIsUndone(Handle(Started(), CreateOpen()));
  }
}
