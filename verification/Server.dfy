// Starting and stopping the server: the coordinator is seeded from the file, the handler hydrates
// the engine from it, the courts are restored; at shutdown both pending saves are flushed. And what
// reaches the objects past the handler: the session timer and the wiping requests.

module Server {
  import opened Types
  import opened BracketOps
  import opened CourtSpec
  import opened HubSpec
  import opened HubRuns
  import opened HubPersistence
  import opened HubRestart
  import C = CourtManager
  import H = BracketHandler

  // Before the courts are restored: the engine has the bracket of the file, whatever it is.
  method Hydrate(loaded: Option<Document>, catalog: Catalog, newPin: string -> string)
    returns (handler: H.BracketHandler)
    ensures handler.Wired() && fresh(handler.Footprint()) && handler.tableManager.newPin == newPin
    ensures var doc := Loaded(loaded);
            handler.State() == Hub(doc.bracket, false, map[], doc, loaded, [], false, catalog)
  {
    var store := new C.PersistenceCoordinator(loaded);
    var courtManager := new C.CourtManager(store, catalog, newPin);
    handler := new H.BracketHandler(store, courtManager);
  }

  method RestoreCourts(handler: H.BracketHandler)
    requires handler.Wired() && handler.State().courts == [] && !handler.State().persistTimer
    requires handler.State().snapshot == Loaded(handler.State().disk)
    modifies handler.tableManager
    ensures handler.Wired()
    ensures var h := old(handler.State());
            var courts := AfterRestart([], h.catalog, h.snapshot, h.snapshot.bracket, handler.tableManager.newPin);
            handler.State() == h.(courts := courts, persistTimer := courts != [])
  {
    RestartCourts(handler.store.snapshot, handler.tableManager.catalog, handler.tableManager.newPin);
    var restored := handler.tableManager.RestoreState();
  }

  method Start(loaded: Option<Document>, catalog: Catalog, newPin: string -> string) returns (handler: H.BracketHandler)
    ensures handler.Wired() && fresh(handler.Footprint())
    ensures handler.State() == Restart(loaded, catalog, newPin)
    ensures EngineOk(Loaded(loaded).bracket) ==> handler.Valid()
  {
    handler := Hydrate(loaded, catalog, newPin);
    RestoreCourts(handler);
  }

  method Shutdown(handler: H.BracketHandler)
    requires handler.Wired()
    modifies handler.Footprint()
    ensures handler.Wired() && handler.State() == ShutDown(old(handler.State()))
  {
    handler.tableManager.Flush();
    handler.FlushPending();
  }

  // ---- the session timer, and the requests that wipe the file or the shared document ----

  // A timer that has been cleared does not run out.
  method OnPersistTimer(handler: H.BracketHandler)
    requires handler.Wired() && handler.State().persistTimer
    modifies handler.tableManager, handler.store
    ensures handler.Wired() && handler.State() == PersistTimerFires(old(handler.State()))
  {
    handler.tableManager.OnPersistTimer();
  }

  method Discard(handler: H.BracketHandler)
    requires handler.Wired()
    modifies handler.store
    ensures handler.Wired() && handler.State() == OnDiscard(old(handler.State()))
  {
    handler.store.Clear();
  }

  // Without a file there is nothing to finish.
  method Finish(handler: H.BracketHandler) returns (finished: bool)
    requires handler.Valid()
    modifies handler.Footprint()
    ensures handler.Valid() && handler.State() == OnFinish(old(handler.State()))
    ensures finished <==> old(handler.State()).disk.Some?
  {
    if handler.store.disk.None? { return false; }
    var released := handler.ReleaseAllCourts();
    Discard(handler);
    DropCourts(handler);
    finished := true;
  }

  method DropCourts(handler: H.BracketHandler)
    requires handler.Wired()
    modifies handler.store, handler.tableManager
    ensures handler.Wired()
    ensures var h := old(handler.State()); handler.State() == h.(courts := ClubCourts(h.courts), disk := None)
  {
    ClubsAreCourts(handler.tableManager.courts, 0);
    handler.tableManager.FinishTournament();
  }

  method SetUpAfresh(handler: H.BracketHandler)
    requires handler.Wired()
    modifies handler.store, handler.tableManager
    ensures handler.Wired() && handler.State() == OnSetupReset(old(handler.State()))
  {
    handler.tableManager.ClearCatalog();
    WipeDocument(handler);
  }

  method WipeDocument(handler: H.BracketHandler)
    requires handler.Wired()
    modifies handler.store
    ensures handler.Wired()
    ensures var wiped := Document([], None);
            handler.State() == old(handler.State()).(snapshot := wiped, disk := Some(wiped))
  {
    handler.store.SetSessions([]);
    handler.store.SetBracket(None);
    handler.store.Flush();
  }
}
