// The server a restart makes of the file on disk: when it is sound again, and what a shutdown and a
// restart keep of a running server.

module HubRestart {
  import opened Types
  import opened BracketSpec
  import opened CourtSpec
  import opened HubSpec
  import opened HubRuns
  import opened HubPersistence

  // What a restart finds on disk.
  function Loaded(disk: Option<Document>): Document { if disk.Some? then disk.value else Document([], None) }

  // The server a restart makes of the file on disk.
  function Restart(disk: Option<Document>, catalog: Catalog, newPin: string -> string): Hub {
    var doc := Loaded(disk);
    var courts := AfterRestart([], catalog, doc, doc.bracket, newPin);
    Hub(doc.bracket, false, map[], doc, disk, courts, courts != [], catalog)
  }

  // The file names a court that will be there: a saved flow of a cataloged court, or a court in
  // service that the bracket holds.
  predicate BringsACourt(doc: Document, catalog: Catalog) {
    || (exists i | 0 <= i < |doc.liveSessions| :: Restorable(doc.liveSessions[i], catalog))
    || (doc.bracket.Some? && exists id | id in BoundCourts(doc.bracket.value) :: Exists(catalog, id))
  }

  lemma RestartCourts(doc: Document, catalog: Catalog, newPin: string -> string)
    ensures UniqueIds(AfterRestart([], catalog, doc, doc.bracket, newPin))
    ensures AfterRestart([], catalog, doc, doc.bracket, newPin) != [] <==> BringsACourt(doc, catalog)
  {
    var courts := AfterRestart([], catalog, doc, doc.bracket, newPin);
    RestartExactly(catalog, doc, doc.bracket, newPin, if courts == [] then "" else courts[0].id);
    if courts != [] {
      assert Known(courts, courts[0].id);
    } else if i :| 0 <= i < |doc.liveSessions| && Restorable(doc.liveSessions[i], catalog) {
      RestartExactly(catalog, doc, doc.bracket, newPin, doc.liveSessions[i].courtId);
    } else if doc.bracket.Some? {
      forall id | id in BoundCourts(doc.bracket.value)
        ensures !Exists(catalog, id)
      {
        RestartExactly(catalog, doc, doc.bracket, newPin, id);
      }
    }
  }

  // A restart from a sound disk is sound again if and only if the file has no rows or names a court
  // that will be there. Otherwise its rows, of courts no longer cataloged, stay in the file with no
  // save pending.
  lemma RestartIsGoodIff(disk: Option<Document>, catalog: Catalog, newPin: string -> string)
    requires disk.Some? ==> BracketGood(disk.value.bracket)
    ensures Good(Restart(disk, catalog, newPin))
       <==> disk.None? || disk.value.liveSessions == [] || BringsACourt(disk.value, catalog)
  {
    RestartCourts(Loaded(disk), catalog, newPin);
  }

  // Shut down at any moment of any run and start again with whatever catalog there is then: the
  // courts that had a flow and are still cataloged are there first, in order, each as a restart
  // makes it, and the bracket is the same exactly unless a club setup reset has put the snapshot
  // behind.
  lemma ShutdownAndRestart(h: Hub, evs: seq<Event>, catalog: Catalog, newPin: string -> string)
    requires Sane(h) && InStep(h) && AllAllowed(evs)
    ensures var h' := HubRun(h, evs);
            var on, kept := Restart(ShutDown(h').disk, catalog, newPin), ComingBack(h'.courts, catalog);
            && (on.bracket == h'.bracket <==> !Behind(h, evs, false))
            && |kept| <= |on.courts|
            && forall k | 0 <= k < |kept| :: BroughtBack(catalog, kept[k], on.courts[k])
  {
    EveryRunIsSane(h, evs);
    ShutdownAfterAnyRun(h, evs);
    var h' := HubRun(h, evs);
    SaveRestartRoundTrip(h'.courts, catalog);
    var doc := Loaded(ShutDown(h').disk);
    var back := RestoredSessions([], catalog, Sessions(h'.courts));
    RestoredKnown(catalog, Sessions(h'.courts), "");
    if doc.bracket.Some? {
      EnsuredAllKnown(back, catalog, Assigned(doc.bracket.value), newPin, "");
    }
  }
}
