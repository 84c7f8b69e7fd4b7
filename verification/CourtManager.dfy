// The single-writer coordinator of the state file, and the persist and restore half of the court
// manager.

module CourtManager {
  import opened Types
  import opened BracketSpec
  import opened CourtSpec

  // Owns the document in memory; the file on disk is only ever overwritten with all of it.
  class PersistenceCoordinator {
    var snapshot: Document
    var disk: Option<Document>

    constructor (loaded: Option<Document>)
      ensures disk == loaded
      ensures snapshot == if loaded.Some? then loaded.value else Document([], None)
    {
      disk := loaded;
      snapshot := if loaded.Some? then loaded.value else Document([], None);
    }

    function GetBracket(): Option<Bracket>
      reads this
    {
      snapshot.bracket
    }

    method SetBracket(bracket: Option<Bracket>)
      modifies this
      ensures snapshot == old(snapshot).(bracket := bracket) && disk == old(disk)
    {
      snapshot := snapshot.(bracket := bracket);
    }

    method SetSessions(sessions: seq<Session>)
      modifies this
      ensures snapshot == old(snapshot).(liveSessions := sessions) && disk == old(disk)
    {
      snapshot := snapshot.(liveSessions := sessions);
    }

    method Flush()
      modifies this
      ensures disk == Some(snapshot) && snapshot == old(snapshot)
    {
      disk := Some(snapshot);
    }

    // Deletes the file; the document in memory stays.
    method Clear()
      modifies this
      ensures disk == None && snapshot == old(snapshot)
    {
      disk := None;
    }
  }

  class CourtManager {
    const coordinator: PersistenceCoordinator
    const newPin: string -> string
    var courts: seq<Court>
    var persistTimer: bool
    var catalog: Catalog

    constructor (coordinator: PersistenceCoordinator, catalog: Catalog, newPin: string -> string)
      ensures this.coordinator == coordinator && this.catalog == catalog && this.newPin == newPin
      ensures courts == [] && !persistTimer
    {
      this.coordinator, this.catalog, this.newPin := coordinator, catalog, newPin;
      courts, persistTimer := [], false;
    }

    function GetCourt(courtId: string): Option<Court>
      reads this
    {
      match CourtIndex(courts, courtId)
      case Some(i) => Some(courts[i])
      case None => None
    }

    // ---- saving ----

    method SchedulePersist()
      modifies this`persistTimer
      ensures persistTimer
    {
      persistTimer := true;
    }

    method PersistState()
      modifies coordinator
      ensures coordinator.snapshot == old(coordinator.snapshot).(liveSessions := Sessions(courts))
      ensures coordinator.disk == Some(coordinator.snapshot)
    {
      var sessions: seq<Session> := [];
      for k := 0 to |courts|
        invariant sessions == Sessions(courts[..k])
      {
        assert courts[..k + 1][..k] == courts[..k];
        var session := Serialize(courts[k]);
        if session.Some? {
          sessions := sessions + [session.value];
        }
      }
      assert courts[..|courts|] == courts;
      coordinator.SetSessions(sessions);
      coordinator.Flush();
    }

    // The timer has run out.
    method OnPersistTimer()
      requires persistTimer
      modifies this`persistTimer, coordinator
      ensures !persistTimer
      ensures coordinator.snapshot == old(coordinator.snapshot).(liveSessions := Sessions(courts))
      ensures coordinator.disk == Some(coordinator.snapshot)
    {
      persistTimer := false;
      PersistState();
    }

    method Flush()
      modifies this`persistTimer, coordinator
      ensures !persistTimer
      ensures coordinator.snapshot == old(coordinator.snapshot).(liveSessions := Sessions(courts))
      ensures coordinator.disk == Some(coordinator.snapshot)
    {
      persistTimer := false;
      PersistState();
    }

    // ---- courts for the bracket ----

    method EnsureRuntimeTournamentCourt(courtId: string) returns (ready: bool)
      modifies this
      ensures catalog == old(catalog)
      ensures courts == Ensured(old(courts), catalog, courtId, newPin(courtId))
      ensures |courts| ==
                |old(courts)| + (if CourtIndex(old(courts), courtId).None? && Exists(catalog, courtId) then 1 else 0)
      ensures ready == (CourtIndex(old(courts), courtId).Some? || Exists(catalog, courtId))
      ensures persistTimer ==
                (old(persistTimer) || (CourtIndex(old(courts), courtId).None? && Exists(catalog, courtId)))
    {
      if CourtIndex(courts, courtId).Some? { return true; }
      if !Exists(catalog, courtId) { return false; }
      courts := PutCourt(courts, FreshCourt(catalog[courtId], newPin(courtId)));
      SchedulePersist();
      ready := true;
    }

    method ReleaseCourtFlow(courtId: string)
      modifies this
      ensures catalog == old(catalog)
      ensures courts == CourtReleased(old(courts), courtId)
      ensures persistTimer == (old(persistTimer) || CourtIndex(old(courts), courtId).Some?)
    {
      var i := CourtIndex(courts, courtId);
      if i.None? { return; }
      courts := courts[i.value := FlowReleased(courts[i.value])];
      SchedulePersist();
    }

    // ---- finishing and setting up afresh ----

    // Drops the tournament courts and the file.
    method FinishTournament()
      modifies this`courts, coordinator
      ensures courts == ClubCourts(old(courts))
      ensures coordinator.disk == None && coordinator.snapshot == old(coordinator.snapshot)
    {
      var kept: seq<Court> := [];
      for k := 0 to |courts|
        invariant courts == old(courts) && kept == ClubCourts(courts[..k])
      {
        assert courts[..k + 1][..k] == courts[..k];
        if IsClub(courts[k]) {
          kept := kept + [courts[k]];
        }
      }
      assert courts[..|courts|] == courts;
      courts := kept;
      coordinator.Clear();
    }

    method ClearCatalog()
      modifies this`catalog
      ensures catalog == map[]
    {
      catalog := map[];
    }

    // ---- restart ----

    // Courts of the saved flows whose court is still cataloged.
    method RestoreSessions(sessions: seq<Session>) returns (restored: nat)
      modifies this`courts
      ensures courts == RestoredSessions(old(courts), catalog, sessions)
      ensures restored > 0 <==> exists i :: 0 <= i < |sessions| && Restorable(sessions[i], catalog)
    {
      restored := 0;
      ghost var before := courts;
      for k := 0 to |sessions|
        invariant courts == RestoredSessions(before, catalog, sessions[..k])
        invariant restored > 0 <==> exists i :: 0 <= i < k && Restorable(sessions[i], catalog)
      {
        var session := sessions[k];
        assert sessions[..k + 1][..k] == sessions[..k];
        if session.flow.Some? && session.courtId in catalog {
          courts := PutCourt(courts, RestoredCourt(session, catalog[session.courtId]));
          restored := restored + 1;
        }
      }
      assert sessions[..|sessions|] == sessions;
    }

    // The courts the bracket names, each once.
    method AssignedCourts(b: Bracket) returns (bound: seq<string>)
      ensures bound == Assigned(b)
    {
      bound := [];
      var all := b.matches + if b.thirdPlace.Some? then [b.thirdPlace.value] else [];
      for k := 0 to |all|
        invariant bound == AssignedIn(all[..k])
      {
        assert all[..k + 1][..k] == all[..k];
        if all[k].HasCourt() && all[k].courtId.value !in bound {
          bound := bound + [all[k].courtId.value];
        }
      }
      assert all[..|all|] == all;
    }

    // Courts the bracket names that are in service but have no runtime entry yet.
    method EnsureBound(bound: seq<string>) returns (created: nat)
      modifies this
      ensures catalog == old(catalog)
      ensures courts == EnsuredAll(old(courts), catalog, bound, newPin)
      ensures |courts| == |old(courts)| + created
      ensures persistTimer == (old(persistTimer) || created > 0)
    {
      created := 0;
      for k := 0 to |bound|
        invariant catalog == old(catalog)
        invariant courts == EnsuredAll(old(courts), catalog, bound[..k], newPin)
        invariant |courts| == |old(courts)| + created && (created == 0 ==> courts == old(courts))
        invariant persistTimer == (old(persistTimer) || created > 0)
      {
        assert bound[..k + 1][..k] == bound[..k];
        if GetCourt(bound[k]).None? {
          var ready := EnsureRuntimeTournamentCourt(bound[k]);
          if ready {
            created := created + 1;
          }
        }
      }
      assert bound[..|bound|] == bound;
    }

    // Nothing readable on disk: nothing restored.
    method RestoreState() returns (any: bool)
      modifies this
      ensures catalog == old(catalog)
      ensures coordinator.disk.None? ==> !any && courts == old(courts)
      ensures coordinator.disk.Some? ==>
        && courts == AfterRestart(old(courts), catalog, coordinator.disk.value, coordinator.snapshot.bracket, newPin)
        && (old(courts) == [] ==> (any <==> courts != []))
      ensures persistTimer == (old(persistTimer) || any)
    {
      if coordinator.disk.None? { return false; }
      var restored := RestoreSessions(coordinator.disk.value.liveSessions);
      if restored > 0 {
        SchedulePersist();
      }
      var created := 0;
      var bracket := coordinator.GetBracket();
      if bracket.Some? {
        var bound := AssignedCourts(bracket.value);
        created := EnsureBound(bound);
      }
      any := restored > 0 || created > 0;
      NothingRestoredIff(catalog, coordinator.disk.value.liveSessions);
    }
  }
}
