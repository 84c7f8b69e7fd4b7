// The server between events: bracket engine, pending saves of the two writers, the document they
// share in memory and on disk, runtime courts and reset tokens; and what each event does to it.

module HubSpec {
  import opened Types
  import opened BracketSpec
  import opened BracketOps
  import opened CourtSpec
  import NameRules

  const RESET_TIMEOUT_MS := 30_000
  const MAX_NAME_LEN := 50

  datatype PendingReset = PendingReset(token: string, expiresAt: int)

  datatype Hub = Hub(
    bracket: Option<Bracket>, saveTimer: bool, pending: map<string, PendingReset>,
    snapshot: Document, disk: Option<Document>,
    courts: seq<Court>, persistTimer: bool, catalog: Catalog)

  // What a request is answered with.
  datatype Reply =
    | Done
    | Token(token: string)
    | Refused(code: Refusal)
    | EngineRefused(error: BracketError)

  datatype Refusal =
    | Unauthorized | CourtInventoryEmpty | InvalidName | InvalidParams | CourtNotFound
    | CourtReserved | CourtBusy | CourtAlreadyAssigned | InvalidToken | ResetExpired

  // ---- writing to the shared document ----

  function WithSnapshotBracket(h: Hub): Hub { h.(snapshot := h.snapshot.(bracket := h.bracket)) }

  function Flushed(h: Hub): Hub { h.(disk := Some(h.snapshot)) }

  function PersistNow(h: Hub): Hub { Flushed(WithSnapshotBracket(h.(saveTimer := false))) }

  function ScheduleSave(h: Hub): Hub { WithSnapshotBracket(h.(saveTimer := true)) }

  // The pending bracket save, whether its timer fires or the shutdown flushes it.
  function SaveTimerFires(h: Hub): Hub { if h.saveTimer then Flushed(h.(saveTimer := false)) else h }

  function PersistSessions(h: Hub): Hub {
    Flushed(h.(persistTimer := false, snapshot := h.snapshot.(liveSessions := Sessions(h.courts))))
  }

  function PersistTimerFires(h: Hub): Hub { if h.persistTimer then PersistSessions(h) else h }

  // ---- court bindings ----

  predicate HeldBy(m: Match, courtId: string) { m.HasCourt() && m.courtId.value == courtId }

  // The last main match holding this court.
  function LastHolder(ms: seq<Match>, courtId: string): (i: Option<nat>)
    ensures i.Some? ==> i.value < |ms| && HeldBy(ms[i.value], courtId)
    ensures i.None? ==> forall k | 0 <= k < |ms| :: !HeldBy(ms[k], courtId)
  {
    if ms == [] then None
    else if HeldBy(ms[|ms| - 1], courtId) then Some(|ms| - 1)
    else LastHolder(ms[..|ms| - 1], courtId)
  }

  // The reverse index: later matches overwrite earlier ones, the third place overwrites all.
  function BoundTo(b: Bracket, courtId: string): (r: Option<Ref>)
    ensures r.Some? ==> Valid(b, r.value) && HeldBy(Get(b, r.value), courtId)
    ensures r.None? ==> forall ref | Valid(b, ref) :: !HeldBy(Get(b, ref), courtId)
  {
    if b.thirdPlace.Some? && HeldBy(b.thirdPlace.value, courtId) then Some(ThirdPlace)
    else match LastHolder(b.matches, courtId)
      case Some(i) => Some(Main(i))
      case None => None
  }

  // Some other match of the bracket already holds this court.
  predicate TakenElsewhere(e: Option<Bracket>, courtId: string, id: string) {
    e.Some? && BoundTo(e.value, courtId).Some? && Get(e.value, BoundTo(e.value, courtId).value).id != id
  }

  // ---- releasing ----

  function CourtsReleased(courts: seq<Court>, ids: set<string>): (r: seq<Court>)
    ensures |r| == |courts|
  {
    seq(|courts|, i requires 0 <= i < |courts| => if courts[i].id in ids then FlowReleased(courts[i]) else courts[i])
  }

  // Every court the bracket holds is given up and its tournament flow ended.
  function Freed(h: Hub): Hub
    requires h.bracket.Some?
  {
    var ids := BoundCourts(h.bracket.value);
    h.(bracket := Some(ReleaseAll(h.bracket.value)), courts := CourtsReleased(h.courts, ids),
       persistTimer := h.persistTimer || exists i :: 0 <= i < |h.courts| && h.courts[i].id in ids)
  }

  // Saved if any court was.
  function AllReleased(h: Hub): Hub {
    if h.bracket.None? then h
    else if BoundCourts(h.bracket.value) == {} then Freed(h)
    else PersistNow(Freed(h))
  }

  function ReleasedIfCompleted(h: Hub): Hub {
    if h.bracket.Some? && h.bracket.value.status == BracketStatus.Finished then AllReleased(h) else h
  }

  // ---- requests of the owner ----

  predicate HasActive(catalog: Catalog) { exists id | id in catalog :: Exists(catalog, id) }

  function OnCreate(h: Hub, owner: bool, name: string, numSlots: int, thirdPlace: bool, now: int): (Hub, Reply)
    requires EngineOk(h.bracket)
  {
    if !owner then (h, Refused(Unauthorized))
    else if !HasActive(h.catalog) then (h, Refused(CourtInventoryEmpty))
    else if |name| > MAX_NAME_LEN then (h, Refused(InvalidName))
    else
      var out := Step(h.bracket, Op.Create(name, numSlots, thirdPlace, now));
      if out.error.Some? then (h, EngineRefused(out.error.value))
      else (PersistNow(h.(bracket := out.bracket)), Done)
  }

  // An engine operation on one match, saved later or at once.
  function OnEngine(h: Hub, owner: bool, id: string, op: MatchOp): (Hub, Reply)
    requires EngineOk(h.bracket)
  {
    if !owner then (h, Refused(Unauthorized))
    else if id == "" then (h, Refused(InvalidParams))
    else
      var out := Step(h.bracket, OnMatch(id, op));
      if out.error.Some? then (h, EngineRefused(out.error.value))
      else
        match op
        case SetWinner(_) => (AfterDecision(h, out.bracket), Done)
        case UndoMatch => (PersistNow(h.(bracket := out.bracket)), Done)
        case _ => (ScheduleSave(h.(bracket := out.bracket)), Done)
  }

  // Too long a name is refused with the engine's own code, before the engine is asked; the others
  // reach it without HTML tags.
  function OnAssignPlayer(h: Hub, owner: bool, id: string, slot: Player, name: string): (Hub, Reply)
    requires EngineOk(h.bracket)
  {
    if !owner then (h, Refused(Unauthorized))
    else if id == "" then (h, Refused(InvalidParams))
    else if |name| > MAX_NAME_LEN then (h, EngineRefused(NameTooLong))
    else OnEngine(h, owner, id, AssignPlayer(slot, NameRules.Sanitized(name)))
  }

  // The guards on binding a court, in order.
  function BindingRefusal(h: Hub, id: string, courtId: Option<string>): Option<Refusal> {
    if id == "" then Some(InvalidParams)
    else if courtId.None? then None
    else if !Exists(h.catalog, courtId.value) then Some(CourtNotFound)
    else if TakenElsewhere(h.bracket, courtId.value, id) then Some(CourtAlreadyAssigned)
    else None
  }

  function OnAssignCourt(h: Hub, owner: bool, id: string, courtId: Option<string>): (Hub, Reply)
    requires EngineOk(h.bracket)
  {
    if !owner then (h, Refused(Unauthorized))
    else if BindingRefusal(h, id, courtId).Some? then (h, Refused(BindingRefusal(h, id, courtId).value))
    else OnEngine(h, owner, id, SetCourt(courtId))
  }

  // Why the runtime court cannot be selected now, if it cannot.
  function InUse(courts: seq<Court>, courtId: string): Option<Refusal> {
    match CourtIndex(courts, courtId)
    case None => None
    case Some(i) =>
      var c := courts[i];
      if c.mode == ClubMode then
        if c.clubStatus == Reserved then Some(CourtReserved)
        else if c.clubStatus == Occupied || c.clubStatus == Over then Some(CourtBusy)
        else None
      else if c.flow.Some? && c.flow.value.TournamentFlow? then Some(CourtBusy)
      else None
  }

  // The guards on selecting a court, in order.
  function SelectRefusal(h: Hub, id: string, courtId: string): Option<Refusal> {
    if id == "" || courtId == "" then Some(InvalidParams)
    else if !Exists(h.catalog, courtId) then Some(CourtNotFound)
    else if InUse(h.courts, courtId).Some? then InUse(h.courts, courtId)
    else if TakenElsewhere(h.bracket, courtId, id) then Some(CourtAlreadyAssigned)
    else None
  }

  function OnSelectTable(h: Hub, owner: bool, id: string, courtId: string, pin: string): (Hub, Reply)
    requires EngineOk(h.bracket)
  {
    if !owner then (h, Refused(Unauthorized))
    else if SelectRefusal(h, id, courtId).Some? then (h, Refused(SelectRefusal(h, id, courtId).value))
    else
      var out := Step(h.bracket, OnMatch(id, SetCourt(Some(courtId))));
      if out.error.Some? then (h, EngineRefused(out.error.value))
      else
        var created := CourtIndex(h.courts, courtId).None?;
        (ScheduleSave(h.(bracket := out.bracket, courts := Ensured(h.courts, h.catalog, courtId, pin),
                         persistTimer := h.persistTimer || created)), Done)
  }

  // Step one issues a token; step two, with that token in time, releases the courts and clears
  // the bracket.
  function OnReset(h: Hub, owner: bool, socket: string, confirm: Option<string>, newToken: string, now: int)
    : (Hub, Reply)
  {
    if !owner then (h, Refused(Unauthorized))
    else if confirm.None? || confirm.value == "" then
      (h.(pending := h.pending[socket := PendingReset(newToken, now + RESET_TIMEOUT_MS)]), Token(newToken))
    else if socket !in h.pending || h.pending[socket].token != confirm.value then (h, Refused(InvalidToken))
    else
      var h1 := h.(pending := h.pending - {socket});
      if now > h.pending[socket].expiresAt then (h1, Refused(ResetExpired))
      else (Flushed(WithSnapshotBracket(AllReleased(h1).(bracket := None))), Done)
  }

  // A decided match is saved at once, and a decided final frees the courts.
  function AfterDecision(h: Hub, e: Option<Bracket>): Hub { ReleasedIfCompleted(PersistNow(h.(bracket := e))) }

  // ---- requests that wipe the file or the shared document ----

  // Discarding deletes the file, under a live server whose shared snapshot stays.
  function OnDiscard(h: Hub): Hub { h.(disk := None) }

  // Finishing frees the bracket's courts, then drops the tournament courts and the file, but not
  // the shared snapshot. Without a file there is nothing to finish.
  function OnFinish(h: Hub): Hub {
    if h.disk.None? then h
    else
      var h1 := AllReleased(h);
      h1.(courts := ClubCourts(h1.courts), disk := None)
  }

  // Setting the club up afresh empties catalog, snapshot and file, but neither the engine nor the
  // runtime courts.
  function OnSetupReset(h: Hub): Hub { Flushed(h.(catalog := map[], snapshot := Document([], None))) }

  // ---- from the courts ----

  // The second engine call for a result: the loser of a semifinal goes to the third place.
  function FeedCall(e: Option<Bracket>, m: Match, loser: Player): (Option<Bracket>, bool)
    requires EngineOk(e)
  {
    if e.Some? && e.value.thirdPlace.Some? && m.round + 1 == e.value.Rounds() then
      var fed := Step(e, OnMatch(m.id, SetThirdPlaceLoser(loser)));
      (fed.bracket, fed.error.None?)
    else (e, true)
  }

  // The engine calls for a result: declare the winner, then feed the loser. A refusal ends them;
  // what the engine had already changed would stay.
  function ResultCalls(e: Option<Bracket>, m: Match, w: Player): (Option<Bracket>, bool)
    requires EngineOk(e)
  {
    var won := Step(e, OnMatch(m.id, SetWinner(w)));
    StepOk(e, OnMatch(m.id, SetWinner(w)));
    if won.error.Some? then (won.bracket, false) else FeedCall(won.bracket, m, w.Other())
  }

  // The result of a court match names a player of the match bound to the court.
  function WinnerSlot(m: Match, name: string): Option<Player> {
    if name == "" then None
    else if m.playerA == Some(name) then Some(A)
    else if m.playerB == Some(name) then Some(B)
    else None
  }

  // Every refusal is caught and answered false.
  function CourtMatchWon(h: Hub, courtId: string, winningName: string): (Hub, bool)
    requires EngineOk(h.bracket)
  {
    if h.bracket.None? || BoundTo(h.bracket.value, courtId).None? then (h, false)
    else
      var m := Get(h.bracket.value, BoundTo(h.bracket.value, courtId).value);
      var slot := WinnerSlot(m, winningName);
      if m.status != Ready || slot.None? then (h, false)
      else
        var r := ResultCalls(h.bracket, m, slot.value);
        if r.1 then (AfterDecision(h, r.0), true) else (h.(bracket := r.0), false)
  }

  // An unknown match, or no bracket: the binding is already gone.
  function Unbind(h: Hub, id: string): Hub
    requires EngineOk(h.bracket)
  {
    var out := Step(h.bracket, OnMatch(id, SetCourt(None)));
    if out.error.Some? then h else ScheduleSave(h.(bracket := out.bracket))
  }

  // ---- events ----

  // A catalog change adds records or replaces them by newer ones; only setting the club up afresh
  // removes any.
  datatype Event =
    | Create(owner: bool, name: string, numSlots: int, thirdPlace: bool, now: int)
    | PlayerRequest(owner: bool, id: string, slot: Player, name: string)
    | EngineRequest(owner: bool, id: string, op: MatchOp)
    | AssignCourt(owner: bool, id: string, binding: Option<string>)
    | SelectTable(owner: bool, id: string, courtId: string, pin: string)
    | ResetRequest(owner: bool, socket: string, confirm: Option<string>, newToken: string, now: int)
    | Disconnect(socket: string)
    | MatchWon(courtId: string, winningName: string)
    | UnbindMatch(id: string)
    | ReleaseCourts
    | SaveTimer
    | PersistTimer
    | FlushBracket
    | FlushSessions
    | CourtsChange(courts: seq<Court>)
    | CatalogChange(records: Catalog)
    | DiscardRequest
    | FinishRequest
    | SetupReset

  // Engine requests that owners can send as such; names, the loser feed and court bindings have
  // their own paths. Courts are kept by id, so no two have the same.
  ghost predicate Allowed(ev: Event) {
    && (ev.EngineRequest? ==> ev.op.SetWinner? || ev.op.UndoMatch?)
    && (ev.CourtsChange? ==> UniqueIds(ev.courts))
  }

  function Handle(h: Hub, ev: Event): Hub
    requires EngineOk(h.bracket)
  {
    match ev
    case Create(owner, name, numSlots, thirdPlace, now) => OnCreate(h, owner, name, numSlots, thirdPlace, now).0
    case PlayerRequest(owner, id, slot, name) => OnAssignPlayer(h, owner, id, slot, name).0
    case EngineRequest(owner, id, op) => OnEngine(h, owner, id, op).0
    case AssignCourt(owner, id, courtId) => OnAssignCourt(h, owner, id, courtId).0
    case SelectTable(owner, id, courtId, pin) => OnSelectTable(h, owner, id, courtId, pin).0
    case ResetRequest(owner, socket, confirm, newToken, now) => OnReset(h, owner, socket, confirm, newToken, now).0
    case Disconnect(socket) => h.(pending := h.pending - {socket})
    case MatchWon(courtId, winningName) => CourtMatchWon(h, courtId, winningName).0
    case UnbindMatch(id) => Unbind(h, id)
    case ReleaseCourts => AllReleased(h)
    case SaveTimer => SaveTimerFires(h)
    case PersistTimer => PersistTimerFires(h)
    case FlushBracket => SaveTimerFires(h)
    case FlushSessions => PersistSessions(h)
    case CourtsChange(courts) => h.(courts := courts, persistTimer := true)
    case CatalogChange(records) => h.(catalog := h.catalog + records)
    case DiscardRequest => OnDiscard(h)
    case FinishRequest => OnFinish(h)
    case SetupReset => OnSetupReset(h)
  }
}
