// The state of one match on a court, what each action does to it under any sport's rules, and the
// forms in which it is published, saved and read back.

module MatchSpec {
  import opened Types

  const MAX_HISTORY_LENGTH := 20

  datatype Sport = TableTennis | Padel

  datatype MatchStatus = Waiting | Configuring | Live | Finished

  datatype Score = Score(a: int, b: int) {
    function Of(p: Player): int { if p == A then a else b }

    function With(p: Player, v: int): Score { if p == A then this.(a := v) else this.(b := v) }

    function Plus(p: Player, d: int): Score { With(p, Of(p) + d) }
  }

  const NIL := Score(0, 0)

  function Abs(x: int): int { if x < 0 then -x else x }

  datatype PadelPoint = Love | Fifteen | Thirty | Forty | Advantage

  datatype PadelPoints = PadelPoints(a: PadelPoint, b: PadelPoint) {
    function Of(p: Player): PadelPoint { if p == A then a else b }

    function With(p: Player, v: PadelPoint): PadelPoints { if p == A then this.(a := v) else this.(b := v) }
  }

  datatype MatchConfig =
    | TableTennisConfig(pointsPerSet: int, bestOf: int, minDifference: int,
                        handicapA: Option<int>, handicapB: Option<int>,
                        initialScore: Option<Score>, initialServer: Option<Player>)
    | PadelConfig(bestOf: int, tiebreakTarget: int, gamesPerSet: int, suddenDeath: Option<bool>,
                  initialScore: Option<Score>, initialServer: Option<Player>)

  // What the sport rules see and return.
  datatype GameState = GameState(
    config: MatchConfig, sets: Score, currentSet: Score, serving: Player,
    swappedSides: bool, midSetSwapped: bool, setHistory: seq<Score>,
    status: MatchStatus, winner: Option<Player>, sport: Sport,
    padelPoints: Option<PadelPoints>, isTiebreak: Option<bool>,
    tiebreakPoints: Option<Score>, goldenPoint: Option<bool>)

  datatype ActionKind = Point | Correction

  datatype ScoreChange = ScoreChange(
    id: string, player: Player, action: ActionKind, pointsBefore: Score, pointsAfter: Score, timestamp: int)

  datatype PlayerNames = PlayerNames(a: string, b: string)

  const DEFAULT_NAMES := PlayerNames("Player A", "Player B")

  datatype MatchState = MatchState(
    game: GameState, courtId: string, courtName: string, playerNames: PlayerNames,
    history: seq<ScoreChange>, undoAvailable: bool)

  // What the rules report of a point. The winner of a match can be missing in the source's type.
  datatype MatchEvent =
    | GameWon(winner: Player, points: PadelPoints, gameNumber: int)
    | SetWon(setWinner: Player, score: Score, setNumber: int)
    | MatchWon(matchWinner: Option<Player>, finalScore: seq<Score>, sets: Score)
    | DeuceReached
    | TiebreakStart(targetPoints: int)

  // The strategy a match delegates scoring to: any total functions. A point has two results, the
  // new state and the events that report it.
  datatype SportRules = SportRules(
    sport: Sport,
    recordScore: (GameState, Player) -> GameState,
    scoreEvents: (GameState, Player) -> seq<MatchEvent>,
    subtractScore: (GameState, Player) -> GameState,
    updateServing: GameState -> Player)

  // ---- starting up ----

  function OrZero(v: Option<int>): int { if v.Some? then v.value else 0 }

  // An initial score or handicap of zero counts as none.
  function FirstNonZero(x: int, y: int): int { if x != 0 then x else y }

  function InitialGame(config: MatchConfig): GameState {
    var start := if config.initialScore.Some? then config.initialScore.value else NIL;
    var score := if config.PadelConfig? then start
                 else Score(FirstNonZero(start.a, OrZero(config.handicapA)),
                            FirstNonZero(start.b, OrZero(config.handicapB)));
    var server := if config.initialServer.Some? then config.initialServer.value else A;
    if config.PadelConfig? then
      GameState(config, NIL, score, server, false, false, [], Waiting, None, Padel,
                Some(PadelPoints(Love, Love)), Some(false), Some(NIL),
                Some(config.suddenDeath.Some? && config.suddenDeath.value))
    else
      GameState(config, NIL, score, server, false, false, [], Waiting, None, TableTennis, None, None, None, None)
  }

  const INITIAL_CONFIG := TableTennisConfig(11, 3, 2, None, None, None, None)

  function InitialState(config: MatchConfig): MatchState {
    MatchState(InitialGame(config), "", "", DEFAULT_NAMES, [], false)
  }

  // ---- actions ----

  datatype Action =
    | RecordPoint(player: Player, id: string, now: int)
    | SubtractPoint(player: Player, id: string, now: int)
    | UndoLast
    | StartMatch
    | SetServer(player: Player)
    | SwapSides

  datatype Outcome = Outcome(state: MatchState, failed: bool)

  // The undo log, oldest entry first; `cap` bounds it, None leaves it unbounded.
  function Pushed(history: seq<ScoreChange>, e: ScoreChange, cap: Option<nat>): seq<ScoreChange> {
    var h := history + [e];
    if cap.Some? && |h| > cap.value then h[1..] else h
  }

  function Scored(st: MatchState, game: GameState, player: Player, kind: ActionKind, id: string, now: int,
                  cap: Option<nat>): MatchState {
    var e := ScoreChange(id, player, kind, st.game.currentSet, game.currentSet, now);
    var h := Pushed(st.history, e, cap);
    st.(game := game, history := h, undoAvailable := |h| > 0)
  }

  // Pop the log and put its score back; the server is worked out afresh from the restored score.
  function Undone(rules: SportRules, st: MatchState): MatchState
    requires st.history != []
  {
    var h := st.history[..|st.history| - 1];
    var game := st.game.(currentSet := st.history[|st.history| - 1].pointsBefore);
    st.(game := game.(serving := rules.updateServing(game)), history := h, undoAvailable := |h| > 0)
  }

  // Scores count only while the match is live; undoing an empty log fails and changes nothing.
  function Step(rules: SportRules, cap: Option<nat>, st: MatchState, act: Action): Outcome {
    match act
    case RecordPoint(p, id, now) =>
      Outcome(if st.game.status != Live then st
              else Scored(st, rules.recordScore(st.game, p), p, Point, id, now, cap), false)
    case SubtractPoint(p, id, now) =>
      Outcome(if st.game.status != Live then st
              else Scored(st, rules.subtractScore(st.game, p), p, Correction, id, now, cap), false)
    case UndoLast =>
      if st.history == [] then Outcome(st, true) else Outcome(Undone(rules, st), false)
    case StartMatch => Outcome(st.(game := st.game.(status := Live)), false)
    case SetServer(p) => Outcome(st.(game := st.game.(serving := p)), false)
    case SwapSides => Outcome(st.(game := st.game.(swappedSides := !st.game.swappedSides)), false)
  }

  // What an action hands to the match callback.
  function Emitted(rules: SportRules, st: MatchState, act: Action): seq<MatchEvent> {
    if act.RecordPoint? && st.game.status == Live then rules.scoreEvents(st.game, act.player) else []
  }

  // The end of a match is reported exactly when a point ends it, last of all, with its winner.
  predicate ReportsEnd(after: GameState, events: seq<MatchEvent>) {
    && (forall k | 0 <= k < |events| - 1 :: !events[k].MatchWon?)
    && (events != [] && events[|events| - 1].MatchWon? <==> after.status == Finished)
    && (after.status == Finished ==> after.winner.Some? && events[|events| - 1].matchWinner == after.winner)
  }

  function Run(rules: SportRules, cap: Option<nat>, st: MatchState, acts: seq<Action>): MatchState
    decreases acts
  {
    if acts == [] then st else Run(rules, cap, Step(rules, cap, st, acts[0]).state, acts[1..])
  }

  // ---- published, saved, read back ----

  datatype FullScore = FullScore(sets: Score, currentSet: Score, serving: Player)

  // A match as a JSON object: a field that may be missing is an Option. The padel fields sets,
  // games and serving sit at the root of what the engine publishes, but under `score` in what the
  // court manager saves.
  datatype Saved = Saved(
    config: MatchConfig, status: MatchStatus, winner: Option<Player>, swappedSides: bool, midSetSwapped: bool,
    sport: Option<Sport>, score: Option<FullScore>,
    games: Option<Score>, sets: Option<Score>, serving: Option<Player>,
    padelPoints: Option<PadelPoints>, isTiebreak: Option<bool>, tiebreakPoints: Option<Score>,
    goldenPoint: Option<bool>,
    setHistory: Option<seq<Score>>, courtId: Option<string>, courtName: Option<string>,
    playerNames: Option<PlayerNames>, history: Option<seq<ScoreChange>>, undoAvailable: Option<bool>)

  function OrElse<T>(v: Option<T>, default: T): T { if v.Some? then v.value else default }

  const LOVE_ALL := PadelPoints(Love, Love)

  // What the engine publishes, per sport.
  function GetState(st: MatchState): Saved {
    var g := st.game;
    var padel := g.sport == Padel;
    Saved(g.config, g.status, g.winner, g.swappedSides, g.midSetSwapped, Some(g.sport),
          if padel then None else Some(FullScore(g.sets, g.currentSet, g.serving)),
          if padel then Some(g.currentSet) else None,
          if padel then Some(g.sets) else None,
          if padel then Some(g.serving) else None,
          if padel then Some(OrElse(g.padelPoints, LOVE_ALL)) else None,
          if padel then Some(OrElse(g.isTiebreak, false)) else None,
          if padel then Some(OrElse(g.tiebreakPoints, NIL)) else None,
          if padel then Some(OrElse(g.goldenPoint, false)) else None,
          Some(g.setHistory), Some(st.courtId), Some(st.courtName), Some(st.playerNames),
          Some(st.history), Some(st.undoAvailable))
  }

  // Rebuild the state of a match from a saved object.
  function FromState(s: Saved): MatchState {
    var padel := s.sport == Some(Padel);
    var score := if padel then FullScore(OrElse(s.sets, NIL), OrElse(s.games, NIL), OrElse(s.serving, A))
                 else OrElse(s.score, FullScore(NIL, NIL, A));
    var history := OrElse(s.history, []);
    MatchState(
      GameState(s.config, score.sets, score.currentSet, score.serving, s.swappedSides, s.midSetSwapped,
                OrElse(s.setHistory, []), s.status, s.winner, OrElse(s.sport, TableTennis),
                if padel then Some(OrElse(s.padelPoints, LOVE_ALL)) else None,
                if padel then Some(OrElse(s.isTiebreak, false)) else None,
                if padel then Some(OrElse(s.tiebreakPoints, NIL)) else None,
                if padel then Some(OrElse(s.goldenPoint, false)) else None),
      OrElse(s.courtId, ""), OrElse(s.courtName, ""), OrElse(s.playerNames, DEFAULT_NAMES),
      history, |history| > 0)
  }

  function LastEntries(h: seq<ScoreChange>): seq<ScoreChange> {
    if |h| > MAX_HISTORY_LENGTH then h[|h| - MAX_HISTORY_LENGTH..] else h
  }

  // The form the court manager writes to disk. Every score goes under `score`.
  function ToPersisted(s: Saved): Saved {
    var padel := s.sport == Some(Padel);
    s.(score := Some(if padel then FullScore(OrElse(s.sets, NIL), OrElse(s.games, NIL), OrElse(s.serving, A))
                     else OrElse(s.score, FullScore(NIL, NIL, A))),
       sport := Some(OrElse(s.sport, TableTennis)),
       games := None, sets := None, serving := None,
       padelPoints := if padel then Some(OrElse(s.padelPoints, LOVE_ALL)) else None,
       isTiebreak := if padel then Some(OrElse(s.isTiebreak, false)) else None,
       tiebreakPoints := if padel then Some(OrElse(s.tiebreakPoints, NIL)) else None,
       goldenPoint := if padel then Some(OrElse(s.goldenPoint, false)) else None,
       setHistory := Some(OrElse(s.setHistory, [])),
       history := Some(LastEntries(OrElse(s.history, []))),
       courtId := None, courtName := None, playerNames := None, undoAvailable := None)
  }

  // What the restore loop makes of a saved match: names come from the session row, the court's
  // identity is set afterwards.
  function Restored(s: Saved, courtId: string, courtName: string, names: Option<PlayerNames>): MatchState {
    var st := FromState(s.(playerNames := Some(OrElse(names, PlayerNames("", ""))),
                           history := Some(OrElse(s.history, [])),
                           undoAvailable := Some(|OrElse(s.history, [])| > 0)));
    st.(courtId := courtId, courtName := courtName, playerNames := OrElse(names, st.playerNames))
  }
}
