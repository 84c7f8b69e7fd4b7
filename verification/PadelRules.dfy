// Scoring rules of padel, and why the undo log does not take a padel point back.

module PadelRules {
  import opened Types
  import opened MatchSpec
  import opened MatchUndo
  import opened MatchRestore

  // The rules' own view of a state.
  datatype Game = Game(
    points: PadelPoints, games: Score, sets: Score, isTiebreak: bool, tiebreakPoints: Score,
    serving: Player, goldenPoint: bool, bestOf: int, tiebreakTarget: int, gamesPerSet: int)

  function Decode(g: GameState): Game {
    var c := g.config;
    Game(OrElse(g.padelPoints, LOVE_ALL), g.currentSet, g.sets, OrElse(g.isTiebreak, false),
         OrElse(g.tiebreakPoints, NIL), g.serving,
         if c.PadelConfig? && c.suddenDeath.Some? then c.suddenDeath.value else OrElse(g.goldenPoint, false),
         c.bestOf, if c.PadelConfig? then c.tiebreakTarget else 7, if c.PadelConfig? then c.gamesPerSet else 6)
  }

  function Encode(g: GameState, ps: Game): GameState {
    g.(padelPoints := Some(ps.points), currentSet := ps.games, sets := ps.sets,
       isTiebreak := Some(ps.isTiebreak), tiebreakPoints := Some(ps.tiebreakPoints), serving := ps.serving)
  }

  function Max(x: int, y: int): int { if x > y then x else y }

  function MatchCheck(ps: Game): seq<MatchEvent> {
    if ps.sets.a >= (ps.bestOf + 1) / 2 || ps.sets.b >= (ps.bestOf + 1) / 2
    then [MatchWon(Some(if ps.sets.a > ps.sets.b then A else B), [], ps.sets)] else []
  }

  function AfterSetCheck(ps: Game): (Game, seq<MatchEvent>) {
    var a, b := ps.games.a, ps.games.b;
    if (Max(a, b) >= ps.gamesPerSet && Abs(a - b) >= 2) || (Max(a, b) >= 7 && Abs(a - b) >= 1) then
      var w := if a > b then A else B;
      var ps' := ps.(sets := ps.sets.Plus(w, 1), games := NIL, serving := ps.serving.Other());
      (ps', [SetWon(w, ps.games, ps'.sets.a + ps'.sets.b)] + MatchCheck(ps'))
    else if a == ps.gamesPerSet && b == ps.gamesPerSet then
      (ps.(isTiebreak := true, tiebreakPoints := NIL), [TiebreakStart(ps.tiebreakTarget)])
    else (ps, [])
  }

  function WinGame(ps: Game, w: Player): (Game, seq<MatchEvent>) {
    var games := ps.games.Plus(w, 1);
    var r := AfterSetCheck(ps.(games := games, points := LOVE_ALL, serving := ps.serving.Other()));
    (r.0, [GameWon(w, ps.points, games.a + games.b)] + r.1)
  }

  function TiebreakPoint(ps: Game, p: Player): (Game, seq<MatchEvent>) {
    var tb := ps.tiebreakPoints.Plus(p, 1);
    if (tb.a >= ps.tiebreakTarget || tb.b >= ps.tiebreakTarget) && Abs(tb.a - tb.b) >= 2 then
      var w := if tb.a > tb.b then A else B;
      var ps' := ps.(sets := ps.sets.Plus(w, 1), games := NIL, isTiebreak := false, tiebreakPoints := NIL,
                     serving := ps.serving.Other());
      (ps', [SetWon(w, Score(if tb.a > tb.b then 7 else 6, if tb.b > tb.a then 7 else 6), ps'.sets.a + ps'.sets.b)]
            + MatchCheck(ps'))
    else
      (ps.(tiebreakPoints := tb,
           serving := if tb.a + tb.b > 0 && (tb.a + tb.b) % 2 == 0 then ps.serving.Other() else ps.serving), [])
  }

  function RegularPoint(ps: Game, p: Player): (Game, seq<MatchEvent>) {
    var mine, theirs := ps.points.Of(p), ps.points.Of(p.Other());
    if ps.games == Score(ps.gamesPerSet, ps.gamesPerSet) && ps.points == LOVE_ALL then
      var r := TiebreakPoint(ps.(isTiebreak := true, tiebreakPoints := NIL), p);
      (r.0, [TiebreakStart(ps.tiebreakTarget)] + r.1)
    else if ps.goldenPoint && mine == Forty && theirs == Forty then WinGame(ps, p)
    else if mine == Advantage then WinGame(ps, p)
    else if theirs == Advantage then (ps.(points := PadelPoints(Forty, Forty)), [DeuceReached])
    else match mine
      case Love => (ps.(points := ps.points.With(p, Fifteen)), [])
      case Fifteen => (ps.(points := ps.points.With(p, Thirty)), [])
      case Thirty => (ps.(points := ps.points.With(p, Forty)), if theirs == Forty then [DeuceReached] else [])
      case _ => if theirs != Forty then WinGame(ps, p) else (ps.(points := ps.points.With(p, Advantage)), [])
  }

  function ApplyEvent(g: GameState, e: MatchEvent): GameState {
    match e
    case GameWon(_, _, number) => if number % 2 == 1 then g.(swappedSides := !g.swappedSides) else g
    case SetWon(_, score, _) => g.(setHistory := g.setHistory + [score], swappedSides := !g.swappedSides)
    case MatchWon(w, _, _) => g.(status := Finished, winner := w)
    case _ => g
  }

  // Sides, set history, status and winner follow from the events.
  function ApplyEvents(g: GameState, events: seq<MatchEvent>): GameState
    decreases events
  {
    if events == [] then g else ApplyEvents(ApplyEvent(g, events[0]), events[1..])
  }

  function PointPlayed(ps: Game, p: Player): (Game, seq<MatchEvent>) {
    if ps.isTiebreak then TiebreakPoint(ps, p) else RegularPoint(ps, p)
  }

  function RecordScore(g: GameState, p: Player): GameState {
    var r := PointPlayed(Decode(g), p);
    ApplyEvents(Encode(g, r.0), r.1)
  }

  function ScoreEvents(g: GameState, p: Player): seq<MatchEvent> { PointPlayed(Decode(g), p).1 }

  function SubtractRegular(ps: Game, p: Player): Game {
    var mine, theirs := ps.points.Of(p), ps.points.Of(p.Other());
    if mine == Love && theirs == Love && ps.games.Of(p) > 0 then
      ps.(games := ps.games.Plus(p, -1), points := ps.points.With(p, Advantage).With(p.Other(), Forty),
          serving := ps.serving.Other())
    else match mine
      case Advantage => ps.(points := ps.points.With(p, Forty))
      case Forty => ps.(points := ps.points.With(p, Thirty))
      case Thirty => ps.(points := ps.points.With(p, Fifteen))
      case _ => ps.(points := ps.points.With(p, Love))
  }

  function SubtractScore(g: GameState, p: Player): GameState {
    var ps := Decode(g);
    Encode(g, if ps.isTiebreak
              then ps.(tiebreakPoints := ps.tiebreakPoints.With(p, Max(0, ps.tiebreakPoints.Of(p) - 1)))
              else SubtractRegular(ps, p))
  }

  function Rules(): SportRules {
    SportRules(Padel, (g, p) => RecordScore(g, p), (g, p) => ScoreEvents(g, p),
               (g, p) => SubtractScore(g, p), (g: GameState) => g.serving)
  }

  // ---- to whom a point, a game and a set go ----

  predicate OneMore(s: Score, s': Score, p: Player) {
    s'.Of(p) == s.Of(p) + 1 && s'.Of(p.Other()) == s.Of(p.Other())
  }

  // Player q has the set by games.
  predicate HasSet(ps: Game, games: Score, q: Player) {
    var lead := games.Of(q) - games.Of(q.Other());
    (games.Of(q) >= ps.gamesPerSet && lead >= 2) || (games.Of(q) >= 7 && lead >= 1)
  }

  predicate SetOpen(ps: Game) { !ps.isTiebreak && !HasSet(ps, ps.games, A) && !HasSet(ps, ps.games, B) }

  // The next point of player p is the game.
  predicate GameBall(ps: Game, p: Player) {
    var mine, theirs := ps.points.Of(p), ps.points.Of(p.Other());
    || mine == Advantage
    || (mine == Forty && theirs != Forty && theirs != Advantage)
    || (ps.goldenPoint && mine == Forty && theirs == Forty)
  }

  // Games even at the limit and no point played: a tiebreak is due.
  predicate TiebreakDue(ps: Game) { ps.games == Score(ps.gamesPerSet, ps.gamesPerSet) && ps.points == LOVE_ALL }

  // A game goes to the player who had the game ball, and the set with it if that is games enough.
  lemma GameGoesToScorer(ps: Game, p: Player)
    requires SetOpen(ps) && GameBall(ps, p)
    ensures var r, games := RegularPoint(ps, p).0, ps.games.Plus(p, 1);
            && OneMore(ps.games, games, p) && r.points == LOVE_ALL
            && if HasSet(ps, games, p)
               then OneMore(ps.sets, r.sets, p) && r.games == Score(0, 0) && !r.isTiebreak && r.serving == ps.serving
               else r.sets == ps.sets && r.games == games && r.serving == ps.serving.Other()
                    && (r.isTiebreak <==> games == Score(ps.gamesPerSet, ps.gamesPerSet))
  {
  }

  // Any other point moves its player up by one, or the other one down from advantage.
  lemma PointGoesToScorer(ps: Game, p: Player)
    requires !ps.isTiebreak && !GameBall(ps, p) && !TiebreakDue(ps)
    ensures var r, q := RegularPoint(ps, p).0, p.Other();
            var mine, theirs := ps.points.Of(p), ps.points.Of(q);
            && r.games == ps.games && r.sets == ps.sets && !r.isTiebreak && r.serving == ps.serving
            && if theirs == Advantage then r.points.Of(p) == Forty && r.points.Of(q) == Forty
               else
                 && r.points.Of(q) == theirs
                 && r.points.Of(p) == (match mine
                                       case Love => Fifteen
                                       case Fifteen => Thirty
                                       case Thirty => Forty
                                       case _ => Advantage)
  {
  }

  // In a tiebreak the point is one more for its player, and the set with it at the target and two ahead.
  lemma TiebreakGoesToScorer(ps: Game, p: Player)
    requires var tb := ps.tiebreakPoints;
             !(tb.a >= ps.tiebreakTarget && tb.a - tb.b >= 2) && !(tb.b >= ps.tiebreakTarget && tb.b - tb.a >= 2)
    ensures var r, tb := TiebreakPoint(ps, p).0, ps.tiebreakPoints.Plus(p, 1);
            && OneMore(ps.tiebreakPoints, tb, p)
            && if tb.Of(p) >= ps.tiebreakTarget && tb.Of(p) - tb.Of(p.Other()) >= 2
               then OneMore(ps.sets, r.sets, p) && r.games == Score(0, 0)
                    && !r.isTiebreak && r.tiebreakPoints == Score(0, 0) && r.serving == ps.serving.Other()
               else r.sets == ps.sets && r.games == ps.games && r.tiebreakPoints == tb && r.isTiebreak == ps.isTiebreak
                    && (r.serving != ps.serving <==> tb.a + tb.b > 0 && (tb.a + tb.b) % 2 == 0)
  {
  }

  // The match goes to the player who has more than half of its sets.
  lemma MatchGoesToSets(ps: Game)
    requires ps.bestOf % 2 == 1 && ps.bestOf > 0 && !(2 * ps.sets.a > ps.bestOf && 2 * ps.sets.b > ps.bestOf)
    ensures var es := MatchCheck(ps);
            if 2 * ps.sets.a > ps.bestOf then es == [MatchWon(Some(A), [], ps.sets)]
            else if 2 * ps.sets.b > ps.bestOf then es == [MatchWon(Some(B), [], ps.sets)]
            else es == []
  {
  }

  // Where the published state keeps all that.
  lemma ScoreIsEncoded(g: GameState, p: Player)
    ensures var ps, r := Decode(g), RecordScore(g, p);
            var ps' := PointPlayed(ps, p).0;
            && ps.games == g.currentSet && ps.sets == g.sets && ps.serving == g.serving
            && (g.padelPoints.Some? ==> ps.points == g.padelPoints.value)
            && (g.isTiebreak.Some? ==> ps.isTiebreak == g.isTiebreak.value)
            && (g.tiebreakPoints.Some? ==> ps.tiebreakPoints == g.tiebreakPoints.value)
            && (g.config.PadelConfig? ==>
                  && ps.bestOf == g.config.bestOf && ps.gamesPerSet == g.config.gamesPerSet
                  && ps.tiebreakTarget == g.config.tiebreakTarget
                  && (g.config.suddenDeath.Some? ==> ps.goldenPoint == g.config.suddenDeath.value)
                  && (g.config.suddenDeath.None? && g.goldenPoint.Some? ==> ps.goldenPoint == g.goldenPoint.value))
            && r.currentSet == ps'.games && r.sets == ps'.sets && r.serving == ps'.serving
            && r.padelPoints == Some(ps'.points) && r.isTiebreak == Some(ps'.isTiebreak)
            && r.tiebreakPoints == Some(ps'.tiebreakPoints)
  {
    var r := PointPlayed(Decode(g), p);
    EventsKeepScore(Encode(g, r.0), r.1);
  }

  // What a won game reports: the game, then the set it decides, or the tiebreak it leads to.
  lemma GameEvents(ps: Game, p: Player)
    requires SetOpen(ps) && GameBall(ps, p) && !TiebreakDue(ps)
    ensures var es, games := PointPlayed(ps, p).1, ps.games.Plus(p, 1);
            && |es| >= 1 && es[0] == GameWon(p, ps.points, games.a + games.b)
            && if HasSet(ps, games, p)
               then 2 <= |es| <= 3 && es[1] == SetWon(p, games, ps.sets.a + ps.sets.b + 1)
                    && (|es| == 3 ==> es[2].MatchWon?)
               else |es| <= 2 && (|es| == 2 ==> es[1].TiebreakStart?)
  {
  }

  // Sides change after every odd game of a set and after every set; a set goes into the history with
  // its games.
  lemma GameChangesSides(g: GameState, p: Player)
    requires SetOpen(Decode(g)) && GameBall(Decode(g), p) && !TiebreakDue(Decode(g))
    ensures var games := g.currentSet.Plus(p, 1);
            var r, odd, setWon := RecordScore(g, p), (games.a + games.b) % 2 == 1, HasSet(Decode(g), games, p);
            && (r.swappedSides != g.swappedSides <==> odd != setWon)
            && r.setHistory == if setWon then g.setHistory + [games] else g.setHistory
  {
    var r := PointPlayed(Decode(g), p);
    GameEvents(Decode(g), p);
    SidesOfEvents(Encode(g, r.0), r.1);
  }

  lemma SidesOfEvents(g: GameState, es: seq<MatchEvent>)
    requires 1 <= |es| <= 3 && es[0].GameWon?
    requires if |es| >= 2 && es[1].SetWon? then |es| == 3 ==> es[2].MatchWon?
             else |es| <= 2 && (|es| == 2 ==> es[1].TiebreakStart?)
    ensures var r, setWon := ApplyEvents(g, es), |es| >= 2 && es[1].SetWon?;
            && (r.swappedSides != g.swappedSides <==> (es[0].gameNumber % 2 == 1) != setWon)
            && r.setHistory == if setWon then g.setHistory + [es[1].score] else g.setHistory
  {
    var g1 := ApplyEvent(g, es[0]);
    if |es| >= 2 && es[1].SetWon? {
      assert ApplyEvents(g1, es[1..]) == ApplyEvents(ApplyEvent(g1, es[1]), es[1..][1..]);
      MatchEndChangesNoSides(ApplyEvent(g1, es[1]), es[1..][1..]);
    } else {
      MatchEndChangesNoSides(g1, es[1..]);
    }
  }

  // In a tiebreak the sides change with the set it decides, which goes into the history as 7-6.
  lemma TiebreakChangesSides(g: GameState, p: Player)
    requires Decode(g).isTiebreak
    requires var ps := Decode(g); var tb := ps.tiebreakPoints;
             !(tb.a >= ps.tiebreakTarget && tb.a - tb.b >= 2) && !(tb.b >= ps.tiebreakTarget && tb.b - tb.a >= 2)
    ensures var ps, r := Decode(g), RecordScore(g, p);
            var tb := ps.tiebreakPoints.Plus(p, 1);
            var setWon := tb.Of(p) >= ps.tiebreakTarget && tb.Of(p) - tb.Of(p.Other()) >= 2;
            && (r.swappedSides != g.swappedSides <==> setWon)
            && r.setHistory == if !setWon then g.setHistory
                               else g.setHistory + [if p == A then Score(7, 6) else Score(6, 7)]
  {
    var ps := Decode(g);
    var r := PointPlayed(ps, p);
    if r.1 != [] {
      MatchEndChangesNoSides(ApplyEvent(Encode(g, r.0), r.1[0]), r.1[1..]);
    }
  }

  lemma MatchEndChangesNoSides(g: GameState, events: seq<MatchEvent>)
    requires |events| <= 1 && forall k | 0 <= k < |events| :: events[k].MatchWon? || events[k].TiebreakStart?
    ensures ApplyEvents(g, events).swappedSides == g.swappedSides && ApplyEvents(g, events).setHistory == g.setHistory
  {
    if events != [] {
      assert events[1..] == [];
    }
  }

  // A correction steps the player's points back, from love all into the last game if the player won one.
  lemma CorrectionStepsBack(ps: Game, p: Player)
    ensures var r, q := SubtractRegular(ps, p), p.Other();
            var mine, theirs := ps.points.Of(p), ps.points.Of(q);
            && r.sets == ps.sets
            && if mine == Love && theirs == Love && ps.games.Of(p) > 0
               then OneMore(r.games, ps.games, p) && r.points.Of(p) == Advantage && r.points.Of(q) == Forty
                    && r.serving == ps.serving.Other()
               else
                 && r.games == ps.games && r.points.Of(q) == theirs && r.serving == ps.serving
                 && r.points.Of(p) == (match mine
                                       case Advantage => Forty
                                       case Forty => Thirty
                                       case Thirty => Fifteen
                                       case _ => Love)
  {
  }

  // What a correction leaves in the state; in a tiebreak it takes one point of the player's, if any.
  lemma CorrectionIsEncoded(g: GameState, p: Player)
    ensures var ps, r := Decode(g), SubtractScore(g, p);
            && r.setHistory == g.setHistory && r.status == g.status && r.winner == g.winner && r.sets == g.sets
            && if ps.isTiebreak
               then
                 && r.currentSet == g.currentSet && r.serving == g.serving && r.tiebreakPoints.Some?
                 && r.tiebreakPoints.value.Of(p.Other()) == ps.tiebreakPoints.Of(p.Other())
                 && r.tiebreakPoints.value.Of(p)
                    == if ps.tiebreakPoints.Of(p) > 0 then ps.tiebreakPoints.Of(p) - 1 else 0
               else
                 var ps' := SubtractRegular(ps, p);
                 r.currentSet == ps'.games && r.padelPoints == Some(ps'.points) && r.serving == ps'.serving
  {
  }

  // Events touch nothing the rules encode.
  lemma {:induction false} EventsKeepScore(g: GameState, events: seq<MatchEvent>)
    ensures ApplyEvents(g, events) ==
      g.(swappedSides := ApplyEvents(g, events).swappedSides, setHistory := ApplyEvents(g, events).setHistory,
         status := ApplyEvents(g, events).status, winner := ApplyEvents(g, events).winner)
    decreases events
  {
    if events != [] {
      EventsKeepScore(ApplyEvent(g, events[0]), events[1..]);
    }
  }

  // The last event decides status and winner, if it is the end of the match.
  lemma {:induction false} EventsDecide(g: GameState, events: seq<MatchEvent>)
    requires forall k | 0 <= k < |events| - 1 :: !events[k].MatchWon?
    ensures var r := ApplyEvents(g, events);
            if events != [] && events[|events| - 1].MatchWon?
            then r.status == Finished && r.winner == events[|events| - 1].matchWinner
            else r.status == g.status && r.winner == g.winner
    decreases events
  {
    if events != [] {
      assert forall k | 0 <= k < |events[1..]| :: events[1..][k] == events[k + 1];
      EventsDecide(ApplyEvent(g, events[0]), events[1..]);
    }
  }

  predicate EndIsLast(events: seq<MatchEvent>) {
    && (forall k | 0 <= k < |events| - 1 :: !events[k].MatchWon?)
    && (events != [] && events[|events| - 1].MatchWon? ==> events[|events| - 1].matchWinner.Some?)
  }

  lemma TiebreakEndIsLast(ps: Game, p: Player)
    ensures EndIsLast(TiebreakPoint(ps, p).1)
  {
  }

  lemma GameEndIsLast(ps: Game, w: Player)
    ensures EndIsLast(WinGame(ps, w).1)
  {
    var games := ps.games.Plus(w, 1);
    SetEndIsLast(ps.(games := games, points := LOVE_ALL, serving := ps.serving.Other()));
  }

  lemma SetEndIsLast(ps: Game)
    ensures EndIsLast(AfterSetCheck(ps).1)
  {
  }

  lemma EndComesLast(ps: Game, p: Player)
    ensures EndIsLast(PointPlayed(ps, p).1)
  {
    if ps.isTiebreak {
      TiebreakEndIsLast(ps, p);
    } else {
      TiebreakEndIsLast(ps.(isTiebreak := true, tiebreakPoints := NIL), p);
      GameEndIsLast(ps, p);
    }
  }

  // The end of a padel match is reported exactly when a point ends it.
  lemma PadelReports(g: GameState, p: Player)
    requires g.status == Live
    ensures ReportsEnd(RecordScore(g, p), ScoreEvents(g, p))
  {
    var r := PointPlayed(Decode(g), p);
    EndComesLast(Decode(g), p);
    EventsDecide(Encode(g, r.0), r.1);
  }

  lemma PadelKeepsShape()
    ensures KeepsShape(Rules())
  {
    var rules := Rules();
    forall g: GameState, p | Shaped(g) && g.sport == Padel
      ensures Shaped(rules.recordScore(g, p)) && rules.recordScore(g, p).sport == Padel
      ensures Shaped(rules.subtractScore(g, p)) && rules.subtractScore(g, p).sport == Padel
    {
      RecordKeepsShape(g, p);
    }
  }

  lemma RecordKeepsShape(g: GameState, p: Player)
    requires Shaped(g) && g.sport == Padel
    ensures Shaped(RecordScore(g, p)) && RecordScore(g, p).sport == Padel
  {
    var ps := Decode(g);
    var r := if ps.isTiebreak then TiebreakPoint(ps, p) else RegularPoint(ps, p);
    EventsKeepScore(Encode(g, r.0), r.1);
  }

  // A padel match published and rebuilt goes on the same; only the saved form loses anything.
  lemma PadelRebuilds(config: MatchConfig, before: seq<Action>, after: seq<Action>)
    requires config.PadelConfig?
    ensures var stopped := Run(Rules(), BOUND, InitialState(config), before);
            GetState(Run(Rules(), BOUND, FromState(GetState(stopped)), after))
            == GetState(Run(Rules(), BOUND, stopped, after))
  {
    PadelKeepsShape();
    InitialIsPlayable(Rules(), config);
    RebuiltMatchIsTheSame(Rules(), InitialState(config), before, after);
  }

  // The points of the game or tiebreak in progress, where a padel point is actually counted.
  function Progress(g: GameState): (Option<PadelPoints>, Option<bool>, Option<Score>) {
    (g.padelPoints, g.isTiebreak, g.tiebreakPoints)
  }

  lemma EveryPointMoves(g: GameState, p: Player)
    requires Shaped(g) && g.sport == Padel
    ensures Progress(RecordScore(g, p)) != Progress(g)
  {
    var ps := Decode(g);
    if ps.isTiebreak {
      var r := TiebreakPoint(ps, p);
      EventsKeepScore(Encode(g, r.0), r.1);
    } else {
      var r := RegularPoint(ps, p);
      EventsKeepScore(Encode(g, r.0), r.1);
      RegularPointMoves(ps, p);
    }
  }

  lemma RegularPointMoves(ps: Game, p: Player)
    requires !ps.isTiebreak
    ensures var r := RegularPoint(ps, p).0; r.points != ps.points || r.isTiebreak
  {
  }

  // The log remembers games, not points: undoing a padel point puts the games back but never the
  // point itself.
  lemma UndoNeverRestoresAPoint(st: MatchState, p: Player, id: string, now: int)
    requires st.game.status == Live && Shaped(st.game) && st.game.sport == Padel
    ensures var played := Step(Rules(), BOUND, st, RecordPoint(p, id, now)).state;
            var undone := Step(Rules(), BOUND, played, UndoLast);
            && !undone.failed
            && undone.state.game.currentSet == st.game.currentSet
            && Progress(undone.state.game) == Progress(played.game)
            && undone.state.game != st.game
  {
    EveryPointMoves(st.game, p);
  }

  // Resetting a padel engine makes its state a table-tennis match but leaves the padel rules in
  // place; the next point then takes the state out of shape, and rebuilding no longer restores it.
  lemma ResetLeavesPadelRules(p: Player, id: string, now: int)
    ensures var started := Step(Rules(), BOUND, InitialState(INITIAL_CONFIG), StartMatch).state;
            var played := Step(Rules(), BOUND, started, RecordPoint(p, id, now)).state;
            FromState(GetState(started)) == started && FromState(GetState(played)) != played
  {
    var started := Step(Rules(), BOUND, InitialState(INITIAL_CONFIG), StartMatch).state;
    var r := RegularPoint(Decode(started.game), p);
    EventsKeepScore(Encode(started.game, r.0), r.1);
    RebuildIsIdentityIff(started);
    RebuildIsIdentityIff(Step(Rules(), BOUND, started, RecordPoint(p, id, now)).state);
  }
}
