// Scoring rules of table tennis, and what undoing a table-tennis point really gives back.

module TableTennisRules {
  import opened Types
  import opened MatchSpec
  import opened MatchUndo
  import opened MatchRestore

  predicate SetComplete(g: GameState) {
    var s, c := g.currentSet, g.config;
    && c.TableTennisConfig?
    && (s.a >= c.pointsPerSet || s.b >= c.pointsPerSet)
    && Abs(s.a - s.b) >= c.minDifference
  }

  function SetsNeeded(g: GameState): int { (g.config.bestOf + 1) / 2 }

  function SetLeader(g: GameState): Player { if g.currentSet.a > g.currentSet.b then A else B }

  // A completed set is counted, and may decide the match.
  function SetCounted(g: GameState): GameState {
    var g1 := g.(sets := g.sets.Plus(SetLeader(g), 1), setHistory := g.setHistory + [g.currentSet]);
    if g1.sets.a >= SetsNeeded(g1) then g1.(status := Finished, winner := Some(A))
    else if g1.sets.b >= SetsNeeded(g1) then g1.(status := Finished, winner := Some(B))
    else g1
  }

  // Unless it does, the next one starts from the handicap with sides changed.
  function AfterSetCheck(g: GameState): GameState
  {
    if !SetComplete(g) then g
    else
      var g1 := SetCounted(g);
      if g1.status == Finished then g1
      else g1.(currentSet := Score(OrZero(g.config.handicapA), OrZero(g.config.handicapB)),
               swappedSides := !g1.swappedSides, midSetSwapped := false)
  }

  // The final score reported is the history, which has the last set already, and the last set.
  function ScoreEvents(g: GameState, p: Player): seq<MatchEvent> {
    var g1 := g.(currentSet := g.currentSet.Plus(p, 1));
    if !SetComplete(g1) then []
    else
      var g2 := SetCounted(g1);
      [SetWon(SetLeader(g1), g1.currentSet, g2.sets.a + g2.sets.b)]
      + if g2.status == Finished then [MatchWon(g2.winner, g2.setHistory + [g1.currentSet], g2.sets)] else []
  }

  // Half way through the deciding set the players change sides once.
  predicate SideSwapDue(g: GameState) {
    && g.sets.a + g.sets.b == g.config.bestOf - 1
    && !g.midSetSwapped
    && (g.currentSet.a >= 5 || g.currentSet.b >= 5)
  }

  predicate Deuce(s: Score) { s.a >= 10 && s.b >= 10 }

  function UpdateServing(g: GameState): Player {
    var interval := if Deuce(g.currentSet) then 1 else 2;
    if (g.currentSet.a + g.currentSet.b) % interval == 0 then g.serving.Other() else g.serving
  }

  function RecordScore(g: GameState, p: Player): GameState {
    var g1 := AfterSetCheck(g.(currentSet := g.currentSet.Plus(p, 1)));
    var g2 := if SideSwapDue(g1) then g1.(swappedSides := !g1.swappedSides, midSetSwapped := true) else g1;
    g2.(serving := UpdateServing(g2))
  }

  function SubtractScore(g: GameState, p: Player): GameState {
    var g1 := g.(currentSet := g.currentSet.Plus(p, -1));
    g1.(serving := UpdateServing(g1))
  }

  function Rules(): SportRules {
    SportRules(TableTennis, (g, p) => RecordScore(g, p), (g, p) => ScoreEvents(g, p),
               (g, p) => SubtractScore(g, p), g => UpdateServing(g))
  }

  lemma RecordKeepsShape(g: GameState, p: Player)
    requires Shaped(g) && g.sport == TableTennis
    ensures Shaped(RecordScore(g, p)) && RecordScore(g, p).sport == TableTennis
  {
  }

  lemma TableTennisKeepsShape()
    ensures KeepsShape(Rules())
  {
    var rules := Rules();
    forall g: GameState, p | Shaped(g) && g.sport == TableTennis
      ensures Shaped(rules.recordScore(g, p)) && rules.recordScore(g, p).sport == TableTennis
      ensures Shaped(rules.subtractScore(g, p)) && rules.subtractScore(g, p).sport == TableTennis
    {
      RecordKeepsShape(g, p);
    }
  }

  // ---- to whom a point and a set go ----

  // Player q has the set: points enough, and enough of a lead.
  predicate HasSet(g: GameState, s: Score, q: Player) {
    && g.config.TableTennisConfig?
    && s.Of(q) >= g.config.pointsPerSet && s.Of(q) - s.Of(q.Other()) >= g.config.minDifference
  }

  // Neither player has the set yet, nor the match.
  predicate SetOpen(g: GameState) {
    && g.config.TableTennisConfig? && g.config.minDifference >= 1 && g.config.bestOf % 2 == 1
    && !HasSet(g, g.currentSet, A) && !HasSet(g, g.currentSet, B)
    && 2 * g.sets.a < g.config.bestOf && 2 * g.sets.b < g.config.bestOf
  }

  predicate OnePointMore(s: Score, s': Score, p: Player) {
    s'.Of(p) == s.Of(p) + 1 && s'.Of(p.Other()) == s.Of(p.Other())
  }

  lemma SetCompleteIsHasSet(g: GameState, p: Player)
    requires SetOpen(g)
    ensures var g1 := g.(currentSet := g.currentSet.Plus(p, 1));
            && (SetComplete(g1) <==> HasSet(g, g1.currentSet, p))
            && (SetComplete(g1) ==> SetLeader(g1) == p)
  {
  }

  // A point goes to its player. If that gives the player the set, so does the set, and the match if
  // it is more than half of the sets; a new set starts from the handicap.
  lemma PointGoesToScorer(g: GameState, p: Player)
    requires SetOpen(g) && g.status == Live
    ensures var r, s := RecordScore(g, p), g.currentSet.Plus(p, 1);
            && OnePointMore(g.currentSet, s, p)
            && if !HasSet(g, s, p)
               then r.currentSet == s && r.sets == g.sets && r.setHistory == g.setHistory
                    && r.status == Live && r.winner == g.winner
               else
                 && OnePointMore(g.sets, r.sets, p) && r.setHistory == g.setHistory + [s]
                 && if 2 * r.sets.Of(p) > g.config.bestOf
                    then r.status == Finished && r.winner == Some(p) && r.currentSet == s
                    else r.status == Live && r.winner == g.winner
                         && r.currentSet == Score(OrZero(g.config.handicapA), OrZero(g.config.handicapB))
  {
    SetCompleteIsHasSet(g, p);
  }

  // While a set goes on: the service changes after every two points, after every one from ten all on;
  // in the deciding set the sides change once, when a player has five.
  lemma ServiceAndSides(g: GameState, p: Player)
    requires SetOpen(g) && !HasSet(g, g.currentSet.Plus(p, 1), p)
    ensures var r, s := RecordScore(g, p), g.currentSet.Plus(p, 1);
            && (r.serving != g.serving <==> (s.a >= 10 && s.b >= 10) || (s.a + s.b) % 2 == 0)
            && var five := g.sets.a + g.sets.b == g.config.bestOf - 1 && !g.midSetSwapped && (s.a >= 5 || s.b >= 5);
               && (r.swappedSides != g.swappedSides <==> five)
               && (r.midSetSwapped <==> g.midSetSwapped || five)
  {
    SetCompleteIsHasSet(g, p);
    var s := g.currentSet.Plus(p, 1);
    Parity(s.a + s.b);
  }

  // When a set has ended: the sides change for the next one, whose handicap can make the change of the
  // deciding set due at once; and that change can come due on the very point that ends the match.
  lemma SidesAfterSet(g: GameState, p: Player)
    requires SetOpen(g) && HasSet(g, g.currentSet.Plus(p, 1), p) && g.status == Live
    ensures var r := RecordScore(g, p);
            var over := r.status == Finished;
            var due := r.sets.a + r.sets.b == g.config.bestOf - 1 && (r.currentSet.a >= 5 || r.currentSet.b >= 5);
            && (over ==> (r.swappedSides != g.swappedSides <==> due && !g.midSetSwapped)
                         && (r.midSetSwapped <==> g.midSetSwapped || due))
            && (!over ==> (r.swappedSides != g.swappedSides <==> !due) && (r.midSetSwapped <==> due))
            && (r.serving != g.serving <==>
                  (r.currentSet.a >= 10 && r.currentSet.b >= 10) || (r.currentSet.a + r.currentSet.b) % 2 == 0)
  {
    SetCompleteIsHasSet(g, p);
    var r := RecordScore(g, p);
    Parity(r.currentSet.a + r.currentSet.b);
  }

  // A correction takes one point from its player and nothing else but the service.
  lemma CorrectionTakesOne(g: GameState, p: Player)
    ensures var r := SubtractScore(g, p);
            && OnePointMore(r.currentSet, g.currentSet, p)
            && r == g.(currentSet := r.currentSet, serving := r.serving)
  {
  }

  // ---- what is reported ----

  // A set won is reported exactly when the point completes it, the end of the match exactly when the
  // point ends it. The final score that goes with it lists the last set twice.
  lemma TableTennisReports(g: GameState, p: Player)
    requires g.status == Live
    ensures ReportsEnd(RecordScore(g, p), ScoreEvents(g, p))
    ensures ScoreEvents(g, p) == [] <==> !SetComplete(g.(currentSet := g.currentSet.Plus(p, 1)))
    ensures RecordScore(g, p).status == Finished ==>
              var history, events := RecordScore(g, p).setHistory, ScoreEvents(g, p);
              history != [] && events[|events| - 1].finalScore == history + [history[|history| - 1]]
  {
    var g1 := g.(currentSet := g.currentSet.Plus(p, 1));
    if SetComplete(g1) {
      var g2 := SetCounted(g1);
      assert g2.setHistory == g.setHistory + [g1.currentSet];
      assert ScoreEvents(g, p)[0].SetWon?;
    }
  }

  // The report of a set says who won it, with what score, and how many sets have been played.
  lemma SetIsReported(g: GameState, p: Player)
    requires SetOpen(g) && HasSet(g, g.currentSet.Plus(p, 1), p) && g.status == Live
    ensures var r, events := RecordScore(g, p), ScoreEvents(g, p);
            && |events| >= 1 && events[0] == SetWon(p, g.currentSet.Plus(p, 1), r.sets.a + r.sets.b)
            && (r.status == Finished ==> |events| == 2 && events[1].matchWinner == Some(p) && events[1].sets == r.sets)
            && (r.status != Finished ==> |events| == 1)
  {
    SetCompleteIsHasSet(g, p);
    TableTennisReports(g, p);
  }

  // A table-tennis match, from its first point on: stopped anywhere and rebuilt, it goes on as if
  // nothing had happened.
  lemma TableTennisRebuilds(config: MatchConfig, before: seq<Action>, after: seq<Action>)
    requires config.TableTennisConfig?
    ensures var stopped := Run(Rules(), BOUND, InitialState(config), before);
            GetState(Run(Rules(), BOUND, FromState(GetState(stopped)), after))
            == GetState(Run(Rules(), BOUND, stopped, after))
  {
    TableTennisKeepsShape();
    InitialIsPlayable(Rules(), config);
    RebuiltMatchIsTheSame(Rules(), InitialState(config), before, after);
  }

  // A point after which the undo gives the server back too. The service changes on every point from
  // ten all on, and before that on the points that make the total even; the undo recomputes it from
  // the total it goes back to, so before ten all exactly one of the two turns it.
  predicate ServerComesBack(s: Score, p: Player) {
    Deuce(s.Plus(p, 1)) && (Deuce(s) || (s.a + s.b) % 2 == 0)
  }

  // The score put back into the game a point was played in, and the service recomputed.
  function PutBack(played: GameState, s: Score): GameState {
    var back := played.(currentSet := s);
    back.(serving := UpdateServing(back))
  }

  lemma BackIffEven(g: GameState, p: Player)
    ensures PutBack(RecordScore(g, p), g.currentSet) == g <==>
              var g1 := g.(currentSet := g.currentSet.Plus(p, 1));
              !SetComplete(g1) && !SideSwapDue(g1) && ServerComesBack(g.currentSet, p)
  {
    var g1, played := g.(currentSet := g.currentSet.Plus(p, 1)), RecordScore(g, p);
    if SetComplete(g1) {
      assert |AfterSetCheck(g1).setHistory| == |g.setHistory| + 1;
      assert played.setHistory != g.setHistory;
    } else if !SideSwapDue(g1) {
      assert played == g1.(serving := UpdateServing(g1));
      ServerAfterUndo(g, p);
    }
  }

  // Undoing a point always gives the set's score back, and the whole state of the game exactly
  // when the point neither ended the set nor made the players change sides, and the server comes
  // back. Until both have ten points it never does: the service is left with the other player.
  lemma UndoRestoresGameIff(st: MatchState, p: Player, id: string, now: int)
    requires st.game.status == Live
    ensures var played := Step(Rules(), BOUND, st, RecordPoint(p, id, now)).state;
            var undone := Step(Rules(), BOUND, played, UndoLast);
            && !undone.failed
            && undone.state.game.currentSet == st.game.currentSet
            && (undone.state.game == st.game <==>
                  var g := st.game.(currentSet := st.game.currentSet.Plus(p, 1));
                  !SetComplete(g) && !SideSwapDue(g) && ServerComesBack(st.game.currentSet, p))
  {
    BackIffEven(st.game, p);
  }

  lemma ServerAfterUndo(g: GameState, p: Player)
    ensures var g1 := g.(currentSet := g.currentSet.Plus(p, 1));
            UpdateServing(g.(serving := UpdateServing(g1))) == g.serving <==> ServerComesBack(g.currentSet, p)
  {
    var t := g.currentSet.a + g.currentSet.b;
    assert g.currentSet.Plus(p, 1).a + g.currentSet.Plus(p, 1).b == t + 1;
    Parity(t);
    Parity(t + 1);
  }

  lemma Parity(t: int)
    ensures t % 2 == 0 <==> (t + 1) % 2 != 0
    ensures t % 1 == 0
  {
  }
}
