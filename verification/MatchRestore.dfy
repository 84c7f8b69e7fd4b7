// Rebuilding a match from what was published, and from what was saved to disk.

module MatchRestore {
  import opened Types
  import opened MatchSpec
  import opened MatchUndo

  // The padel fields are there exactly for padel.
  predicate Shaped(g: GameState) {
    var padel := g.sport == Padel;
    && (g.padelPoints.Some? <==> padel) && (g.isTiebreak.Some? <==> padel)
    && (g.tiebreakPoints.Some? <==> padel) && (g.goldenPoint.Some? <==> padel)
  }

  // Rules of a sport keep its states in shape.
  ghost predicate KeepsShape(rules: SportRules) {
    forall g: GameState, p | Shaped(g) && g.sport == rules.sport ::
      && Shaped(rules.recordScore(g, p)) && rules.recordScore(g, p).sport == rules.sport
      && Shaped(rules.subtractScore(g, p)) && rules.subtractScore(g, p).sport == rules.sport
  }

  ghost predicate Playable(rules: SportRules, st: MatchState) {
    && Shaped(st.game) && st.game.sport == rules.sport
    && (st.undoAvailable <==> st.history != [])
  }

  // Rebuilding from the published state is the identity exactly on well-shaped states.
  lemma RebuildIsIdentityIff(st: MatchState)
    ensures FromState(GetState(st)) == st <==> Shaped(st.game) && (st.undoAvailable <==> st.history != [])
  {
  }

  lemma {:induction false} RunPlayable(rules: SportRules, cap: Option<nat>, st: MatchState, acts: seq<Action>)
    requires KeepsShape(rules) && Playable(rules, st)
    ensures Playable(rules, Run(rules, cap, st, acts))
    decreases acts
  {
    if acts != [] {
      StepPlayable(rules, cap, st, acts[0]);
      RunPlayable(rules, cap, Step(rules, cap, st, acts[0]).state, acts[1..]);
    }
  }

  lemma StepPlayable(rules: SportRules, cap: Option<nat>, st: MatchState, act: Action)
    requires KeepsShape(rules) && Playable(rules, st)
    ensures Playable(rules, Step(rules, cap, st, act).state)
  {
  }

  // Stop a match anywhere, rebuild it from its published state with the same rules: every later
  // sequence of actions publishes the same states.
  lemma RebuiltMatchIsTheSame(rules: SportRules, st: MatchState, before: seq<Action>, after: seq<Action>)
    requires KeepsShape(rules) && Playable(rules, st)
    ensures var stopped := Run(rules, BOUND, st, before);
            GetState(Run(rules, BOUND, FromState(GetState(stopped)), after))
            == GetState(Run(rules, BOUND, stopped, after))
  {
    RunPlayable(rules, BOUND, st, before);
    RebuildIsIdentityIff(Run(rules, BOUND, st, before));
  }

  lemma InitialIsPlayable(rules: SportRules, config: MatchConfig)
    requires config.PadelConfig? <==> rules.sport == Padel
    ensures Playable(rules, InitialState(config))
  {
  }

  // What is published, field by field: the score under `score` for table tennis, at the root for
  // padel, where the games of the set are its current score.
  lemma PublishedMeans(st: MatchState)
    ensures var s, g := GetState(st), st.game;
            && s.config == g.config && s.status == g.status && s.winner == g.winner && s.sport == Some(g.sport)
            && s.swappedSides == g.swappedSides && s.midSetSwapped == g.midSetSwapped
            && s.setHistory == Some(g.setHistory) && s.playerNames == Some(st.playerNames)
            && s.courtId == Some(st.courtId) && s.courtName == Some(st.courtName)
            && s.history == Some(st.history) && s.undoAvailable == Some(st.undoAvailable)
            && (g.sport == TableTennis ==>
                  && s.score.Some? && s.score.value.sets == g.sets && s.score.value.currentSet == g.currentSet
                  && s.score.value.serving == g.serving && s.games.None? && s.sets.None? && s.padelPoints.None?)
            && (g.sport == Padel ==>
                  && s.score.None? && s.sets == Some(g.sets) && s.games == Some(g.currentSet)
                  && s.serving == Some(g.serving)
                  && (Shaped(g) ==> s.padelPoints == g.padelPoints && s.isTiebreak == g.isTiebreak
                                    && s.tiebreakPoints == g.tiebreakPoints && s.goldenPoint == g.goldenPoint))
  {
  }

  // The published undo flag is right over every run.
  lemma PublishedUndoFlag(rules: SportRules, cap: Option<nat>, st: MatchState, acts: seq<Action>)
    requires LogOk(st)
    ensures var st' := Run(rules, cap, st, acts); GetState(st').undoAvailable == Some(st'.history != [])
  {
    RunLogOk(rules, cap, st, acts);
  }

  // A new match: nothing played, the first set at its initial score or else its handicap.
  lemma InitialMeans(config: MatchConfig)
    ensures var st := InitialState(config);
            && st.game.config == config && st.game.status == Waiting && st.game.winner.None?
            && st.game.sets == Score(0, 0) && st.game.setHistory == [] && st.history == [] && !st.undoAvailable
            && !st.game.swappedSides && !st.game.midSetSwapped
            && (st.game.sport == Padel <==> config.PadelConfig?)
            && st.game.serving == (if config.initialServer.Some? then config.initialServer.value else A)
            && (config.initialScore.Some? && config.initialScore.value.a != 0 && config.initialScore.value.b != 0 ==>
                  st.game.currentSet == config.initialScore.value)
            && (config.initialScore.None? ==>
                  st.game.currentSet == if config.PadelConfig? then Score(0, 0)
                                        else Score(OrZero(config.handicapA), OrZero(config.handicapB)))
  {
  }

  // A saved object that lacks something is read as a new table-tennis match would be.
  lemma MissingMeans(s: Saved)
    ensures var st := FromState(s);
            && st.game.config == s.config && st.game.status == s.status && st.game.winner == s.winner
            && (s.sport.None? ==> st.game.sport == TableTennis)
            && (s.sport != Some(Padel) && s.score.None? ==>
                  st.game.sets == st.game.currentSet == Score(0, 0) && st.game.serving == A)
            && (s.sport == Some(Padel) ==>
                  && (s.sets.None? ==> st.game.sets == Score(0, 0))
                  && (s.games.None? ==> st.game.currentSet == Score(0, 0))
                  && (s.serving.None? ==> st.game.serving == A)
                  && (s.padelPoints.None? ==> st.game.padelPoints == Some(PadelPoints(Love, Love))))
            && (s.setHistory.None? ==> st.game.setHistory == [])
            && (s.courtId.None? ==> st.courtId == "") && (s.courtName.None? ==> st.courtName == "")
            && (s.playerNames.None? ==> st.playerNames == PlayerNames("Player A", "Player B"))
            && (s.history.None? ==> st.history == []) && (st.undoAvailable <==> st.history != [])
  {
  }

  // ---- through the disk ----

  // What is written: any sport's score under `score`, the last 20 entries of the log, and neither
  // court, names nor undo flag.
  lemma SavedFormMeans(st: MatchState)
    ensures var s, g := ToPersisted(GetState(st)), st.game;
            && s.config == g.config && s.status == g.status && s.winner == g.winner && s.sport == Some(g.sport)
            && s.score.Some? && s.score.value.sets == g.sets && s.score.value.currentSet == g.currentSet
            && s.score.value.serving == g.serving
            && s.games.None? && s.sets.None? && s.serving.None?
            && s.setHistory == Some(g.setHistory)
            && s.history == Some(if |st.history| > 20 then st.history[|st.history| - 20..] else st.history)
            && s.courtId.None? && s.courtName.None? && s.playerNames.None? && s.undoAvailable.None?
  {
  }

  function SavedAndRestored(st: MatchState): MatchState {
    Restored(ToPersisted(GetState(st)), st.courtId, st.courtName, Some(st.playerNames))
  }

  // A table-tennis match comes back whole, its log cut to the last 20 entries; a log kept by the
  // engine is never longer than that.
  lemma TableTennisSurvives(st: MatchState)
    requires Shaped(st.game) && st.game.sport == TableTennis && LogOk(st)
    ensures SavedAndRestored(st) == st.(history := LastEntries(st.history))
    ensures IsSuffix(LastEntries(st.history), st.history)
    ensures |st.history| <= MAX_HISTORY_LENGTH ==> SavedAndRestored(st) == st
  {
  }

  // A padel match comes back with points, tiebreak, set history and log, but its games, sets and
  // server start over: they are written under `score` and looked for at the root.
  lemma PadelSurvivesOnlyInPart(st: MatchState)
    requires Shaped(st.game) && st.game.sport == Padel && LogOk(st)
    requires |st.history| <= MAX_HISTORY_LENGTH
    ensures SavedAndRestored(st) == st.(game := st.game.(sets := NIL, currentSet := NIL, serving := A))
    ensures SavedAndRestored(st) == st <==> st.game.sets == NIL && st.game.currentSet == NIL && st.game.serving == A
  {
  }

  // After such a restore the log no longer ends at the current score, unless it was 0-0 or empty.
  lemma PadelLogBreaks(st: MatchState)
    requires Shaped(st.game) && st.game.sport == Padel && LogOk(st)
    requires |st.history| <= MAX_HISTORY_LENGTH
    ensures LogOk(SavedAndRestored(st)) <==> st.history == [] || st.game.currentSet == NIL
  {
    PadelSurvivesOnlyInPart(st);
  }
}
