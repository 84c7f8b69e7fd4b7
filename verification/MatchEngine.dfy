// The match engine object: one state record, overwritten piece by piece, and a log that is
// pushed, shifted and popped in place. Each method is proved against MatchSpec, so everything
// proved there and in MatchUndo holds of the object.

module MatchEngine {
  import opened Types
  import opened MatchSpec
  import opened MatchUndo

  class MatchEngine {
    var state: MatchState
    // What the match callback has been handed so far.
    var emitted: seq<MatchEvent>
    const rules: SportRules

    constructor (config: MatchConfig, rules: SportRules)
      ensures this.rules == rules && state == InitialState(config) && emitted == []
    {
      this.rules := rules;
      state, emitted := InitialState(config), [];
    }

    constructor FromState(saved: Saved, rules: SportRules)
      ensures this.rules == rules && state == MatchSpec.FromState(saved) && emitted == []
    {
      this.rules := rules;
      state, emitted := MatchSpec.FromState(saved), [];
    }

    method AddToHistory(player: Player, action: ActionKind, pointsBefore: Score, id: string, now: int)
      modifies this`state
      ensures state == Scored(old(state).(game := old(state).game.(currentSet := pointsBefore)), old(state).game,
                              player, action, id, now, BOUND)
    {
      var entry := ScoreChange(id, player, action, pointsBefore, state.game.currentSet, now);
      state := state.(history := state.history + [entry]);
      if |state.history| > MAX_HISTORY_LENGTH {
        state := state.(history := state.history[1..]);
      }
      state := state.(undoAvailable := |state.history| > 0);
    }

    method RecordPoint(player: Player, id: string, now: int) returns (published: Saved)
      modifies this
      ensures state == Step(rules, BOUND, old(state), Action.RecordPoint(player, id, now)).state
      ensures emitted == old(emitted) + Emitted(rules, old(state), Action.RecordPoint(player, id, now))
      ensures published == GetState(state)
    {
      if state.game.status == Live {
        var pointsBefore := state.game.currentSet;
        var events := rules.scoreEvents(state.game, player);
        state := state.(game := rules.recordScore(state.game, player));
        AddToHistory(player, Point, pointsBefore, id, now);
        ghost var scored := state;
        for k := 0 to |events|
          invariant state == scored && emitted == old(emitted) + events[..k]
        {
          emitted := emitted + [events[k]];
        }
      }
      published := GetState(state);
    }

    method SubtractPoint(player: Player, id: string, now: int) returns (published: Saved)
      modifies this`state
      ensures state == Step(rules, BOUND, old(state), Action.SubtractPoint(player, id, now)).state
      ensures published == GetState(state)
    {
      if state.game.status == Live {
        var pointsBefore := state.game.currentSet;
        state := state.(game := rules.subtractScore(state.game, player));
        AddToHistory(player, Correction, pointsBefore, id, now);
      }
      published := GetState(state);
    }

    predicate CanUndo()
      reads this
    {
      state.history != [] && state.game.status == Live
    }

    // Nothing guards an empty log: popping it throws, which None stands for.
    method UndoLast() returns (published: Option<Saved>)
      modifies this`state
      ensures var out := Step(rules, BOUND, old(state), Action.UndoLast);
              && state == out.state
              && published == (if out.failed then None else Some(GetState(state)))
      ensures old(CanUndo()) ==> published.Some?
    {
      if state.history == [] { return None; }
      var last := state.history[|state.history| - 1];
      state := state.(history := state.history[..|state.history| - 1]);
      state := state.(game := state.game.(currentSet := last.pointsBefore));
      state := state.(game := state.game.(serving := rules.updateServing(state.game)));
      state := state.(undoAvailable := |state.history| > 0);
      published := Some(GetState(state));
    }

    method StartMatch() returns (published: Saved)
      modifies this`state
      ensures state == Step(rules, BOUND, old(state), Action.StartMatch).state
      ensures published == GetState(state)
    {
      state := state.(game := state.game.(status := Live));
      published := GetState(state);
    }

    method SetServer(player: Player) returns (published: Saved)
      modifies this`state
      ensures state == Step(rules, BOUND, old(state), Action.SetServer(player)).state
      ensures published == GetState(state)
    {
      state := state.(game := state.game.(serving := player));
      published := GetState(state);
    }

    method SwapSides() returns (published: Saved)
      modifies this`state
      ensures state == Step(rules, BOUND, old(state), Action.SwapSides).state
      ensures published == GetState(state)
    {
      state := state.(game := state.game.(swappedSides := !state.game.swappedSides));
      published := GetState(state);
    }

    method SetCourtId(id: string, name: string)
      modifies this`state
      ensures state == old(state).(courtId := id, courtName := name)
    {
      state := state.(courtId := id, courtName := name);
    }

    method SetPlayerNames(names: PlayerNames) returns (published: Saved)
      modifies this`state
      ensures state == old(state).(playerNames := names)
      ensures published == GetState(state)
    {
      state := state.(playerNames := names);
      published := GetState(state);
    }

    // Back to the default table-tennis match, whatever the rules are.
    method Reset()
      modifies this`state
      ensures state == InitialState(INITIAL_CONFIG)
    {
      state := InitialState(INITIAL_CONFIG);
    }
  }
}
