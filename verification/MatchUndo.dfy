// The undo log, for any sport rules whatever: a bounded window on an unbounded stack, whose
// entries chain back through every score of the current set.

module MatchUndo {
  import opened Types
  import opened MatchSpec

  const BOUND: Option<nat> := Some(MAX_HISTORY_LENGTH)

  // ---- chaining ----

  ghost predicate Chained(h: seq<ScoreChange>, now: Score) {
    && (forall i | 0 <= i < |h| - 1 :: h[i].pointsAfter == h[i + 1].pointsBefore)
    && (h != [] ==> h[|h| - 1].pointsAfter == now)
  }

  // Each entry ends where the next begins, and the last one at the current score.
  ghost predicate LogOk(st: MatchState) {
    Chained(st.history, st.game.currentSet) && (st.undoAvailable <==> st.history != [])
  }

  lemma StepLogOk(rules: SportRules, cap: Option<nat>, st: MatchState, act: Action)
    requires LogOk(st)
    ensures LogOk(Step(rules, cap, st, act).state)
    ensures cap.Some? && |st.history| <= cap.value ==> |Step(rules, cap, st, act).state.history| <= cap.value
  {
  }

  // The log is sound, and never longer than its bound, over every run.
  lemma {:induction false} RunLogOk(rules: SportRules, cap: Option<nat>, st: MatchState, acts: seq<Action>)
    requires LogOk(st)
    ensures LogOk(Run(rules, cap, st, acts))
    ensures cap.Some? && |st.history| <= cap.value ==> |Run(rules, cap, st, acts).history| <= cap.value
    decreases acts
  {
    if acts != [] {
      StepLogOk(rules, cap, st, acts[0]);
      RunLogOk(rules, cap, Step(rules, cap, st, acts[0]).state, acts[1..]);
    }
  }

  // What a scored action writes down, and that the other actions touch one field each.
  lemma ActionMeans(rules: SportRules, cap: Option<nat>, st: MatchState, act: Action)
    requires cap.None? || cap.value > 0
    ensures var st' := Step(rules, cap, st, act).state;
            match act
            case RecordPoint(p, id, now) =>
              if st.game.status != Live then st' == st
              else
                && st'.game == rules.recordScore(st.game, p) && st'.history != [] && st'.undoAvailable
                && st'.history[|st'.history| - 1]
                   == ScoreChange(id, p, Point, st.game.currentSet, st'.game.currentSet, now)
            case SubtractPoint(p, id, now) =>
              if st.game.status != Live then st' == st
              else
                && st'.game == rules.subtractScore(st.game, p) && st'.history != [] && st'.undoAvailable
                && st'.history[|st'.history| - 1]
                   == ScoreChange(id, p, Correction, st.game.currentSet, st'.game.currentSet, now)
            case UndoLast => st.history == [] ==> st' == st
            case StartMatch => st' == st.(game := st.game.(status := Live))
            case SetServer(p) => st' == st.(game := st.game.(serving := p))
            case SwapSides => st' == st.(game := st.game.(swappedSides := !st.game.swappedSides))
    ensures Emitted(rules, st, act) == match act
                                       case RecordPoint(p, _, _) =>
                                         if st.game.status != Live then [] else rules.scoreEvents(st.game, p)
                                       case _ => []
  {
  }

  // ---- the bounded log refines the unbounded one ----

  ghost predicate IsSuffix(h: seq<ScoreChange>, u: seq<ScoreChange>) {
    |h| <= |u| && h == u[|u| - |h|..]
  }

  // Same match, but the bounded log has forgotten the oldest entries.
  ghost predicate Refines(b: MatchState, u: MatchState) {
    && IsSuffix(b.history, u.history)
    && b == u.(history := b.history, undoAvailable := b.undoAvailable)
    && |b.history| <= MAX_HISTORY_LENGTH
  }

  lemma StepRefines(rules: SportRules, b: MatchState, u: MatchState, act: Action)
    requires Refines(b, u) && !Step(rules, BOUND, b, act).failed
    ensures !Step(rules, None, u, act).failed
    ensures Refines(Step(rules, BOUND, b, act).state, Step(rules, None, u, act).state)
  {
    if act.UndoLast? {
      assert b.history[|b.history| - 1] == u.history[|u.history| - 1];
      SuffixPop(b.history, u.history);
    } else if act.RecordPoint? || act.SubtractPoint? {
      if b.game.status == Live {
        var e := Step(rules, None, u, act).state.history[|u.history|];
        SuffixPush(b.history, u.history, e);
      }
    }
  }

  lemma SuffixPop(h: seq<ScoreChange>, u: seq<ScoreChange>)
    requires IsSuffix(h, u) && h != []
    ensures IsSuffix(h[..|h| - 1], u[..|u| - 1])
  {
  }

  lemma SuffixPush(h: seq<ScoreChange>, u: seq<ScoreChange>, e: ScoreChange)
    requires IsSuffix(h, u) && |h| <= MAX_HISTORY_LENGTH
    ensures IsSuffix(Pushed(h, e, BOUND), Pushed(u, e, None)) && |Pushed(h, e, BOUND)| <= MAX_HISTORY_LENGTH
  {
  }

  // No undo of the run finds the log empty.
  predicate Legal(rules: SportRules, cap: Option<nat>, st: MatchState, acts: seq<Action>)
    decreases acts
  {
    acts != [] ==>
      && !Step(rules, cap, st, acts[0]).failed
      && Legal(rules, cap, Step(rules, cap, st, acts[0]).state, acts[1..])
  }

  // Every run legal for the bounded engine is legal for the unbounded one and goes the same way.
  lemma {:induction false} RunRefines(rules: SportRules, b: MatchState, u: MatchState, acts: seq<Action>)
    requires Refines(b, u) && Legal(rules, BOUND, b, acts)
    ensures Legal(rules, None, u, acts)
    ensures Refines(Run(rules, BOUND, b, acts), Run(rules, None, u, acts))
    decreases acts
  {
    if acts != [] {
      StepRefines(rules, b, u, acts[0]);
      RunRefines(rules, Step(rules, BOUND, b, acts[0]).state, Step(rules, None, u, acts[0]).state, acts[1..]);
    }
  }

  // ---- undo takes the score back ----

  function Undos(k: nat): seq<Action> { seq(k, _ => UndoLast) }

  // k undos put back the score of k entries ago and touch nothing else but the server and the log.
  lemma {:induction false} UndosRestore(rules: SportRules, cap: Option<nat>, st: MatchState, k: nat)
    requires k <= |st.history|
    ensures Legal(rules, cap, st, Undos(k))
    ensures var st' := Run(rules, cap, st, Undos(k));
            && st'.history == st.history[..|st.history| - k]
            && st'.game == st.game.(currentSet := st'.game.currentSet, serving := st'.game.serving)
            && (LogOk(st) ==> LogOk(st'))
            && (k > 0 ==> st'.game.currentSet == st.history[|st.history| - k].pointsBefore)
            && (k == 0 ==> st' == st)
    decreases k
  {
    if k > 0 {
      assert Undos(k)[0] == UndoLast && Undos(k)[1..] == Undos(k - 1);
      var st1 := Step(rules, cap, st, UndoLast).state;
      if LogOk(st) { StepLogOk(rules, cap, st, UndoLast); }
      UndosRestore(rules, cap, st1, k - 1);
      assert Run(rules, cap, st, Undos(k)) == Run(rules, cap, st1, Undos(k - 1));
      assert st.history[..|st.history| - 1][..|st.history| - k] == st.history[..|st.history| - k];
    }
  }

  // ---- undo over any run ----

  // What an undo is meant to find: the scores shown before each scored action that has not been
  // undone since, oldest first. Told from the scores alone, without looking at the log.
  function ToReturnTo(rules: SportRules, st: MatchState, acts: seq<Action>, scores: seq<Score>): seq<Score>
    decreases acts
  {
    if acts == [] then scores
    else ToReturnTo(rules, Step(rules, BOUND, st, acts[0]).state, acts[1..], AfterAction(st, acts[0], scores))
  }

  function AfterAction(st: MatchState, act: Action, scores: seq<Score>): seq<Score> {
    if (act.RecordPoint? || act.SubtractPoint?) && st.game.status == Live then scores + [st.game.currentSet]
    else if act.UndoLast? && scores != [] then scores[..|scores| - 1]
    else scores
  }

  // The log holds the newest of those scores.
  ghost predicate Remembers(h: seq<ScoreChange>, scores: seq<Score>) {
    && |h| <= |scores|
    && forall i | 0 <= i < |h| :: h[i].pointsBefore == scores[|scores| - |h| + i]
  }

  lemma StepRemembers(rules: SportRules, st: MatchState, act: Action, scores: seq<Score>)
    requires Remembers(st.history, scores) && !Step(rules, BOUND, st, act).failed
    ensures Remembers(Step(rules, BOUND, st, act).state.history, AfterAction(st, act, scores))
  {
  }

  lemma {:induction false} RunRemembers(rules: SportRules, st: MatchState, acts: seq<Action>, scores: seq<Score>)
    requires Remembers(st.history, scores) && Legal(rules, BOUND, st, acts)
    ensures Remembers(Run(rules, BOUND, st, acts).history, ToReturnTo(rules, st, acts, scores))
    decreases acts
  {
    if acts != [] {
      StepRemembers(rules, st, acts[0], scores);
      RunRemembers(rules, Step(rules, BOUND, st, acts[0]).state, acts[1..], AfterAction(st, acts[0], scores));
    }
  }

  // Points, corrections, undos and anything else in any order: k more undos, k up to what is left
  // in the log, return the score from before the k-th last scored action not undone yet.
  lemma UndosReturnAnywhere(rules: SportRules, st: MatchState, acts: seq<Action>, k: nat)
    requires st.history == [] && Legal(rules, BOUND, st, acts)
    requires 0 < k <= |Run(rules, BOUND, st, acts).history|
    ensures var scores, played := ToReturnTo(rules, st, acts, []), Run(rules, BOUND, st, acts);
            && k <= |scores|
            && Legal(rules, BOUND, played, Undos(k))
            && Run(rules, BOUND, played, Undos(k)).game.currentSet == scores[|scores| - k]
  {
    RunRemembers(rules, st, acts, []);
    UndosReturn(rules, Run(rules, BOUND, st, acts), ToReturnTo(rules, st, acts, []), k);
  }

  lemma UndosReturn(rules: SportRules, st: MatchState, scores: seq<Score>, k: nat)
    requires Remembers(st.history, scores) && 0 < k <= |st.history|
    ensures k <= |scores| && Legal(rules, BOUND, st, Undos(k))
    ensures Run(rules, BOUND, st, Undos(k)).game.currentSet == scores[|scores| - k]
  {
    UndosRestore(rules, BOUND, st, k);
    assert st.history[|st.history| - k].pointsBefore == scores[|scores| - |st.history| + (|st.history| - k)];
  }

  // ---- undo over a run without undos ----

  predicate IsUndo(act: Action) { act.UndoLast? }

  // How many actions of a run were scored: points and corrections while live.
  function ScoredActions(rules: SportRules, cap: Option<nat>, st: MatchState, acts: seq<Action>): nat
    decreases acts
  {
    if acts == [] then 0
    else
      (if (acts[0].RecordPoint? || acts[0].SubtractPoint?) && st.game.status == Live then 1 else 0)
      + ScoredActions(rules, cap, Step(rules, cap, st, acts[0]).state, acts[1..])
  }

  // In an unbounded log, a run without undos appends one entry per scored action, chaining from
  // the score it started at.
  lemma {:induction false} RunAppends(rules: SportRules, st: MatchState, acts: seq<Action>)
    requires forall i | 0 <= i < |acts| :: !IsUndo(acts[i])
    ensures var st', k := Run(rules, None, st, acts), ScoredActions(rules, None, st, acts);
            && |st'.history| == |st.history| + k
            && st'.history[..|st.history|] == st.history
            && (k == 0 ==> st'.game.currentSet == st.game.currentSet)
            && (k > 0 ==> st'.history[|st.history|].pointsBefore == st.game.currentSet)
    decreases acts
  {
    if acts != [] {
      assert !IsUndo(acts[0]);
      assert forall i | 0 <= i < |acts[1..]| :: !IsUndo(acts[1..][i]);
      var st1 := Step(rules, None, st, acts[0]).state;
      RunAppends(rules, st1, acts[1..]);
      var st' := Run(rules, None, st, acts);
      if st1.history != st.history {
        assert st'.history[..|st.history|] == st'.history[..|st1.history|][..|st.history|];
        assert st'.history[|st.history|] == st'.history[..|st1.history|][|st.history|];
      }
    }
  }

  lemma {:induction false} ScoredAgree(rules: SportRules, b: MatchState, u: MatchState, acts: seq<Action>)
    requires Refines(b, u) && Legal(rules, BOUND, b, acts)
    ensures ScoredActions(rules, BOUND, b, acts) == ScoredActions(rules, None, u, acts)
    decreases acts
  {
    if acts != [] {
      StepRefines(rules, b, u, acts[0]);
      ScoredAgree(rules, Step(rules, BOUND, b, acts[0]).state, Step(rules, None, u, acts[0]).state, acts[1..]);
    }
  }

  lemma {:induction false} NoUndoIsLegal(rules: SportRules, cap: Option<nat>, st: MatchState, acts: seq<Action>)
    requires forall i | 0 <= i < |acts| :: !IsUndo(acts[i])
    ensures Legal(rules, cap, st, acts)
    decreases acts
  {
    if acts != [] {
      assert !IsUndo(acts[0]);
      assert forall i | 0 <= i < |acts[1..]| :: !IsUndo(acts[1..][i]);
      NoUndoIsLegal(rules, cap, Step(rules, cap, st, acts[0]).state, acts[1..]);
    }
  }

  lemma {:induction false} BoundedLength(rules: SportRules, st: MatchState, acts: seq<Action>)
    requires |st.history| <= MAX_HISTORY_LENGTH
    requires forall i | 0 <= i < |acts| :: !IsUndo(acts[i])
    ensures var all := |st.history| + ScoredActions(rules, BOUND, st, acts);
            |Run(rules, BOUND, st, acts).history| == if all < 20 then all else 20
    decreases acts
  {
    if acts != [] {
      assert !IsUndo(acts[0]);
      assert forall i | 0 <= i < |acts[1..]| :: !IsUndo(acts[1..][i]);
      BoundedLength(rules, Step(rules, BOUND, st, acts[0]).state, acts[1..]);
    }
  }

  // Score k times, k at most 20, with any other actions in between; then k undos are possible and
  // the current set's score is what it was before the first of them.
  lemma UndoReturns(rules: SportRules, st: MatchState, acts: seq<Action>)
    requires |st.history| <= MAX_HISTORY_LENGTH
    requires forall i | 0 <= i < |acts| :: !IsUndo(acts[i])
    requires ScoredActions(rules, BOUND, st, acts) <= MAX_HISTORY_LENGTH
    ensures var k, played := ScoredActions(rules, BOUND, st, acts), Run(rules, BOUND, st, acts);
            && Legal(rules, BOUND, played, Undos(k))
            && Run(rules, BOUND, played, Undos(k)).game.currentSet == st.game.currentSet
  {
    var k := ScoredActions(rules, BOUND, st, acts);
    var played, full := Run(rules, BOUND, st, acts), Run(rules, None, st, acts);
    NoUndoIsLegal(rules, BOUND, st, acts);
    RunRefines(rules, st, st, acts);
    ScoredAgree(rules, st, st, acts);
    RunAppends(rules, st, acts);
    BoundedLength(rules, st, acts);
    UndosRestore(rules, BOUND, played, k);
    if k > 0 {
      assert played.history[|played.history| - k] == full.history[|st.history|];
    }
  }
}
