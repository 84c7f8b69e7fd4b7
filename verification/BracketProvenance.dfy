// The bracket updated in place means the same as a pure recursive one: every slot after the first
// round is a function of the round-1 seeds and the declared winners. What follows from that: where
// each player is, how many matches are decided, and who the champion beat.

module BracketProvenance {
  import opened Types
  import opened BracketTree
  import opened BracketSpec
  import opened BracketUndo
  import opened BracketOps
  import opened BracketCoherence

  // ---- the pure bracket ----

  datatype Seed = Seed(a: Option<Name>, b: Option<Name>) {
    function Slot(s: Player): Option<Name> { if s == A then a else b }
  }

  // What the organizer decided: round-1 seeds and declared winners.
  datatype Play = Play(seeds: seq<Seed>, wins: seq<Option<Player>>) {
    predicate Ok() { TreeSize(|wins|) && 2 * |seeds| == |wins| + 1 }
  }

  // Who plays in slot s of match k.
  function Entrant(p: Play, k: nat, s: Player): Option<Name>
    requires p.Ok() && k < |p.wins|
    decreases k
  {
    if !HasFeeders(|p.wins|, k) then p.seeds[k].Slot(s)
    else
      var f := Feeder(|p.wins|, k, s);
      if p.wins[f].None? then None else Entrant(p, f, p.wins[f].value)
  }

  function PlayOf(ms: seq<Match>): (p: Play)
    requires TreeSize(|ms|)
    ensures p.Ok() && |p.wins| == |ms|
  {
    Play(seq((|ms| + 1) / 2, k requires 0 <= k < |ms| => Seed(ms[k].playerA, ms[k].playerB)),
         seq(|ms|, k requires 0 <= k < |ms| => ms[k].winner))
  }

  // ---- the invariant that makes them equal ----

  predicate FromFeeder(ms: seq<Match>, k: nat, s: Player)
    requires TreeSize(|ms|) && k < |ms|
  {
    HasFeeders(|ms|, k) ==>
      ms[k].Slot(s) == ms[Feeder(|ms|, k, s)].WinnerName()
  }

  // Statuses are coherent, a declared winner is somebody, and every later slot holds the name its
  // feeder's winner has now.
  ghost predicate Sound(ms: seq<Match>) {
    && TreeSize(|ms|)
    && CoherentTree(ms)
    && (forall k | 0 <= k < |ms| :: ms[k].Decided() ==> ms[k].WinnerName().Some?)
    && (forall k, s | 0 <= k < |ms| :: FromFeeder(ms, k, s))
  }

  // The mutable tree equals the pure recursive bracket.
  lemma {:induction false} TreeIsPure(ms: seq<Match>, k: nat, s: Player)
    requires Sound(ms) && k < |ms|
    ensures ms[k].Slot(s) == Entrant(PlayOf(ms), k, s)
    decreases k
  {
    if HasFeeders(|ms|, k) {
      assert FromFeeder(ms, k, s);
      var f := Feeder(|ms|, k, s);
      if ms[f].winner.Some? {
        TreeIsPure(ms, f, ms[f].winner.value);
      }
    }
  }

  // Seeds and declared winners determine the whole tree: no other history is left in it.
  lemma PlayDeterminesTree(ms: seq<Match>, ms': seq<Match>)
    requires Sound(ms) && Sound(ms') && |ms| == |ms'| && PlayOf(ms) == PlayOf(ms')
    requires forall k | 0 <= k < |ms| :: SamePlace(ms[k], ms'[k]) && ms[k].courtId == ms'[k].courtId
    ensures ms == ms'
  {
    forall k | 0 <= k < |ms|
      ensures ms[k] == ms'[k]
    {
      TreeIsPure(ms, k, A);
      TreeIsPure(ms, k, B);
      TreeIsPure(ms', k, A);
      TreeIsPure(ms', k, B);
      assert ms[k].winner == PlayOf(ms).wins[k] == PlayOf(ms').wins[k] == ms'[k].winner;
      assert ms[k].playerA == ms'[k].playerA && ms[k].playerB == ms'[k].playerB;
    }
  }

  // ---- every operation follows the pure bracket ----

  // The pure meaning of an undo: no winners along the chain of declared winners.
  function PlayChain(p: Play, i: nat): (c: set<nat>)
    requires p.Ok() && i < |p.wins|
    decreases |p.wins| - i
  {
    if IsFinal(|p.wins|, i) || p.wins[Next(|p.wins|, i)].None? then {i}
    else {i} + PlayChain(p, Next(|p.wins|, i))
  }

  function Retract(p: Play, i: nat): Play
    requires p.Ok() && i < |p.wins|
  {
    p.(wins := seq(|p.wins|, k requires 0 <= k < |p.wins| => if k in PlayChain(p, i) then None else p.wins[k]))
  }

  lemma {:induction false} ChainsAgree(ms: seq<Match>, i: nat)
    requires TreeSize(|ms|) && CoherentTree(ms) && i < |ms|
    ensures PlayChain(PlayOf(ms), i) == Chain(ms, i)
    decreases |ms| - i
  {
    if !IsFinal(|ms|, i) && ms[Next(|ms|, i)].Decided() {
      ChainsAgree(ms, Next(|ms|, i));
    }
  }

  // Declaring a winner, byes and late feeds into decided byes included.
  lemma DeclareSound(ms: seq<Match>, i: nat, w: Player)
    requires Sound(ms) && i < |ms| && ms[i].status == Ready && ms[i].Slot(w).Some?
    ensures Sound(Declared(ms, i, w))
    ensures PlayOf(Declared(ms, i, w)) == PlayOf(ms).(wins := PlayOf(ms).wins[i := Some(w)])
  {
    var n, ms' := |ms|, Declared(ms, i, w);
    DeclaredCoherent(ms, i, w);
    if !IsFinal(n, i) {
      var j := Next(n, i);
      FeederOfNext(n, i);
      assert FromFeeder(ms, j, Side(i));
      assert ms[j].Slot(Side(i)).None?;
      assert ms'[j].Decided() ==> ms'[j].WinnerName() == ms[j].WinnerName();
    }
    forall k, s | 0 <= k < n
      ensures FromFeeder(ms', k, s)
    {
      assert FromFeeder(ms, k, s);
    }
  }

  lemma UndoSound(ms: seq<Match>, i: nat)
    requires Sound(ms) && i < |ms|
    ensures Sound(UndoMain(ms, i))
    ensures PlayOf(UndoMain(ms, i)) == Retract(PlayOf(ms), i)
  {
    var n, c, ms' := |ms|, Chain(ms, i), UndoMain(ms, i);
    WipeCoherent(ms, i);
    ChainsAgree(ms, i);
    forall k | 0 <= k < n
      ensures k !in c && ms[k].Decided() ==> !FedBy(n, c, k, A) && !FedBy(n, c, k, B)
    {
      if FedBy(n, c, k, A) { ChainClosed(ms, i, Feeder(n, k, A)); }
      if FedBy(n, c, k, B) { ChainClosed(ms, i, Feeder(n, k, B)); }
    }
    forall k, s | 0 <= k < n
      ensures FromFeeder(ms', k, s)
      ensures ms'[k].Decided() ==> ms'[k].WinnerName().Some?
    {
      assert FromFeeder(ms, k, s);
      DecidedAfterWipe(ms, i, k);
    }
    forall k | 0 <= k < |PlayOf(ms').seeds|
      ensures PlayOf(ms').seeds[k] == PlayOf(ms).seeds[k]
    {
      assert !HasFeeders(n, k);
    }
  }

  // Seeding keeps the meaning exactly when the slot belongs to a first-round match and is not the
  // one a declared winner advanced from, or nothing changes.
  predicate Seedable(ms: seq<Match>, i: nat, s: Player, v: Option<Name>)
    requires i < |ms|
  {
    || ms[i].Slot(s) == v
    || (!HasFeeders(|ms|, i) && ms[i].winner != Some(s))
  }

  lemma SeedSound(ms: seq<Match>, i: nat, s: Player, v: Option<Name>)
    requires Sound(ms) && i < |ms| && |ms| > 1
    ensures Sound(ms[i := ms[i].Fed(s, v)]) <==> Seedable(ms, i, s, v)
  {
    var n, ms' := |ms|, ms[i := ms[i].Fed(s, v)];
    assert FromFeeder(ms, i, s) && FromFeeder(ms, i, s.Other());
    if Seedable(ms, i, s, v) {
      forall k, t | 0 <= k < n
        ensures FromFeeder(ms', k, t)
      {
        assert FromFeeder(ms, k, t);
      }
    } else if HasFeeders(n, i) {
      assert !FromFeeder(ms', i, s);
    } else {
      FeederOfNext(n, i);
      assert FromFeeder(ms, Next(n, i), Side(i));
      assert !FromFeeder(ms', Next(n, i), Side(i));
    }
  }

  ghost predicate EngineSound(e: Option<Bracket>) { e.Some? ==> Sound(e.value.matches) }

  // The one discipline asked of callers: player assignments in the main tree must be seedings.
  predicate Disciplined(e: Option<Bracket>, op: Op) {
    match op
    case OnMatch(id, AssignPlayer(s, name)) =>
      e.Some? && Find(e.value, id).Some? && Find(e.value, id).value.Main? && |name| <= MAX_PLAYER_NAME_LEN ==>
        Seedable(e.value.matches, Find(e.value, id).value.index, s, if name == "" then None else Some(name))
    case _ => true
  }

  lemma ApplySound(b: Bracket, ref: Ref, op: MatchOp)
    requires WellFormed(b) && Valid(b, ref) && Sound(b.matches) && TreeSize(|b.matches|)
    requires op.AssignPlayer? && ref.Main? && |op.player| <= MAX_PLAYER_NAME_LEN ==>
               Seedable(b.matches, ref.index, op.slot, if op.player == "" then None else Some(op.player))
    ensures ApplyTo(b, ref, op).Ok? ==> Sound(ApplyTo(b, ref, op).value.matches)
  {
    WellFormedTree(b);
    if ref.Main? {
      match op
      case AssignPlayer(s, name) =>
        SeedSound(b.matches, ref.index, s, if name == "" then None else Some(name));
      case SetWinner(w) =>
        if DeclareWinner(b, ref, w).Ok? { DeclareSound(b.matches, ref.index, w); }
      case UndoMatch =>
        UndoIsPlay(b, ref.index);
        UndoSound(b.matches, ref.index);
      case SetThirdPlaceLoser(_) =>
      case SetCourt(c) => CourtsSound(b.matches, BindCourt(b, ref, c).matches);
    }
  }

  lemma CourtsSound(ms: seq<Match>, ms': seq<Match>)
    requires Sound(ms) && |ms'| == |ms|
    requires forall k | 0 <= k < |ms| :: ms'[k] == ms[k].(courtId := ms'[k].courtId)
    ensures Sound(ms')
  {
    forall k, s | 0 <= k < |ms|
      ensures FromFeeder(ms', k, s)
    {
      assert FromFeeder(ms, k, s);
    }
  }

  lemma StepSound(e: Option<Bracket>, op: Op)
    requires EngineOk(e) && EngineSound(e) && Disciplined(e, op)
    ensures EngineSound(Step(e, op).bracket)
  {
    match op
    case Create(name, numSlots, tp, now) =>
      if numSlots in {4, 8, 16, 32} {
        CreateWellFormed(name, numSlots, tp, now);
        EmptySound(Step(e, op).bracket.value);
      }
    case OnMatch(id, mop) =>
      if e.Some? {
        WellFormedTree(e.value);
        if Find(e.value, id).Some? {
          ApplySound(e.value, Find(e.value, id).value, mop);
        }
      }
    case ReleaseCourts =>
      if e.Some? {
        CourtsSound(e.value.matches, ReleaseAll(e.value).matches);
      }
    case Reset =>
  }

  lemma EmptySound(b: Bracket)
    requires WellFormed(b) && b.status == Setup
    requires forall ref | Valid(b, ref) ::
               Get(b, ref) == EmptyMatch(Get(b, ref).id, Get(b, ref).round, Get(b, ref).position)
    ensures Sound(b.matches)
  {
    WellFormedTree(b);
    EmptyCoherent(b);
    forall k | 0 <= k < |b.matches|
      ensures b.matches[k].playerA.None? && b.matches[k].playerB.None? && b.matches[k].winner.None?
    {
      assert b.matches[k] == Get(b, Main(k));
    }
  }

  ghost predicate DisciplinedRun(e: Option<Bracket>, ops: seq<Op>)
    requires EngineOk(e)
    decreases ops
  {
    ops != [] ==>
      && Disciplined(e, ops[0])
      && (StepOk(e, ops[0]); DisciplinedRun(Step(e, ops[0]).bracket, ops[1..]))
  }

  // In every disciplined run the tree stays equal to the pure bracket.
  lemma {:induction false} RunSound(e: Option<Bracket>, ops: seq<Op>)
    requires EngineOk(e) && EngineSound(e) && DisciplinedRun(e, ops)
    ensures EngineSound(Run(e, ops))
    ensures Run(e, ops).Some? ==>
              var ms := Run(e, ops).value.matches;
              && TreeSize(|ms|)
              && forall k, s | 0 <= k < |ms| :: ms[k].Slot(s) == Entrant(PlayOf(ms), k, s)
    decreases ops
  {
    if ops != [] {
      StepOk(e, ops[0]);
      StepSound(e, ops[0]);
      RunSound(Step(e, ops[0]).bracket, ops[1..]);
    } else if e.Some? {
      forall k, s | 0 <= k < |e.value.matches|
        ensures e.value.matches[k].Slot(s) == Entrant(PlayOf(e.value.matches), k, s)
      {
        TreeIsPure(e.value.matches, k, s);
      }
    }
  }
}
