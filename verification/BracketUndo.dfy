// What the recursive undo really does: it wipes the maximal unbroken chain of decided matches
// downstream of its target, and nothing else. Everything here holds of any state whatever,
// coherent or not.

module BracketUndo {
  import opened Types
  import opened BracketTree
  import opened BracketSpec

  // The target, then the next match while that one is decided.
  function Chain(ms: seq<Match>, i: nat): (c: set<nat>)
    requires TreeSize(|ms|) && i < |ms|
    ensures i in c && forall k | k in c :: i <= k < |ms|
    decreases |ms| - i
  {
    if IsFinal(|ms|, i) || !ms[Next(|ms|, i)].Decided() then {i}
    else {i} + Chain(ms, Next(|ms|, i))
  }

  // Slot s of match k is fed by a match of S.
  predicate FedBy(n: nat, S: set<nat>, k: nat, s: Player)
    requires TreeSize(n) && k < n
  {
    HasFeeders(n, k) && Feeder(n, k, s) in S
  }

  // Match k once the matches of S lose their winners and the slots these fed are emptied.
  function WipedMatch(ms: seq<Match>, S: set<nat>, k: nat): Match
    requires TreeSize(|ms|) && k < |ms|
  {
    var m := ms[k];
    var a := if FedBy(|ms|, S, k, A) then None else m.playerA;
    var b := if FedBy(|ms|, S, k, B) then None else m.playerB;
    var m' := m.(playerA := a, playerB := b);
    if k in S then m'.(winner := None).Recomputed()
    else if FedBy(|ms|, S, k, A) || FedBy(|ms|, S, k, B) then m'.Recomputed()
    else m
  }

  function Wipe(ms: seq<Match>, S: set<nat>): (r: seq<Match>)
    requires TreeSize(|ms|)
    ensures |r| == |ms|
    ensures forall k | 0 <= k < |ms| :: r[k] == WipedMatch(ms, S, k)
  {
    seq(|ms|, k requires 0 <= k < |ms| => WipedMatch(ms, S, k))
  }

  // The chain depends only on which later matches are decided.
  lemma {:induction false} ChainFrame(ms: seq<Match>, ms': seq<Match>, i: nat)
    requires TreeSize(|ms|) && |ms'| == |ms| && i < |ms|
    requires forall k | i < k < |ms| :: ms'[k].Decided() == ms[k].Decided()
    ensures Chain(ms', i) == Chain(ms, i)
    decreases |ms| - i
  {
    if !IsFinal(|ms|, i) && ms[Next(|ms|, i)].Decided() {
      ChainFrame(ms, ms', Next(|ms|, i));
    }
  }

  // A chain is unbroken (every member but the target was decided and is fed by another member) and
  // maximal (it goes on as long as the next match is decided).
  lemma {:induction false} ChainClosed(ms: seq<Match>, i: nat, k: nat)
    requires TreeSize(|ms|) && i < |ms| && k in Chain(ms, i)
    ensures Chain(ms, k) <= Chain(ms, i)
    ensures k != i ==> ms[k].Decided() && (FedBy(|ms|, Chain(ms, i), k, A) || FedBy(|ms|, Chain(ms, i), k, B))
    ensures !IsFinal(|ms|, k) && ms[Next(|ms|, k)].Decided() ==> Next(|ms|, k) in Chain(ms, i)
    decreases |ms| - i
  {
    if k != i {
      ChainClosed(ms, Next(|ms|, i), k);
    }
  }

  // One step of the cascade, as a wipe of the target alone, then of the rest of the chain.
  lemma WipeOneThenRest(ms: seq<Match>, ms': seq<Match>, i: nat, rest: set<nat>)
    requires TreeSize(|ms|) && i < |ms| - 1 && |ms'| == |ms|
    requires Next(|ms|, i) in rest && forall k | k in rest :: Next(|ms|, i) <= k
    requires ms' == ms[i := ms[i].(winner := None).Recomputed()]
                      [Next(|ms|, i) := ms[Next(|ms|, i)].WithSlot(Side(i), None).Recomputed()]
    ensures Wipe(ms', rest) == Wipe(ms, {i} + rest)
  {
    var n, j := |ms|, Next(|ms|, i);
    forall k | 0 <= k < n
      ensures WipedMatch(ms', rest, k) == WipedMatch(ms, {i} + rest, k)
    {
      if HasFeeders(n, k) && k != j {
        assert Feeder(n, k, A) != i && Feeder(n, k, B) != i;
      }
      if k == j {
        assert Feeder(n, k, Side(i)) == i;
        assert Feeder(n, k, Side(i).Other()) != i;
      }
    }
  }

  // The recursive undo equals the closed form.
  lemma {:induction false} CascadeIsWipe(b: Bracket, i: nat)
    requires TreeSize(|b.matches|) && i < |b.matches|
    ensures CascadeUndo(b, i).matches == Wipe(b.matches, Chain(b.matches, i))
    decreases |b.matches| - i
  {
    var n, ms := |b.matches|, b.matches;
    if IsFinal(n, i) {
      forall k | 0 <= k < n
        ensures CascadeUndo(b, i).matches[k] == WipedMatch(ms, {i}, k)
      {
        if HasFeeders(n, k) {
          assert Feeder(n, k, A) != i && Feeder(n, k, B) != i;
        }
      }
    } else {
      var j, ms' := Next(n, i), TakenBack(b, i).matches;
      if ms[j].Decided() {
        ChainFrame(ms, ms', j);
        CascadeIsWipe(TakenBack(b, i), j);
        WipeOneThenRest(ms, ms', i, Chain(ms, j));
      } else {
        WipeTargetOnly(ms, ms', i);
      }
    }
  }

  lemma WipeTargetOnly(ms: seq<Match>, ms': seq<Match>, i: nat)
    requires TreeSize(|ms|) && i < |ms| - 1 && |ms'| == |ms|
    requires ms' == ms[i := ms[i].(winner := None).Recomputed()]
                      [Next(|ms|, i) := ms[Next(|ms|, i)].WithSlot(Side(i), None).Recomputed()]
    ensures ms' == Wipe(ms, {i})
  {
    var n, j := |ms|, Next(|ms|, i);
    forall k | 0 <= k < n
      ensures ms'[k] == WipedMatch(ms, {i}, k)
    {
      if HasFeeders(n, k) && k != j {
        assert Feeder(n, k, A) != i && Feeder(n, k, B) != i;
      }
      if k == j {
        assert Feeder(n, k, Side(i)) == i;
        assert Feeder(n, k, Side(i).Other()) != i;
      }
    }
  }

  // Match by match: winners go exactly along the chain, slots are emptied exactly where the chain
  // feeds them, courts and every other match stay as they were.
  lemma UndoEffect(b: Bracket, i: nat, k: nat, s: Player)
    requires TreeSize(|b.matches|) && i < |b.matches| && k < |b.matches|
    ensures var n, c, m := |b.matches|, Chain(b.matches, i), b.matches[k];
            && |Undo(b, Main(i)).matches| == n
            && var m' := Undo(b, Main(i)).matches[k];
               && SamePlace(m, m') && m'.courtId == m.courtId
               && m'.winner == (if k in c then None else m.winner)
               && m'.Slot(s) == (if FedBy(n, c, k, s) then None else m.Slot(s))
               && (k !in c && !FedBy(n, c, k, A) && !FedBy(n, c, k, B) ==> m' == m)
  {
    CascadeIsWipe(b, i);
    assert Undo(b, Main(i)).matches[k] == WipedMatch(b.matches, Chain(b.matches, i), k);
  }

  // ---- two undos ----

  lemma WipeTwice(ms: seq<Match>, S: set<nat>, T: set<nat>)
    requires TreeSize(|ms|)
    ensures Wipe(Wipe(ms, S), T) == Wipe(ms, S + T)
  {
    forall k | 0 <= k < |ms|
      ensures WipedMatch(Wipe(ms, S), T, k) == WipedMatch(ms, S + T, k)
    {
    }
  }

  // Wiping the chain of i un-decides exactly its members.
  lemma DecidedAfterWipe(ms: seq<Match>, i: nat, k: nat)
    requires TreeSize(|ms|) && i < |ms| && k < |ms|
    ensures Wipe(ms, Chain(ms, i))[k].Decided() <==> ms[k].Decided() && k !in Chain(ms, i)
  {
    var n, S := |ms|, Chain(ms, i);
    if k !in S && (FedBy(n, S, k, A) || FedBy(n, S, k, B)) {
      var f := if FedBy(n, S, k, A) then Feeder(n, k, A) else Feeder(n, k, B);
      ChainClosed(ms, i, f);
    }
  }

  // After the chain of i is wiped, what is left of the chain of j is what i did not reach.
  lemma {:induction false} ChainAfterWipe(ms: seq<Match>, i: nat, j: nat)
    requires TreeSize(|ms|) && i < |ms| && j < |ms|
    ensures Chain(ms, i) + Chain(Wipe(ms, Chain(ms, i)), j) == Chain(ms, i) + Chain(ms, j)
    decreases |ms| - j
  {
    var n := |ms|;
    if !IsFinal(n, j) {
      var k := Next(n, j);
      DecidedAfterWipe(ms, i, k);
      if ms[k].Decided() {
        ChainAfterWipe(ms, i, k);
        if k in Chain(ms, i) {
          ChainClosed(ms, i, k);
        }
      }
    }
  }

  function UndoMain(ms: seq<Match>, i: nat): seq<Match>
    requires TreeSize(|ms|) && i < |ms|
  {
    Wipe(ms, Chain(ms, i))
  }

  lemma UndoTwice(b: Bracket, i: nat, j: nat)
    requires TreeSize(|b.matches|) && i < |b.matches| && j < |b.matches|
    ensures CascadeUndo(CascadeUndo(b, i), j).matches
         == Wipe(b.matches, Chain(b.matches, i) + Chain(b.matches, j))
  {
    CascadeIsWipe(b, i);
    CascadeIsWipe(CascadeUndo(b, i), j);
    ChainAfterWipe(b.matches, i, j);
    WipeTwice(b.matches, Chain(b.matches, i), Chain(Wipe(b.matches, Chain(b.matches, i)), j));
  }

  // Undoing any two matches, in either order, gives the same main tree.
  lemma UndosCommute(b: Bracket, i: nat, j: nat)
    requires TreeSize(|b.matches|) && i < |b.matches| && j < |b.matches|
    ensures Undo(Undo(b, Main(i)), Main(j)).matches == Undo(Undo(b, Main(j)), Main(i)).matches
  {
    UndoTwice(b, i, j);
    UndoTwice(b, j, i);
    StatusIsIgnored(b, i, j);
    StatusIsIgnored(b, j, i);
    assert Chain(b.matches, i) + Chain(b.matches, j) == Chain(b.matches, j) + Chain(b.matches, i);
  }

  lemma StatusIsIgnored(b: Bracket, i: nat, j: nat)
    requires TreeSize(|b.matches|) && i < |b.matches| && j < |b.matches|
    ensures Undo(Undo(b, Main(i)), Main(j)).matches == CascadeUndo(CascadeUndo(b, i), j).matches
  {
    CascadeIsWipe(CascadeUndo(b, i), j);
    CascadeIsWipe(WithStatus(CascadeUndo(b, i)), j);
  }

  // Undoing a match again changes nothing in the main tree.
  lemma UndoIdempotent(b: Bracket, i: nat)
    requires TreeSize(|b.matches|) && i < |b.matches|
    ensures Undo(Undo(b, Main(i)), Main(i)).matches == Undo(b, Main(i)).matches
  {
    UndoTwice(b, i, i);
    StatusIsIgnored(b, i, i);
    CascadeIsWipe(b, i);
    assert Chain(b.matches, i) + Chain(b.matches, i) == Chain(b.matches, i);
  }
}
