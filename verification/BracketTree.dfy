// Index arithmetic of a single-elimination tree stored as one flat array, round after round.
//
// A bracket for N = n + 1 players (N even) has n matches, the final last. The winner of match i
// moves on to match (N + i) / 2, into the slot given by the parity of i. The source states the
// same thing by round and position; the second half of this module proves the two agree.

module BracketTree {
  import opened Types

  predicate TreeSize(n: nat) { n % 2 == 1 }

  // The match fed by the winner of match i.
  function Next(n: nat, i: nat): (j: nat)
    requires TreeSize(n) && i < n - 1
    ensures i < j < n && HasFeeders(n, j)
  {
    (n + 1 + i) / 2
  }

  // The slot of the next match that the winner of match i takes.
  function Side(i: nat): Player { if i % 2 == 0 then A else B }

  // Matches outside the first round get both their players from earlier matches.
  predicate HasFeeders(n: nat, k: nat) { n < 2 * k }

  // The match whose winner fills slot s of match k.
  function Feeder(n: nat, k: nat, s: Player): (f: nat)
    requires TreeSize(n) && k < n && HasFeeders(n, k)
    ensures f < k && f < n - 1 && Next(n, f) == k && Side(f) == s
  {
    2 * k - (n + 1) + if s == A then 0 else 1
  }

  lemma FeederOfNext(n: nat, i: nat)
    requires TreeSize(n) && i < n - 1
    ensures Feeder(n, Next(n, i), Side(i)) == i
  {
  }

  predicate IsFinal(n: nat, i: nat) { i + 1 == n }

  // The two matches that feed the final.
  predicate IsSemifinal(n: nat, i: nat)
    requires TreeSize(n)
  {
    i < n - 1 && Next(n, i) == n - 1
  }

  // ---- rounds and positions ----

  function Pow2(e: nat): (p: nat)
    ensures p > 0
  {
    if e == 0 then 1 else 2 * Pow2(e - 1)
  }

  function Log2(p: nat): nat { if p <= 1 then 0 else 1 + Log2(p / 2) }

  lemma {:induction false} Log2OfPow2(e: nat)
    ensures Log2(Pow2(e)) == e
  {
    if e > 0 {
      Log2OfPow2(e - 1);
      assert Pow2(e) / 2 == Pow2(e - 1);
    }
  }

  // Index of the first match of a round, in a bracket of `rounds` rounds.
  function Offset(rounds: nat, round: nat): int
    requires 1 <= round <= rounds + 1
  {
    Pow2(rounds) - Pow2(rounds + 1 - round)
  }

  // Match i sits at this round (from 1) and position (from 0).
  predicate At(rounds: nat, i: nat, round: int, position: int) {
    1 <= round <= rounds && 0 <= position < Pow2(rounds - round) && i == Offset(rounds, round) + position
  }

  lemma OffsetStep(rounds: nat, round: nat)
    requires 1 <= round <= rounds
    ensures Offset(rounds, round + 1) == Offset(rounds, round) + Pow2(rounds - round)
    ensures round < rounds ==> 2 * Offset(rounds, round + 1) == Pow2(rounds) + Offset(rounds, round)
    ensures 0 <= Offset(rounds, round)
    ensures Offset(rounds, round) % 2 == 0
  {
    OffsetMonotone(rounds, 1, round);
    if round == 1 { assert Offset(rounds, 1) == 0; }
    assert Pow2(rounds + 1 - round) == 2 * Pow2(rounds - round);
    assert Pow2(rounds) == 2 * Pow2(rounds - 1);
  }

  lemma {:induction false} OffsetMonotone(rounds: nat, r: nat, r': nat)
    requires 1 <= r <= r' <= rounds + 1
    ensures Offset(rounds, r) <= Offset(rounds, r')
    decreases r' - r
  {
    if r < r' {
      assert Pow2(rounds + 1 - r) == 2 * Pow2(rounds + 1 - (r + 1));
      OffsetMonotone(rounds, r + 1, r');
    }
  }

  // A match has one round and one position.
  lemma AtUnique(rounds: nat, i: nat, r: int, p: int, r': int, p': int)
    requires At(rounds, i, r, p) && At(rounds, i, r', p')
    ensures r == r' && p == p'
  {
    if r < r' {
      OffsetStep(rounds, r);
      OffsetMonotone(rounds, r + 1, r');
    } else if r' < r {
      OffsetStep(rounds, r');
      OffsetMonotone(rounds, r' + 1, r);
    }
  }

  lemma EvenSlots(rounds: nat)
    requires 1 <= rounds
    ensures Pow2(rounds) >= 2 && TreeSize(Pow2(rounds) - 1)
  {
    var half := Pow2(rounds - 1);
    assert Pow2(rounds) == 2 * half;
    OddBeforeEven(half);
  }

  lemma OddBeforeEven(half: nat)
    requires half > 0
    ensures (2 * half - 1) % 2 == 1
  {
  }

  lemma AtBounds(rounds: nat, i: nat, round: int, position: int)
    requires At(rounds, i, round, position)
    ensures i < Pow2(rounds) - 1
    ensures round == rounds <==> i == Pow2(rounds) - 2
    ensures round < rounds ==> i < Pow2(rounds) - 2
  {
    OffsetStep(rounds, round);
    assert Offset(rounds, rounds + 1) == Pow2(rounds) - 1 by { assert Pow2(0) == 1; }
    OffsetMonotone(rounds, round + 1, rounds + 1);
    if round < rounds {
      OffsetStep(rounds, rounds);
      OffsetMonotone(rounds, round + 1, rounds);
    }
  }

  // The next round at position / 2, slot by position parity: what the source computes is Next
  // and Side.
  lemma AtNext(rounds: nat, i: nat, round: int, position: int)
    requires At(rounds, i, round, position) && round < rounds
    ensures TreeSize(Pow2(rounds) - 1) && i < Pow2(rounds) - 2
    ensures At(rounds, Next(Pow2(rounds) - 1, i), round + 1, position / 2)
    ensures Side(i) == if position % 2 == 0 then A else B
  {
    EvenSlots(rounds);
    AtBounds(rounds, i, round, position);
    OffsetStep(rounds, round);
    assert Pow2(rounds - round) == 2 * Pow2(rounds - round - 1);
  }

  // The first round, the semifinals and the final are told apart by the round alone.
  lemma AtStage(rounds: nat, i: nat, round: int, position: int)
    requires At(rounds, i, round, position)
    ensures TreeSize(Pow2(rounds) - 1) && i < Pow2(rounds) - 1
    ensures round == rounds <==> IsFinal(Pow2(rounds) - 1, i)
    ensures round == 1 <==> !HasFeeders(Pow2(rounds) - 1, i)
    ensures round + 1 == rounds <==> IsSemifinal(Pow2(rounds) - 1, i)
  {
    EvenSlots(rounds);
    AtBounds(rounds, i, round, position);
    AtFirstRound(rounds, i, round, position);
    if round < rounds {
      AtNext(rounds, i, round, position);
      AtBounds(rounds, Next(Pow2(rounds) - 1, i), round + 1, position / 2);
    }
  }

  lemma AtFirstRound(rounds: nat, i: nat, round: int, position: int)
    requires At(rounds, i, round, position)
    ensures round == 1 <==> 2 * i < Pow2(rounds)
  {
    assert Pow2(rounds) == 2 * Pow2(rounds - 1);
    assert Offset(rounds, 1) == 0;
    if round > 1 {
      assert Offset(rounds, 2) == Pow2(rounds - 1);
      OffsetMonotone(rounds, 2, round);
    }
  }
}
