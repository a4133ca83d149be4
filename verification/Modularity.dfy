/** Modularity of a labelling of a weighted graph, and what moving one node changes
    (internal/community/louvain.go). */
module Modularity {
  import opened Sums

  /** Weight between two nodes; a self-loop of weight w counts 2w. */
  type Weights = (nat, nat) -> real

  ghost predicate Symmetric(A: Weights) {
    forall i: nat, j: nat :: A(i, j) == A(j, i)
  }

  ghost predicate NonNegative(A: Weights) {
    forall i: nat, j: nat :: A(i, j) >= 0.0
  }

  function RowTerms(A: Weights, i: nat): nat -> real {
    (j: nat) => A(i, j)
  }

  function Degree(n: nat, A: Weights, i: nat): real {
    Sum(n, RowTerms(A, i))
  }

  predicate In(comm: seq<nat>, c: nat, j: nat) {
    j < |comm| && comm[j] == c
  }

  function ToTerms(A: Weights, comm: seq<nat>, x: nat, c: nat): nat -> real {
    (y: nat) => if In(comm, c, y) then A(x, y) else 0.0
  }

  /** Weight from x into community c. */
  function ToComm(A: Weights, comm: seq<nat>, x: nat, c: nat): real {
    Sum(|comm|, ToTerms(A, comm, x, c))
  }

  function SigmaTerms(A: Weights, comm: seq<nat>, c: nat): nat -> real {
    (y: nat) => if In(comm, c, y) then Degree(|comm|, A, y) else 0.0
  }

  /** Total degree of community c. */
  function SigmaTot(A: Weights, comm: seq<nat>, c: nat): real {
    Sum(|comm|, SigmaTerms(A, comm, c))
  }

  function WithinTerms(B: Weights, comm: seq<nat>): nat -> real {
    (x: nat) => if x < |comm| then ToComm(B, comm, x, comm[x]) else 0.0
  }

  /** Sum of B over the ordered pairs of nodes with the same label. */
  function WithinSum(B: Weights, comm: seq<nat>): real {
    Sum(|comm|, WithinTerms(B, comm))
  }

  /** A(x, y) minus what the degrees would predict. */
  function Excess(n: nat, A: Weights, m2: real): Weights
    requires m2 != 0.0
  {
    (x: nat, y: nat) => A(x, y) - Degree(n, A, x) / m2 * Degree(n, A, y)
  }

  /** The modularity of the labelling; m2 is twice the total edge weight. */
  function ModularityOf(A: Weights, m2: real, comm: seq<nat>): real
    requires m2 != 0.0
  {
    WithinSum(Excess(|comm|, A, m2), comm) / m2
  }

  // ---------- moving one node ----------

  lemma MovedRow(B: Weights, comm: seq<nat>, i: nat, b: nat, x: nat, c: nat)
    requires i < |comm| && comm[i] != b
    ensures ToComm(B, comm[i := b], x, c)
         == ToComm(B, comm, x, c) + (if c == b then B(x, i) else 0.0) - (if c == comm[i] then B(x, i) else 0.0)
  {
    var f, g := ToTerms(B, comm, x, c), ToTerms(B, comm[i := b], x, c);
    forall y: nat | y < |comm| && y != i ensures g(y) == f(y) {
      assert In(comm[i := b], c, y) <==> In(comm, c, y);
    }
    assert In(comm[i := b], c, i) <==> c == b;
    assert In(comm, c, i) <==> c == comm[i];
    SumPoint(|comm|, f, g, i);
  }

  lemma MovedSigma(A: Weights, comm: seq<nat>, i: nat, b: nat, c: nat)
    requires i < |comm| && comm[i] != b
    ensures SigmaTot(A, comm[i := b], c)
         == SigmaTot(A, comm, c) + (if c == b then Degree(|comm|, A, i) else 0.0)
            - (if c == comm[i] then Degree(|comm|, A, i) else 0.0)
  {
    SumPoint(|comm|, SigmaTerms(A, comm, c), SigmaTerms(A, comm[i := b], c), i);
  }

  /** What each row gains when i moves from a to b, i's own row aside. */
  function ShiftTerms(B: Weights, comm: seq<nat>, i: nat, b: nat): nat -> real
    requires i < |comm|
  {
    (x: nat) => ToTerms(B, comm, i, b)(x) - 1.0 * ToTerms(B, comm, i, comm[i])(x)
  }

  function ShiftedTerms(B: Weights, comm: seq<nat>, i: nat, b: nat): nat -> real
    requires i < |comm|
  {
    (x: nat) => WithinTerms(B, comm)(x) + ShiftTerms(B, comm, i, b)(x)
  }

  lemma MovedOtherRow(B: Weights, comm: seq<nat>, i: nat, b: nat, x: nat)
    requires Symmetric(B) && i < |comm| && comm[i] != b && x < |comm| && x != i
    ensures WithinTerms(B, comm[i := b])(x) == ShiftedTerms(B, comm, i, b)(x)
  {
    MovedRow(B, comm, i, b, x, comm[x]);
    assert B(x, i) == B(i, x);
    assert comm[i := b][x] == comm[x];
    assert WithinTerms(B, comm[i := b])(x) == ToComm(B, comm[i := b], x, comm[x]);
    assert ToTerms(B, comm, i, b)(x) == if comm[x] == b then B(i, x) else 0.0;
    assert ToTerms(B, comm, i, comm[i])(x) == if comm[x] == comm[i] then B(i, x) else 0.0;
    assert ShiftedTerms(B, comm, i, b)(x) == WithinTerms(B, comm)(x) + ShiftTerms(B, comm, i, b)(x);
  }

  /** Moving i into b changes the within-sum by twice what i gains in b over what it leaves. */
  lemma MovedWithin(B: Weights, comm: seq<nat>, i: nat, b: nat)
    requires Symmetric(B) && i < |comm| && comm[i] != b
    ensures WithinSum(B, comm[i := b]) - WithinSum(B, comm)
         == 2.0 * (ToComm(B, comm, i, b) - ToComm(B, comm, i, comm[i]) + B(i, i))
  {
    var n := |comm|;
    SumMinusScaled(n, ToTerms(B, comm, i, b), ToTerms(B, comm, i, comm[i]), 1.0, ShiftTerms(B, comm, i, b));
    SumPlus(n, WithinTerms(B, comm), ShiftTerms(B, comm, i, b), ShiftedTerms(B, comm, i, b));
    forall x: nat | x < n && x != i
      ensures WithinTerms(B, comm[i := b])(x) == ShiftedTerms(B, comm, i, b)(x)
    {
      MovedOtherRow(B, comm, i, b, x);
    }
    SumPoint(n, ShiftedTerms(B, comm, i, b), WithinTerms(B, comm[i := b]), i);
    MovedRow(B, comm, i, b, i, b);
  }

  /** The excess from x into c is the weight into c minus its predicted share. */
  lemma ExcessToComm(A: Weights, m2: real, comm: seq<nat>, x: nat, c: nat)
    requires m2 != 0.0
    ensures ToComm(Excess(|comm|, A, m2), comm, x, c)
         == ToComm(A, comm, x, c) - Degree(|comm|, A, x) / m2 * SigmaTot(A, comm, c)
  {
    SumMinusScaled(|comm|, ToTerms(A, comm, x, c), SigmaTerms(A, comm, c), Degree(|comm|, A, x) / m2,
                   ToTerms(Excess(|comm|, A, m2), comm, x, c));
  }

  lemma ExcessSymmetric(n: nat, A: Weights, m2: real)
    requires m2 != 0.0 && Symmetric(A)
    ensures Symmetric(Excess(n, A, m2))
  {
    forall x: nat, y: nat ensures Excess(n, A, m2)(x, y) == Excess(n, A, m2)(y, x) {
      assert A(x, y) == A(y, x);
    }
  }

  // ---------- the gain the code computes ----------

  /** Total degree of community c without node i. */
  function SigmaWithout(A: Weights, comm: seq<nat>, i: nat, c: nat): real
    requires i < |comm|
  {
    SigmaTot(A, comm, c) - if comm[i] == c then Degree(|comm|, A, i) else 0.0
  }

  function GainTerm(kIn: real, sigma: real, k: real, m2: real): real
    requires m2 != 0.0
  {
    kIn / m2 - (sigma * k) / (m2 * m2)
  }

  /** addGain for community c: the terms as the code writes them, i's self-loop included in
      the weight to its own community. */
  function AddGain(A: Weights, m2: real, comm: seq<nat>, i: nat, c: nat): real
    requires m2 != 0.0 && i < |comm|
  {
    GainTerm(ToComm(A, comm, i, c), SigmaWithout(A, comm, i, c), Degree(|comm|, A, i), m2)
  }

  function CodeGain(A: Weights, m2: real, comm: seq<nat>, i: nat, c: nat): real
    requires m2 != 0.0 && i < |comm|
  {
    AddGain(A, m2, comm, i, c) - AddGain(A, m2, comm, i, comm[i])
  }

  /** The true change of modularity is twice the code's gain plus twice the self-loop share. */
  lemma ModularityOfMove(A: Weights, m2: real, comm: seq<nat>, i: nat, b: nat)
    requires m2 != 0.0 && Symmetric(A) && i < |comm| && comm[i] != b
    ensures ModularityOf(A, m2, comm[i := b]) - ModularityOf(A, m2, comm)
         == 2.0 * CodeGain(A, m2, comm, i, b) + 2.0 * A(i, i) / m2
  {
    hide GainTerm, ToComm, SigmaTot, Degree, WithinSum, Excess, Symmetric;
    var n, a := |comm|, comm[i];
    var B := Excess(n, A, m2);
    ExcessSymmetric(n, A, m2);
    MovedWithin(B, comm, i, b);
    ExcessToComm(A, m2, comm, i, b);
    ExcessToComm(A, m2, comm, i, a);
    ExcessAt(n, A, m2, i);
    MoveArithmetic(m2, Degree(n, A, i), ToComm(A, comm, i, b), ToComm(A, comm, i, a),
                   SigmaTot(A, comm, b), SigmaTot(A, comm, a), A(i, i), WithinSum(B, comm), WithinSum(B, comm[i := b]));
  }

  lemma ExcessAt(n: nat, A: Weights, m2: real, i: nat)
    requires m2 != 0.0
    ensures Excess(n, A, m2)(i, i) == A(i, i) - Degree(n, A, i) / m2 * Degree(n, A, i)
  {
  }

  lemma MoveArithmetic(m: real, k: real, inB: real, inA: real, sB: real, sA: real, loop: real, before: real, after: real)
    requires m != 0.0
    requires after - before == 2.0 * ((inB - k / m * sB) - (inA - k / m * sA) + (loop - k / m * k))
    ensures after / m - before / m == 2.0 * (GainTerm(inB, sB, k, m) - GainTerm(inA, sA - k, k, m)) + 2.0 * loop / m
  {
    var r := 1.0 / m;
    hide GainTerm;
    Expand(r, k, inB, inA, sB, sA, loop);
    var d := (inB - k * r * sB) - (inA - k * r * sA) + (loop - k * r * k);
    assert after * r - before * r == (after - before) * r == 2.0 * d * r;
    assert 2.0 * loop * r == 2.0 * (loop * r);
  }

  lemma Expand(r: real, k: real, inB: real, inA: real, sB: real, sA: real, loop: real)
    ensures 2.0 * ((inB - k * r * sB) - (inA - k * r * sA) + (loop - k * r * k)) * r
         == 2.0 * ((inB * r - sB * k * r * r) - (inA * r - (sA - k) * k * r * r)) + 2.0 * (loop * r)
  {
  }

  /** An accepted move strictly raises modularity when no weight is negative. */
  lemma PositiveGainRaisesModularity(A: Weights, m2: real, comm: seq<nat>, i: nat, b: nat)
    requires m2 > 0.0 && Symmetric(A) && NonNegative(A) && i < |comm| && comm[i] != b
    requires CodeGain(A, m2, comm, i, b) > 0.0
    ensures ModularityOf(A, m2, comm[i := b]) > ModularityOf(A, m2, comm)
  {
    ModularityOfMove(A, m2, comm, i, b);
    assert A(i, i) >= 0.0;
    assert 2.0 * A(i, i) / m2 >= 0.0;
  }
}
