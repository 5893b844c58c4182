/**
  The size of an MPC-in-the-head proof (`garbled_size`, `proof_size`).

  Only AND and OR gates need a Beaver triple and produce views; the linear
  gates are free. The proof holds one view per garbled gate for each of the
  `n` parties plus one.
 */
module Circuit {

  /** Gate operations; `Other` stands for every operation of the circuit
      library besides these five. */
  datatype Op = And | Or | Xor | Not | Id | Other(code: nat)

  /** A gate: its operation and its input and output wire indices. */
  datatype Gate = Gate(operation: Op, wireIn: seq<nat>, wireOut: seq<nat>)

  predicate Garbled(o: Op) {
    o == And || o == Or
  }

  /** `garbled_size`: the number of AND and OR gates, counted left to right. */
  function GarbledSize(gates: seq<Gate>): (r: nat)
    ensures r <= |gates|
  {
    if |gates| == 0 then 0
    else GarbledSize(gates[..|gates| - 1]) + (if Garbled(gates[|gates| - 1].operation) then 1 else 0)
  }

  /** A circuit needs no triple exactly when it has no AND or OR gate. */
  lemma {:induction false} GarbledSizeZero(gates: seq<Gate>)
    ensures GarbledSize(gates) == 0 <==> forall i :: 0 <= i < |gates| ==> !Garbled(gates[i].operation)
    decreases |gates|
  {
    if |gates| > 0 {
      var k := |gates| - 1;
      GarbledSizeZero(gates[..k]);
      assert forall i :: 0 <= i < k ==> gates[..k][i] == gates[i];
    }
  }

  /** The operations of the circuit, gate by gate. */
  function Ops(gates: seq<Gate>): (ops: seq<Op>)
    ensures |ops| == |gates| && forall i :: 0 <= i < |gates| ==> ops[i] == gates[i].operation
  {
    seq(|gates|, i requires 0 <= i < |gates| => gates[i].operation)
  }

  /** The count agrees with the multiset of operations: the AND gates plus
      the OR gates, wherever they sit in the circuit. */
  lemma {:induction false} GarbledSizeCounts(gates: seq<Gate>)
    ensures GarbledSize(gates) == multiset(Ops(gates))[And] + multiset(Ops(gates))[Or]
    decreases |gates|
  {
    if |gates| > 0 {
      var k := |gates| - 1;
      GarbledSizeCounts(gates[..k]);
      assert Ops(gates) == Ops(gates[..k]) + [gates[k].operation];
      assert multiset(Ops(gates)) == multiset(Ops(gates[..k])) + multiset{gates[k].operation};
    }
  }

  /** Concatenating two circuits adds their garbled sizes. */
  lemma {:induction false} GarbledSizeAppend(a: seq<Gate>, b: seq<Gate>)
    ensures GarbledSize(a + b) == GarbledSize(a) + GarbledSize(b)
    decreases |b|
  {
    if |b| == 0 {
      assert a + b == a;
    } else {
      var k := |b| - 1;
      GarbledSizeAppend(a, b[..k]);
      assert (a + b)[..|a + b| - 1] == a + b[..k];
      assert (a + b)[|a + b| - 1] == b[k];
    }
  }

  /** `proof_size = garbled_size(circ) * (n + 1)`. */
  function ProofSize(gates: seq<Gate>, n: nat): (r: nat)
    ensures r == (multiset(Ops(gates))[And] + multiset(Ops(gates))[Or]) * (n + 1)
  {
    GarbledSizeCounts(gates);
    GarbledSize(gates) * (n + 1)
  }
}
