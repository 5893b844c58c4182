/**
  Bits and bit vectors. A bit is a `bool` (`true` is 1); a block is a
  `seq<bool>`. The Python helpers behave like `zip`, so every pairwise
  operation here truncates to the shorter operand.
 */
module Bits {

  function Min(a: nat, b: nat): nat {
    if a <= b then a else b
  }

  /** Exclusive or of two bits. */
  function Xor(a: bool, b: bool): bool {
    a != b
  }

  /** Running XOR of a bit sequence, folded left to right. */
  function Parity(s: seq<bool>): bool {
    if |s| == 0 then false else Parity(s[..|s| - 1]) != s[|s| - 1]
  }

  /** Number of set bits. */
  function Count(s: seq<bool>): nat {
    if |s| == 0 then 0 else Count(s[..|s| - 1]) + (if s[|s| - 1] then 1 else 0)
  }

  /** `xor_block`: pairwise XOR over the common prefix. */
  function XorBlock(u: seq<bool>, v: seq<bool>): (r: seq<bool>)
    ensures |r| == Min(|u|, |v|)
  {
    seq(Min(|u|, |v|), i requires 0 <= i < Min(|u|, |v|) => u[i] != v[i])
  }

  function Zeros(n: nat): (r: seq<bool>)
    ensures |r| == n
  {
    seq(n, _ => false)
  }

  function Ones(n: nat): (r: seq<bool>)
    ensures |r| == n
  {
    seq(n, _ => true)
  }

  /** The unit vector with a single 1 at position `i`. */
  function Unit(n: nat, i: nat): (r: seq<bool>)
    ensures |r| == n
  {
    seq(n, j => j == i)
  }

  predicate IsZero(s: seq<bool>) {
    forall j :: 0 <= j < |s| ==> !s[j]
  }

  function Reverse(s: seq<bool>): (r: seq<bool>)
    ensures |r| == |s|
  {
    seq(|s|, j requires 0 <= j < |s| => s[|s| - 1 - j])
  }

  /** Pairwise AND over the common prefix. */
  function AndBlock(u: seq<bool>, v: seq<bool>): (r: seq<bool>)
    ensures |r| == Min(|u|, |v|)
  {
    seq(Min(|u|, |v|), i requires 0 <= i < Min(|u|, |v|) => u[i] && v[i])
  }

  /** Integer value of a bit. */
  function Val(b: bool): nat {
    if b then 1 else 0
  }

  lemma ParityStep(s: seq<bool>, k: nat)
    requires k < |s|
    ensures Parity(s[..k + 1]) == (Parity(s[..k]) != s[k])
  {
    assert s[..k + 1][..k] == s[..k];
  }

  /** The running XOR is the parity of the number of set bits. */
  lemma {:induction false} ParityIsOddCount(s: seq<bool>)
    ensures Parity(s) <==> Count(s) % 2 == 1
  {
    if |s| > 0 {
      ParityIsOddCount(s[..|s| - 1]);
    }
  }

  lemma {:induction false} ParityAppend(a: seq<bool>, b: seq<bool>)
    ensures Parity(a + b) == (Parity(a) != Parity(b))
    decreases |b|
  {
    if |b| == 0 {
      assert a + b == a;
    } else {
      assert (a + b)[..|a + b| - 1] == a + b[..|b| - 1];
      ParityAppend(a, b[..|b| - 1]);
    }
  }

  /** Parity folds from the front as well. */
  lemma ParityCons(a: bool, s: seq<bool>)
    ensures Parity([a] + s) == (a != Parity(s))
  {
    ParityAppend([a], s);
    assert [a][..0] == [];
  }

  /** XOR is homomorphic for parity: the parity of a pairwise XOR is the
      XOR of the parities. */
  lemma {:induction false} ParityOfXor(u: seq<bool>, v: seq<bool>)
    requires |u| == |v|
    ensures Parity(XorBlock(u, v)) == (Parity(u) != Parity(v))
    decreases |u|
  {
    if |u| > 0 {
      var n := |u| - 1;
      assert XorBlock(u, v)[..n] == XorBlock(u[..n], v[..n]);
      ParityOfXor(u[..n], v[..n]);
    }
  }

  lemma XorCancel(u: seq<bool>, k: seq<bool>)
    requires |u| == |k|
    ensures XorBlock(XorBlock(u, k), k) == u
  {
  }

  /** Whitening with `a` and then with `b` gives back every block exactly
      when the two keys are equal. */
  lemma XorTwice(m: seq<bool>, a: seq<bool>, b: seq<bool>)
    requires |m| == |a| == |b|
    ensures XorBlock(XorBlock(m, a), b) == m <==> a == b
  {
    var r := XorBlock(XorBlock(m, a), b);
    if r == m {
      forall i | 0 <= i < |a| ensures a[i] == b[i] {
        assert r[i] == m[i];
      }
    }
  }

  lemma ReverseInvolution(s: seq<bool>)
    ensures Reverse(Reverse(s)) == s
  {
  }
}
