/**
  Gate-level arithmetic (`bit_adder`, `bit_xadder`, `bit_subtractor`,
  `bit_combinator`, `add`).

  The gates are Boolean operations on `bool`. Numbers are bit lists read
  most significant bit first, as `add` receives them; `add` reverses them,
  ripples a carry from the least significant end, and reverses the result.
 */
module Arith {
  import opened Wrappers
  import opened Bits

  // ---------------------------------------------------------------------
  // One-bit adders
  // ---------------------------------------------------------------------

  /** `bit_adder`: sum and carry out of `x + y + carry`. */
  function BitAdder(x: bool, y: bool, carry: bool): (r: (bool, bool))
    ensures Val(x) + Val(y) + Val(carry) == Val(r.0) + 2 * Val(r.1)
  {
    var xor := Xor(x, y);
    (Xor(xor, carry), (x && y) || (xor && carry))
  }

  /** At least two of the three bits are set. */
  function Majority(x: bool, y: bool, z: bool): bool {
    (x && y) || (x && z) || (y && z)
  }

  /** `bit_xadder`: the adder with its carry written as
      `carry ^ ((x ^ carry) & (y ^ carry))`. */
  function BitXAdder(x: bool, y: bool, carry: bool): (r: (bool, bool))
    ensures r == BitAdder(x, y, carry) && r.1 == Majority(x, y, carry)
  {
    var xy := Xor(x, y);
    var cx := Xor(x, carry);
    var cy := Xor(y, carry);
    (Xor(carry, xy), Xor(carry, cx && cy))
  }

  /** `bit_subtractor`: difference and borrow out of `x - y - borrow`. */
  function BitSubtractor(x: bool, y: bool, borrow: bool): (r: (bool, bool))
    ensures Val(x) - Val(y) - Val(borrow) == Val(r.0) - 2 * Val(r.1)
  {
    var xor := Xor(x, y);
    (Xor(xor, borrow), (!x && y) || (!xor && borrow))
  }

  // ---------------------------------------------------------------------
  // bit_combinator
  // ---------------------------------------------------------------------

  /** A cell of a bit-serial circuit: two input bits and the incoming temp
      give an output bit and the outgoing temp. */
  type Cell = (bool, bool, bool) -> (bool, bool)

  /** Reference semantics: run the cell along the zipped pairs from the front,
      each call receiving the temp of the previous one; the outputs and the
      last temp. */
  function Chain(xs: seq<bool>, ys: seq<bool>, f: Cell, temp: bool): (r: (seq<bool>, bool))
    ensures |r.0| == Min(|xs|, |ys|)
    decreases |xs|
  {
    if |xs| == 0 || |ys| == 0 then ([], temp)
    else
      var (z, t) := f(xs[0], ys[0], temp);
      var (rest, last) := Chain(xs[1..], ys[1..], f, t);
      ([z] + rest, last)
  }

  /** `combine`: pop the temp, apply the cell, push the output and the new
      temp. */
  function Combine(f: Cell, zs: seq<bool>, x: bool, y: bool): (r: seq<bool>)
    requires 1 <= |zs|
    ensures |r| == |zs| + 1
  {
    var (z, t) := f(x, y, zs[|zs| - 1]);
    zs[..|zs| - 1] + [z] + [t]
  }

  /** `reduce(combine, zip(xs, ys), acc)`. */
  function Fold(f: Cell, acc: seq<bool>, xs: seq<bool>, ys: seq<bool>): (r: seq<bool>)
    requires 1 <= |acc|
    ensures |r| == |acc| + Min(|xs|, |ys|)
    decreases |xs|
  {
    if |xs| == 0 || |ys| == 0 then acc
    else Fold(f, Combine(f, acc, xs[0], ys[0]), xs[1..], ys[1..])
  }

  lemma {:induction false} FoldIsChain(f: Cell, pre: seq<bool>, temp: bool, xs: seq<bool>, ys: seq<bool>)
    ensures Fold(f, pre + [temp], xs, ys) == pre + Chain(xs, ys, f, temp).0 + [Chain(xs, ys, f, temp).1]
    decreases |xs|
  {
    if |xs| > 0 && |ys| > 0 {
      var (z, t) := f(xs[0], ys[0], temp);
      var acc := pre + [temp];
      assert acc[..|acc| - 1] == pre;
      assert Combine(f, acc, xs[0], ys[0]) == (pre + [z]) + [t];
      FoldIsChain(f, pre + [z], t, xs[1..], ys[1..]);
    } else {
      assert Chain(xs, ys, f, temp).0 == [];
    }
  }

  /** `bit_combinator`: `z0`, then one output per zipped pair, then the
      final temp only when `keepTemp`. */
  function BitCombinator(xs: seq<bool>, ys: seq<bool>, f: Cell, z0: bool, temp0: bool, keepTemp: bool): (r: seq<bool>)
    ensures r == [z0] + Chain(xs, ys, f, temp0).0 + (if keepTemp then [Chain(xs, ys, f, temp0).1] else [])
    ensures |r| == 1 + Min(|xs|, |ys|) + (if keepTemp then 1 else 0)
  {
    var zs := Fold(f, [temp0], xs, ys);
    var ch := Chain(xs, ys, f, temp0);
    FoldFromTemp(f, temp0, xs, ys);
    if keepTemp then
      assert [z0] + zs == [z0] + ch.0 + [ch.1];
      [z0] + zs
    else
      assert [z0] + zs[..|zs| - 1] == [z0] + ch.0 + [];
      [z0] + zs[..|zs| - 1]
  }

  /** Starting from the accumulator `[temp]`, the fold is the chain's
      outputs followed by its last temp. */
  lemma FoldFromTemp(f: Cell, temp: bool, xs: seq<bool>, ys: seq<bool>)
    ensures Fold(f, [temp], xs, ys) == Chain(xs, ys, f, temp).0 + [Chain(xs, ys, f, temp).1]
    ensures Fold(f, [temp], xs, ys)[..|Fold(f, [temp], xs, ys)| - 1] == Chain(xs, ys, f, temp).0
  {
    FoldIsChain(f, [], temp, xs, ys);
    assert [] + [temp] == [temp];
  }

  // ---------------------------------------------------------------------
  // Values
  // ---------------------------------------------------------------------

  function Pow2(k: nat): (r: nat)
    ensures 1 <= r
  {
    if k == 0 then 1 else 2 * Pow2(k - 1)
  }

  /** Value of a bit list read most significant bit first. */
  function ValMsb(s: seq<bool>): nat {
    if |s| == 0 then 0 else 2 * ValMsb(s[..|s| - 1]) + Val(s[|s| - 1])
  }

  /** Value of a bit list read least significant bit first. */
  function ValLsb(s: seq<bool>): nat {
    if |s| == 0 then 0 else Val(s[0]) + 2 * ValLsb(s[1..])
  }

  lemma {:induction false} ValLsbBound(s: seq<bool>)
    ensures ValLsb(s) < Pow2(|s|)
  {
    if |s| > 0 {
      ValLsbBound(s[1..]);
    }
  }

  lemma {:induction false} ValLsbAppend(s: seq<bool>, b: bool)
    ensures ValLsb(s + [b]) == ValLsb(s) + Pow2(|s|) * Val(b)
  {
    if |s| > 0 {
      assert (s + [b])[1..] == s[1..] + [b];
      ValLsbAppend(s[1..], b);
    } else {
      assert (s + [b])[1..] == [];
    }
  }

  /** Reading backwards swaps the two orders. */
  lemma {:induction false} MsbIsReversedLsb(s: seq<bool>)
    ensures ValMsb(s) == ValLsb(Reverse(s))
  {
    if |s| > 0 {
      var k := |s| - 1;
      assert Reverse(s)[1..] == Reverse(s[..k]);
      MsbIsReversedLsb(s[..k]);
    }
  }

  /** The ripple-carry chain of full adders adds its operands and carry in. */
  lemma {:induction false} RippleAdds(xs: seq<bool>, ys: seq<bool>, carry: bool)
    requires |xs| == |ys|
    ensures ValLsb(Chain(xs, ys, BitAdder, carry).0) + Pow2(|xs|) * Val(Chain(xs, ys, BitAdder, carry).1)
      == ValLsb(xs) + ValLsb(ys) + Val(carry)
    decreases |xs|
  {
    if |xs| > 0 {
      var (z, t) := BitAdder(xs[0], ys[0], carry);
      var (rest, last) := Chain(xs[1..], ys[1..], BitAdder, t);
      RippleAdds(xs[1..], ys[1..], t);
      assert ([z] + rest)[1..] == rest;
      var k := |xs| - 1;
      assert Pow2(|xs|) * Val(last) == 2 * (Pow2(k) * Val(last));
    }
  }

  // ---------------------------------------------------------------------
  // add
  // ---------------------------------------------------------------------

  /** `add` on the reversed operands: `(sum0, carry0)` from the least
      significant pair, then the chain of full adders over the rest. The
      shortcut for the first pair is `bit_adder` with carry 0. */
  function AddLsb(rx: seq<bool>, ry: seq<bool>, preserve: bool): (zs: seq<bool>)
    requires 1 <= |rx| == |ry|
    ensures var (s0, c0) := BitAdder(rx[0], ry[0], false);
            zs == BitCombinator(rx[1..], ry[1..], BitAdder, s0, c0, preserve)
  {
    var (sum0, carry0) := (Xor(rx[0], ry[0]), rx[0] && ry[0]);
    BitCombinator(rx[1..], ry[1..], BitAdder, sum0, carry0, preserve)
  }

  /** The low `l` bits of the sum and the carry out of the top. */
  lemma {:induction false} AddLsbSplit(rx: seq<bool>, ry: seq<bool>)
    requires 1 <= |rx| == |ry|
    ensures var low := [Xor(rx[0], ry[0])] + Chain(rx[1..], ry[1..], BitAdder, rx[0] && ry[0]).0;
            var last := Chain(rx[1..], ry[1..], BitAdder, rx[0] && ry[0]).1;
            |low| == |rx| && ValLsb(rx) + ValLsb(ry) == ValLsb(low) + Pow2(|rx|) * Val(last)
  {
    var l := |rx|;
    var (sum0, carry0) := (Xor(rx[0], ry[0]), rx[0] && ry[0]);
    var (outs, last) := Chain(rx[1..], ry[1..], BitAdder, carry0);
    RippleAdds(rx[1..], ry[1..], carry0);
    var low := [sum0] + outs;
    assert low[1..] == outs;
    assert ValLsb(low) == Val(sum0) + 2 * ValLsb(outs);
    assert Pow2(l) * Val(last) == 2 * (Pow2(l - 1) * Val(last));
    assert ValLsb(rx) == Val(rx[0]) + 2 * ValLsb(rx[1..]);
    assert ValLsb(ry) == Val(ry[0]) + 2 * ValLsb(ry[1..]);
  }

  lemma AddLsbValue(rx: seq<bool>, ry: seq<bool>, preserve: bool)
    requires 1 <= |rx| == |ry|
    ensures |AddLsb(rx, ry, preserve)| == |rx| + (if preserve then 1 else 0)
    ensures preserve ==> ValLsb(AddLsb(rx, ry, preserve)) == ValLsb(rx) + ValLsb(ry)
    ensures !preserve ==> ValLsb(AddLsb(rx, ry, preserve)) == (ValLsb(rx) + ValLsb(ry)) % Pow2(|rx|)
  {
    var low := [Xor(rx[0], ry[0])] + Chain(rx[1..], ry[1..], BitAdder, rx[0] && ry[0]).0;
    var last := Chain(rx[1..], ry[1..], BitAdder, rx[0] && ry[0]).1;
    AddLsbSplit(rx, ry);
    if preserve {
      assert AddLsb(rx, ry, preserve) == low + [last];
      ValLsbAppend(low, last);
    } else {
      assert AddLsb(rx, ry, preserve) == low;
      ValLsbBound(low);
      ModCarry(ValLsb(low), last, Pow2(|rx|));
    }
  }

  /** A value below the modulus, plus at most one modulus, reduces to
      itself. */
  lemma ModCarry(a: nat, c: bool, m: nat)
    requires 1 <= m && a < m
    ensures (a + m * Val(c)) % m == a
  {
    if c {
      var x := a + m;
      assert x == m * 1 + a;
      assert x / m == 1;
    }
  }

  /** `add(xs, ys, l, preserve_overflow_bit)`: MSB-first operands of `l` bits.
      With no bits, the head `xs[0]` does not exist and the call fails. */
  function Add(xs: seq<bool>, ys: seq<bool>, l: nat, preserve: bool): (r: Option<seq<bool>>)
    requires |xs| == l && |ys| == l
    ensures r.None? <==> l == 0
    ensures r.Some? ==> |r.value| == l + (if preserve then 1 else 0)
    ensures r.Some? && preserve ==> ValMsb(r.value) == ValMsb(xs) + ValMsb(ys)
    ensures r.Some? && !preserve ==> ValMsb(r.value) == (ValMsb(xs) + ValMsb(ys)) % Pow2(l)
  {
    if l == 0 then None
    else
      var zs := AddLsb(Reverse(xs), Reverse(ys), preserve);
      AddLsbValue(Reverse(xs), Reverse(ys), preserve);
      MsbIsReversedLsb(xs);
      MsbIsReversedLsb(ys);
      MsbIsReversedLsb(Reverse(zs));
      ReverseInvolution(zs);
      Some(Reverse(zs))
  }
}
