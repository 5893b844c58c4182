/**
  The LowMC S-box layer: the 3-bit S-box `Sbox` and its inverse `invSbox`,
  and `Substitution`, which sends each of the low `numofboxes` 3-bit groups
  of a block through an S-box and leaves the remaining bits unchanged.

  A group's bits `m[3k], m[3k+1], m[3k+2]` form the index
  `m[3k] + 2*m[3k+1] + 4*m[3k+2]` (little-endian), and the table entry is
  written back little-endian. The nested cipher in `emulate` computes the
  same lookup as a circuit: a multiplexer over eight equality tests.
 */
module SboxLayer {
  import opened Bits

  /** `Sbox`. */
  const Table: seq<nat> := [0, 1, 3, 6, 7, 4, 5, 2]

  /** `invSbox`. */
  const InvTable: seq<nat> := [0, 1, 7, 2, 5, 6, 3, 4]

  /** Three bits, least significant first. */
  datatype Bits3 = Bits3(b0: bool, b1: bool, b2: bool)

  /** A 3-bit to 3-bit map. */
  type Lookup = (bool, bool, bool) -> Bits3

  /** The little-endian index `a + 2b + 4c`. */
  function Index(a: bool, b: bool, c: bool): (r: nat)
    ensures r < 8
  {
    Val(a) + 2 * Val(b) + 4 * Val(c)
  }

  /** `sb % 2`, `(sb // 2) % 2`, `(sb // 4) % 2`. */
  function ToBits(v: nat): Bits3 {
    Bits3(v % 2 == 1, (v / 2) % 2 == 1, (v / 4) % 2 == 1)
  }

  function Pick(t: Bits3, j: nat): bool {
    if j == 0 then t.b0 else if j == 1 then t.b1 else t.b2
  }

  /** `ToBits` and `Index` are mutually inverse on 0 .. 7. */
  lemma IndexToBits(v: nat)
    requires v < 8
    ensures Index(ToBits(v).b0, ToBits(v).b1, ToBits(v).b2) == v
  {
  }

  lemma ToBitsIndex(a: bool, b: bool, c: bool)
    ensures ToBits(Index(a, b, c)) == Bits3(a, b, c)
  {
  }

  predicate IsTable(t: seq<nat>) {
    |t| == 8 && forall i :: 0 <= i < 8 ==> t[i] < 8
  }

  /** `u` undoes `t`. */
  predicate Undoes(u: seq<nat>, t: seq<nat>)
    requires IsTable(t) && IsTable(u)
  {
    forall i :: 0 <= i < 8 ==> u[t[i]] == i
  }

  /** `Sbox` and `invSbox` are mutually inverse permutations of 0 .. 7. */
  lemma TablesInverse()
    ensures IsTable(Table) && IsTable(InvTable)
    ensures Undoes(InvTable, Table) && Undoes(Table, InvTable)
  {
  }

  /** A table used as a lookup: index, look up, split into bits. */
  function TableLookup(t: seq<nat>, a: bool, b: bool, c: bool): Bits3
    requires IsTable(t)
  {
    ToBits(t[Index(a, b, c)])
  }

  const SboxLookup: Lookup := (a, b, c) => TableLookup(Table, a, b, c)
  const InvSboxLookup: Lookup := (a, b, c) => TableLookup(InvTable, a, b, c)

  /** `g` recovers the three input bits of `f`. */
  ghost predicate LookupUndoes(g: Lookup, f: Lookup) {
    forall a, b, c :: g(f(a, b, c).b0, f(a, b, c).b1, f(a, b, c).b2) == Bits3(a, b, c)
  }

  /** Looking up `Sbox` and then `invSbox` gives back the index bits. */
  lemma TableLookupInverse(a: bool, b: bool, c: bool)
    ensures var t := TableLookup(Table, a, b, c);
      TableLookup(InvTable, t.b0, t.b1, t.b2) == Bits3(a, b, c)
  {
    TablesInverse();
    var v := Table[Index(a, b, c)];
    IndexToBits(v);
    ToBitsIndex(a, b, c);
  }

  lemma InvSboxUndoesSbox()
    ensures LookupUndoes(InvSboxLookup, SboxLookup)
  {
    forall a, b, c
      ensures InvSboxLookup(SboxLookup(a, b, c).b0, SboxLookup(a, b, c).b1, SboxLookup(a, b, c).b2) == Bits3(a, b, c)
    {
      var t := TableLookup(Table, a, b, c);
      assert SboxLookup(a, b, c) == t;
      TableLookupInverse(a, b, c);
      assert InvSboxLookup(t.b0, t.b1, t.b2) == TableLookup(InvTable, t.b0, t.b1, t.b2);
    }
  }
  lemma InvTableLookupInverse(a: bool, b: bool, c: bool)
    ensures var t := TableLookup(InvTable, a, b, c);
      TableLookup(Table, t.b0, t.b1, t.b2) == Bits3(a, b, c)
  {
    TablesInverse();
    var v := InvTable[Index(a, b, c)];
    IndexToBits(v);
    ToBitsIndex(a, b, c);
  }

  /** The S-box also undoes its inverse: both are permutations. */
  lemma SboxUndoesInvSbox()
    ensures LookupUndoes(SboxLookup, InvSboxLookup)
  {
    forall a, b, c
      ensures SboxLookup(InvSboxLookup(a, b, c).b0, InvSboxLookup(a, b, c).b1, InvSboxLookup(a, b, c).b2) == Bits3(a, b, c)
    {
      var t := TableLookup(InvTable, a, b, c);
      assert InvSboxLookup(a, b, c) == t;
      InvTableLookupInverse(a, b, c);
      assert SboxLookup(t.b0, t.b1, t.b2) == TableLookup(Table, t.b0, t.b1, t.b2);
    }
  }


  // ---------------------------------------------------------------------
  // The layer
  // ---------------------------------------------------------------------

  /** Group `k` of `m` sent through `f`. */
  function GroupOut(f: Lookup, m: seq<bool>, k: nat): Bits3
    requires 3 * k + 3 <= |m|
  {
    f(m[3 * k], m[3 * k + 1], m[3 * k + 2])
  }

  /** The S-box layer in closed form: bit `i < 3*nb` is bit `i % 3` of group
      `i / 3` sent through `f`; every higher bit is copied. */
  function Layer(f: Lookup, nb: nat, m: seq<bool>): (r: seq<bool>)
    requires 3 * nb <= |m|
    ensures |r| == |m|
    ensures forall i :: 3 * nb <= i < |m| ==> r[i] == m[i]
  {
    seq(|m|, i requires 0 <= i < |m| =>
      if i < 3 * nb then Pick(GroupOut(f, m, i / 3), i % 3) else m[i])
  }

  /** Bit `j` of group `k` of the output is bit `j` of `f` applied to
      group `k` of the input. */
  lemma LayerAt(f: Lookup, nb: nat, m: seq<bool>, k: nat, j: nat)
    requires 3 * nb <= |m| && k < nb && j < 3
    ensures Layer(f, nb, m)[3 * k + j] == Pick(GroupOut(f, m, k), j)
  {
    assert (3 * k + j) / 3 == k && (3 * k + j) % 3 == j;
  }

  /** Group `k` of the output is `f` applied to group `k` of the input. */
  lemma LayerGroup(f: Lookup, nb: nat, m: seq<bool>, k: nat)
    requires 3 * nb <= |m| && k < nb
    ensures Bits3(Layer(f, nb, m)[3 * k], Layer(f, nb, m)[3 * k + 1], Layer(f, nb, m)[3 * k + 2])
      == GroupOut(f, m, k)
  {
    var l := Layer(f, nb, m);
    var g := GroupOut(f, m, k);
    LayerAt(f, nb, m, k, 0);
    assert l[3 * k] == g.b0;
    LayerAt(f, nb, m, k, 1);
    assert l[3 * k + 1] == g.b1;
    LayerAt(f, nb, m, k, 2);
    assert l[3 * k + 2] == g.b2;
  }

  /** Bit `3k+j` of the layer of `f` after the layer of `h` depends only on
      group `k`. */
  lemma LayerTwiceAt(g: Lookup, f: Lookup, nb: nat, m: seq<bool>, k: nat, j: nat)
    requires 3 * nb <= |m| && k < nb && j < 3
    ensures Layer(g, nb, Layer(f, nb, m))[3 * k + j] == Pick(GroupOut(g, Layer(f, nb, m), k), j)
    ensures GroupOut(g, Layer(f, nb, m), k) == g(GroupOut(f, m, k).b0, GroupOut(f, m, k).b1, GroupOut(f, m, k).b2)
  {
    LayerAt(g, nb, Layer(f, nb, m), k, j);
    LayerGroup(f, nb, m, k);
  }

  lemma PickGroup(m: seq<bool>, k: nat, j: nat)
    requires 3 * k + 3 <= |m| && j < 3
    ensures Pick(Bits3(m[3 * k], m[3 * k + 1], m[3 * k + 2]), j) == m[3 * k + j]
  {
  }

  lemma LayerInverseAt(g: Lookup, f: Lookup, nb: nat, m: seq<bool>, k: nat, j: nat)
    requires 3 * nb <= |m| && LookupUndoes(g, f) && k < nb && j < 3
    ensures Layer(g, nb, Layer(f, nb, m))[3 * k + j] == m[3 * k + j]
  {
    LayerTwiceAt(g, f, nb, m, k, j);
    var t := GroupOut(f, m, k);
    assert g(t.b0, t.b1, t.b2) == Bits3(m[3 * k], m[3 * k + 1], m[3 * k + 2]);
    PickGroup(m, k, j);
  }

  /** A layer with an undoing lookup is undone by the layer of that lookup. */
  lemma LayerInverse(g: Lookup, f: Lookup, nb: nat, m: seq<bool>)
    requires 3 * nb <= |m| && LookupUndoes(g, f)
    ensures Layer(g, nb, Layer(f, nb, m)) == m
  {
    var r := Layer(g, nb, Layer(f, nb, m));
    forall i | 0 <= i < 3 * nb ensures r[i] == m[i] {
      var k, j := i / 3, i % 3;
      assert i == 3 * k + j;
      LayerInverseAt(g, f, nb, m, k, j);
    }
  }

  /** Layers of lookups that agree on every group of `m` agree. */
  lemma LayerCongruent(f: Lookup, g: Lookup, nb: nat, m: seq<bool>)
    requires 3 * nb <= |m|
    requires forall k :: 0 <= k < nb ==> GroupOut(f, m, k) == GroupOut(g, m, k)
    ensures Layer(f, nb, m) == Layer(g, nb, m)
  {
    forall i | 0 <= i < 3 * nb ensures Layer(f, nb, m)[i] == Layer(g, nb, m)[i] {
      var k, j := i / 3, i % 3;
      assert i == 3 * k + j;
      LayerAt(f, nb, m, k, j);
      LayerAt(g, nb, m, k, j);
    }
  }

  /** `Substitution` with the table applied as written in `invSubstitution`
      (`Sbox` instead of `invSbox`) does not undo `Substitution`: group
      `[0,1,0]` (index 2) maps to `Sbox[2] = 3`, bits `[1,1,0]`, which map to
      `Sbox[3] = 6`, bits `[0,1,1]`. */
  lemma InvSubstitutionAsWrittenFails()
    ensures Layer(SboxLookup, 1, Layer(SboxLookup, 1, [false, true, false])) == [false, true, true]
  {
    assert SboxLookup(false, true, false) == ToBits(Table[2]) == Bits3(true, true, false);
    SingleGroup(SboxLookup, [false, true, false]);
    assert SboxLookup(true, true, false) == ToBits(Table[3]) == Bits3(false, true, true);
    SingleGroup(SboxLookup, [true, true, false]);
  }

  /** On a single 3-bit group the layer is the lookup itself. */
  lemma SingleGroup(f: Lookup, m: seq<bool>)
    requires |m| == 3
    ensures Layer(f, 1, m) == [f(m[0], m[1], m[2]).b0, f(m[0], m[1], m[2]).b1, f(m[0], m[1], m[2]).b2]
  {
    LayerGroup(f, 1, m, 0);
  }

  /** With `invSbox`, the inverse layer undoes the layer. */
  lemma InvSubstitutionUndoes(nb: nat, m: seq<bool>)
    requires 3 * nb <= |m|
    ensures Layer(InvSboxLookup, nb, Layer(SboxLookup, nb, m)) == m
  {
    InvSboxUndoesSbox();
    LayerInverse(InvSboxLookup, SboxLookup, nb, m);
  }
  /** The corrected layers in the other order: substituting after the
      inverse substitution also gives the block back. */
  lemma SubstitutionUndoesInv(nb: nat, m: seq<bool>)
    requires 3 * nb <= |m|
    ensures Layer(SboxLookup, nb, Layer(InvSboxLookup, nb, m)) == m
  {
    SboxUndoesInvSbox();
    LayerInverse(SboxLookup, InvSboxLookup, nb, m);
  }


  // ---------------------------------------------------------------------
  // The loop of `Substitution`
  // ---------------------------------------------------------------------

  /** The block after `t` passes of the loop: the outputs of groups
      `nb-t .. nb-1` at the bottom, the identity part shifted up behind them,
      zeros above. */
  ghost function Partial(f: Lookup, nb: nat, m: seq<bool>, t: nat, q: nat): bool
    requires 3 * nb <= |m| && t <= nb
  {
    if q < 3 * t then Pick(GroupOut(f, m, nb - t + q / 3), q % 3)
    else if q - 3 * t < |m| - 3 * nb then m[3 * nb + q - 3 * t]
    else false
  }

  /** `Substitution` (and `invSubstitution` with the inverse lookup): start
      from the identity part shifted to the bottom, then per group from the
      highest down shift everything up by three and put the S-box output in
      bits 0 .. 2. */
  method Substitute(f: Lookup, nb: nat, m: seq<bool>) returns (temp: seq<bool>)
    requires 3 * nb <= |m|
    ensures temp == Layer(f, nb, m)
  {
    var bs := |m|;
    var j := 3 * nb;
    temp := XorBlock(Zeros(bs), m[j..] + Zeros(j));
    var i := 0;
    while i < nb
      invariant 0 <= i <= nb && |temp| == bs
      invariant forall q :: 0 <= q < bs ==> temp[q] == Partial(f, nb, m, i, q)
    {
      ghost var prev := temp;
      temp := [false, false, false] + temp[..bs - 3];
      j := 3 * (nb - i - 1);
      var idxBits := (m[j..] + Zeros(j))[0..3];
      assert idxBits == m[j..j + 3];
      var sb := f(idxBits[0], idxBits[1], idxBits[2]);
      var sblock := Zeros(bs)[0 := sb.b0][1 := sb.b1][2 := sb.b2];
      temp := XorBlock(temp, sblock);
      forall q | 0 <= q < bs ensures temp[q] == Partial(f, nb, m, i + 1, q) {
        if q < 3 {
          assert temp[q] == Pick(sb, q);
        } else {
          assert temp[q] == prev[q - 3];
        }
        PartialStep(f, nb, m, i, q);
      }
      i := i + 1;
    }
    forall q | 0 <= q < bs ensures temp[q] == Layer(f, nb, m)[q] {
    }
  }

  /** One pass of the loop: the new bottom group is the output of group
      `nb - t - 1`, and everything else moves up by three. */
  lemma PartialStep(f: Lookup, nb: nat, m: seq<bool>, t: nat, q: nat)
    requires 3 * nb <= |m| && t < nb
    ensures q < 3 ==> Partial(f, nb, m, t + 1, q) == Pick(GroupOut(f, m, nb - t - 1), q)
    ensures 3 <= q ==> Partial(f, nb, m, t + 1, q) == Partial(f, nb, m, t, q - 3)
  {
    if 3 <= q {
      assert (q - 3) / 3 == q / 3 - 1 && (q - 3) % 3 == q % 3;
    }
  }

  // ---------------------------------------------------------------------
  // The multiplexer of the nested cipher
  // ---------------------------------------------------------------------

  /** `bin0` .. `bin7`: the 3-bit little-endian constants. */
  const Bins: seq<Bits3> := [
    Bits3(false, false, false), Bits3(true, false, false),
    Bits3(false, true, false), Bits3(true, true, false),
    Bits3(false, false, true), Bits3(true, false, true),
    Bits3(false, true, true), Bits3(true, true, true)]

  /** `eqt`: all three index bits equal those of `x`. */
  function Eqt(a: bool, b: bool, c: bool, x: Bits3): bool {
    !Xor(a, x.b0) && !Xor(b, x.b1) && !Xor(c, x.b2)
  }

  /** `ife`: the three bits of `x`, each masked by `cmp`. */
  function Ife(x: Bits3, cmp: bool): Bits3 {
    Bits3(x.b0 && cmp, x.b1 && cmp, x.b2 && cmp)
  }

  /** `add`: bitwise XOR of two 3-bit values. */
  function Add3(x: Bits3, y: Bits3): Bits3 {
    Bits3(Xor(x.b0, y.b0), Xor(x.b1, y.b1), Xor(x.b2, y.b2))
  }

  /** The nested `Sbox` as bit constants: `[bin0, bin1, bin3, bin6, bin7,
      bin4, bin5, bin2]`. */
  const MuxTable: seq<Bits3> := [Bins[0], Bins[1], Bins[3], Bins[6], Bins[7], Bins[4], Bins[5], Bins[2]]

  /** The balanced tree of `add`s over the eight masked entries; it agrees
      with the `Sbox` table of the reference port. */
  function Mux(a: bool, b: bool, c: bool): (r: Bits3)
    ensures r == TableLookup(Table, a, b, c)
  {
    EqtExactlyOne(a, b, c);
    var e := k requires 0 <= k < 8 => Ife(MuxTable[k], Eqt(a, b, c, Bins[k]));
    Add3(Add3(Add3(e(0), e(1)), Add3(e(2), e(3))), Add3(Add3(e(4), e(5)), Add3(e(6), e(7))))
  }

  const MuxLookup: Lookup := (a, b, c) => Mux(a, b, c)

  /** Exactly one equality test fires: the one at the group's index. */
  lemma EqtExactlyOne(a: bool, b: bool, c: bool)
    ensures forall k :: 0 <= k < 8 ==> (Eqt(a, b, c, Bins[k]) <==> k == Index(a, b, c))
  {
  }

  /** Hence the nested `Substitution` computes the reference layer. */
  lemma MuxLayerIsSboxLayer(nb: nat, m: seq<bool>)
    requires 3 * nb <= |m|
    ensures Layer(MuxLookup, nb, m) == Layer(SboxLookup, nb, m)
  {
    forall k | 0 <= k < nb ensures GroupOut(MuxLookup, m, k) == GroupOut(SboxLookup, m, k) {
      assert MuxLookup(m[3 * k], m[3 * k + 1], m[3 * k + 2]) == Mux(m[3 * k], m[3 * k + 1], m[3 * k + 2]);
    }
    LayerCongruent(MuxLookup, SboxLookup, nb, m);
  }
}
