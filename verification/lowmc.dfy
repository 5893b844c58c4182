/**
  The LowMC block cipher of `LowMC.py` and of the copy nested in `emulate`:
  parameters, the tables `instantiate_LowMC` draws from the Grain generator,
  the key schedule, and encryption and decryption.

  The Python keeps the tables, the key and the round keys in module globals;
  here they are explicit values. Two pipelines are modelled:

  - the threaded one of the nested `encrypt` (each step feeds the next),
    with the decryption the reference cipher intends, and
  - `encrypt` and `decrypt` of `LowMC.py` as written, where every round
    restarts from `message`, so only the last whitening survives.
 */
module LowMC {
  import opened Wrappers
  import opened Bits
  import opened Gf2
  import opened Elimination
  import opened SboxLayer
  import opened Grain

  // ---------------------------------------------------------------------
  // Parameters and tables
  // ---------------------------------------------------------------------

  datatype Params = Params(blocksize: nat, keysize: nat, numofboxes: nat, rounds: nat)

  /** The S-boxes fit in the block, and the block is not empty. */
  predicate ValidParams(p: Params) {
    1 <= p.blocksize && 3 * p.numofboxes <= p.blocksize
  }

  /** `LowMC.py`: 49 S-boxes, 256-bit blocks, 80-bit keys, 8 rounds. */
  const ReferenceParams: Params := Params(256, 80, 49, 8)

  /** The copy in `emulate`: 1 S-box, 64-bit blocks, 40-bit keys, 1 round. */
  const NestedParams: Params := Params(64, 40, 1, 1)

  /** Both parameter sets fit, and the identity part of the reference layer
      (`identitysize`) is 256 - 147 = 109 bits. */
  lemma ParamsValid()
    ensures ValidParams(ReferenceParams) && ValidParams(NestedParams)
    ensures ReferenceParams.blocksize - 3 * ReferenceParams.numofboxes == 109
  {
  }

  /** `LinMatrices`, `invLinMatrices`, `roundconstants`, `KeyMatrices`. */
  datatype Tables = Tables(lin: seq<Matrix>, invLin: seq<Matrix>, constants: seq<seq<bool>>, keyMatrices: seq<Matrix>)

  /** One matrix and constant per round, one key matrix per round key; round
      matrices are square, key matrices have `blocksize` rows of `keysize`
      bits. */
  predicate Shapes(p: Params, t: Tables) {
    && |t.lin| == p.rounds && |t.invLin| == p.rounds
    && |t.constants| == p.rounds && |t.keyMatrices| == p.rounds + 1
    && (forall r :: 0 <= r < p.rounds ==> |t.lin[r]| == p.blocksize && Shaped(t.lin[r], p.blocksize))
    && (forall r :: 0 <= r < p.rounds ==> |t.invLin[r]| == p.blocksize && Shaped(t.invLin[r], p.blocksize))
    && (forall r :: 0 <= r < p.rounds ==> |t.constants[r]| == p.blocksize)
    && (forall r :: 0 <= r <= p.rounds ==>
          |t.keyMatrices[r]| == p.blocksize && Shaped(t.keyMatrices[r], p.keysize))
  }

  /** Each `invLinMatrices[r]` undoes `LinMatrices[r]`. */
  ghost predicate Invertible(p: Params, t: Tables)
    requires Shapes(p, t)
  {
    forall r :: 0 <= r < p.rounds ==> LeftInverse(t.invLin[r], t.lin[r], p.blocksize)
  }

  /** Each `LinMatrices[r]` also undoes `invLinMatrices[r]`. */
  ghost predicate RightInvertible(p: Params, t: Tables)
    requires Shapes(p, t)
  {
    forall r :: 0 <= r < p.rounds ==> RightInverse(t.invLin[r], t.lin[r], p.blocksize)
  }

  /** The rank conditions of the retry loops: every round matrix has full
      rank, and so has every key matrix when the key is no wider than the
      block. */
  ghost predicate FullRank(p: Params, t: Tables)
    requires Shapes(p, t)
  {
    && (forall r :: 0 <= r < p.rounds ==> Independent(t.lin[r], p.blocksize))
    && (p.keysize <= p.blocksize ==>
          forall r :: 0 <= r <= p.rounds ==> Independent(t.keyMatrices[r], p.keysize))
  }

  // ---------------------------------------------------------------------
  // instantiate_LowMC
  // ---------------------------------------------------------------------

  /** One retry loop for a round matrix: draw `n` blocks of `n` bits until
      `rank_of_Matrix` reports full rank. At most `fuel` attempts. */
  method DrawFullRank(n: nat, g: Generator, fuel: nat) returns (r: Option<Draw<Matrix>>)
    requires 1 <= n && Valid(g)
    ensures r.Some? ==> Valid(r.value.gen)
    ensures r.Some? ==> |r.value.value| == n && Shaped(r.value.value, n)
    ensures r.Some? ==> Independent(r.value.value, n)
  {
    var gen := g;
    var attempt := 0;
    while attempt < fuel
      invariant Valid(gen)
    {
      var d := RandMatrix(gen, n, n, fuel);
      if d.None? {
        return None;
      }
      var mat := d.value.value;
      gen := d.value.gen;
      var rank := Rank(n, mat);
      if rank == n {
        TopLeftExact(mat, n, n);
        return Some(Draw(mat, gen));
      }
      attempt := attempt + 1;
    }
    return None;
  }

  /** One retry loop for a key matrix: draw `rows` blocks of `cols` bits until
      `rank_of_Matrix_Key` reports at least `min(rows, cols)`. The scan
      raising `IndexError` ends instantiation. */
  method DrawKeyMatrix(rows: nat, cols: nat, g: Generator, fuel: nat) returns (r: Option<Draw<Matrix>>)
    requires 1 <= rows && Valid(g)
    ensures r.Some? ==> Valid(r.value.gen)
    ensures r.Some? ==> |r.value.value| == rows && Shaped(r.value.value, cols)
    ensures r.Some? && cols <= rows ==> Independent(r.value.value, cols)
  {
    var gen := g;
    var attempt := 0;
    while attempt < fuel
      invariant Valid(gen)
    {
      var d := RandMatrix(gen, rows, cols, fuel);
      if d.None? {
        return None;
      }
      var mat := d.value.value;
      gen := d.value.gen;
      var rank := RankKey(rows, cols, mat);
      if rank.None? {
        return None;
      }
      if rank.value >= Min(rows, cols) {
        TopLeftExact(mat, rows, cols);
        return Some(Draw(mat, gen));
      }
      attempt := attempt + 1;
    }
    return None;
  }

  /** A round matrix `mat` of full rank with its inverse `inv`, which undoes
      it on both sides. */
  ghost predicate RoundPair(mat: Matrix, inv: Matrix, n: nat) {
    && |mat| == n && Shaped(mat, n) && |inv| == n && Shaped(inv, n)
    && Independent(mat, n) && LeftInverse(inv, mat, n) && RightInverse(inv, mat, n)
  }

  /** One pass of the first loop of `instantiate_LowMC`: a full-rank matrix
      and its inverse. */
  method DrawRoundMatrix(n: nat, g: Generator, fuel: nat) returns (r: Option<Draw<(Matrix, Matrix)>>)
    requires 1 <= n && Valid(g)
    ensures r.Some? ==> Valid(r.value.gen)
    ensures r.Some? ==> RoundPair(r.value.value.0, r.value.value.1, n)
  {
    var d := DrawFullRank(n, g, fuel);
    if d.None? {
      return None;
    }
    var mat := d.value.value;
    var inv := Invert(n, mat);
    TopLeftExact(mat, n, n);
    return Some(Draw((mat, inv), d.value.gen));
  }

  /** The first loop of `instantiate_LowMC`: `rounds` round matrices with
      their inverses. */
  method DrawRoundMatrices(n: nat, rounds: nat, g: Generator, fuel: nat)
    returns (r: Option<Draw<(seq<Matrix>, seq<Matrix>)>>)
    requires 1 <= n && Valid(g)
    ensures r.Some? ==> Valid(r.value.gen)
    ensures r.Some? ==> |r.value.value.0| == |r.value.value.1| == rounds
    ensures r.Some? ==> forall i :: 0 <= i < rounds ==> RoundPair(r.value.value.0[i], r.value.value.1[i], n)
  {
    var gen := g;
    var lin: seq<Matrix> := [];
    var invLin: seq<Matrix> := [];
    while |lin| < rounds
      invariant Valid(gen) && |lin| == |invLin| <= rounds
      invariant forall i :: 0 <= i < |lin| ==> RoundPair(lin[i], invLin[i], n)
    {
      var d := DrawRoundMatrix(n, gen, fuel);
      if d.None? {
        return None;
      }
      lin, invLin := lin + [d.value.value.0], invLin + [d.value.value.1];
      gen := d.value.gen;
    }
    return Some(Draw((lin, invLin), gen));
  }

  /** `instantiate_LowMC`: `rounds` full-rank matrices with their inverses,
      then `rounds` round constants, then `rounds + 1` key matrices, all drawn
      in this order from one generator. */
  method Instantiate(p: Params, g: Generator, fuel: nat) returns (r: Option<Draw<Tables>>)
    requires ValidParams(p) && Valid(g)
    ensures r.Some? ==> Valid(r.value.gen) && Shapes(p, r.value.value)
    ensures r.Some? ==> Invertible(p, r.value.value) && FullRank(p, r.value.value)
    ensures r.Some? ==> RightInvertible(p, r.value.value)
  {
    var bs := p.blocksize;
    var m := DrawRoundMatrices(bs, p.rounds, g, fuel);
    if m.None? {
      return None;
    }
    var (lin, invLin) := m.value.value;
    var gen := m.value.gen;

    var constants: seq<seq<bool>> := [];
    while |constants| < p.rounds
      invariant Valid(gen) && |constants| <= p.rounds
      invariant forall i :: 0 <= i < |constants| ==> |constants[i]| == bs
    {
      var d := RandBits(gen, bs, fuel);
      if d.None? {
        return None;
      }
      constants := constants + [d.value.value];
      gen := d.value.gen;
    }

    var keyMatrices: seq<Matrix> := [];
    while |keyMatrices| < p.rounds + 1
      invariant Valid(gen) && |keyMatrices| <= p.rounds + 1
      invariant forall i :: 0 <= i < |keyMatrices| ==>
        |keyMatrices[i]| == bs && Shaped(keyMatrices[i], p.keysize)
      invariant p.keysize <= bs ==>
        forall i :: 0 <= i < |keyMatrices| ==> Independent(keyMatrices[i], p.keysize)
    {
      var d := DrawKeyMatrix(bs, p.keysize, gen, fuel);
      if d.None? {
        return None;
      }
      keyMatrices := keyMatrices + [d.value.value];
      gen := d.value.gen;
    }
    return Some(Draw(Tables(lin, invLin, constants, keyMatrices), gen));
  }

  // ---------------------------------------------------------------------
  // Key schedule
  // ---------------------------------------------------------------------

  /** `rounds + 1` round keys of `blocksize` bits each. */
  predicate Keyed(p: Params, rk: seq<seq<bool>>) {
    |rk| == p.rounds + 1 && forall r :: 0 <= r <= p.rounds ==> |rk[r]| == p.blocksize
  }

  /** `keyschedule`: round key `r` is `KeyMatrices[r]` times the key. */
  function KeySchedule(p: Params, t: Tables, key: seq<bool>): (rk: seq<seq<bool>>)
    requires Shapes(p, t)
    ensures Keyed(p, rk)
  {
    seq(p.rounds + 1, r requires 0 <= r <= p.rounds => MatVec(p.blocksize, t.keyMatrices[r], key))
  }

  /** The key schedule is XOR-linear in the key. */
  lemma KeyScheduleLinear(p: Params, t: Tables, k1: seq<bool>, k2: seq<bool>, r: nat)
    requires Shapes(p, t) && |k1| == |k2| && r <= p.rounds
    ensures KeySchedule(p, t, XorBlock(k1, k2))[r]
      == XorBlock(KeySchedule(p, t, k1)[r], KeySchedule(p, t, k2)[r])
  {
    MatVecLinear(p.blocksize, t.keyMatrices[r], k1, k2);
  }

  /** With a full-rank key matrix, round key `r` determines the key. */
  lemma KeyScheduleInjective(p: Params, t: Tables, k1: seq<bool>, k2: seq<bool>, r: nat)
    requires Shapes(p, t) && r <= p.rounds && Independent(t.keyMatrices[r], p.keysize)
    requires |k1| == p.keysize && |k2| == p.keysize
    requires KeySchedule(p, t, k1)[r] == KeySchedule(p, t, k2)[r]
    ensures k1 == k2
  {
    var M := t.keyMatrices[r];
    var d := XorBlock(k1, k2);
    MatVecLinear(p.blocksize, M, k1, k2);
    assert MatVec(p.blocksize, M, d) == Zeros(p.blocksize);
    MatVecZero(M, d);
    assert IsZero(d);
    forall i | 0 <= i < p.keysize ensures k1[i] == k2[i] {
      assert !d[i];
    }
  }

  /** The module-level `key`: the integer `0` it is bound to at load time,
      or a key block. */
  datatype StoredKey = InitialZero | KeyBlock(bits: seq<bool>)

  /** The master key and the round keys derived from it. */
  datatype KeyState = KeyState(key: StoredKey, roundKeys: seq<seq<bool>>)

  /** `set_key` as written: `key = k` binds a local, so the schedule is
      recomputed from the stored key and `k` is lost. While the stored key
      is still the integer `0`, `zip` over it raises `TypeError` (`None`). */
  function SetKeyAsWritten(p: Params, t: Tables, st: KeyState, k: seq<bool>): (r: Option<KeyState>)
    requires Shapes(p, t)
    ensures r.Some? ==> Keyed(p, r.value.roundKeys)
  {
    match st.key
    case InitialZero => None
    case KeyBlock(bits) => Some(KeyState(st.key, KeySchedule(p, t, bits)))
  }

  /** As written, the argument has no effect on the result: the call fails
      from the initial state, and otherwise keeps the stored key. */
  lemma SetKeyAsWrittenIgnoresKey(p: Params, t: Tables, st: KeyState, k1: seq<bool>, k2: seq<bool>)
    requires Shapes(p, t)
    ensures SetKeyAsWritten(p, t, st, k1) == SetKeyAsWritten(p, t, st, k2)
    ensures SetKeyAsWritten(p, t, st, k1).None? <==> st.key == InitialZero
    ensures SetKeyAsWritten(p, t, st, k1).Some? ==> SetKeyAsWritten(p, t, st, k1).value.key == st.key
  {
  }

  /** `set_key` as intended: store `k`, then run the key schedule on it. */
  function SetKey(p: Params, t: Tables, st: KeyState, k: seq<bool>): (r: KeyState)
    requires Shapes(p, t)
    ensures Keyed(p, r.roundKeys)
  {
    KeyState(KeyBlock(k), KeySchedule(p, t, k))
  }

  /** Intended `set_key`: with a full-rank first key matrix, different keys
      give different first round keys, and setting a key installs it. */
  lemma SetKeyDistinguishes(p: Params, t: Tables, st: KeyState, k1: seq<bool>, k2: seq<bool>)
    requires Shapes(p, t) && Independent(t.keyMatrices[0], p.keysize)
    requires |k1| == p.keysize && |k2| == p.keysize && k1 != k2
    ensures SetKey(p, t, st, k1).key == KeyBlock(k1)
    ensures SetKey(p, t, st, k1).roundKeys[0] != SetKey(p, t, st, k2).roundKeys[0]
  {
    if KeySchedule(p, t, k1)[0] == KeySchedule(p, t, k2)[0] {
      KeyScheduleInjective(p, t, k1, k2, 0);
    }
  }

  // ---------------------------------------------------------------------
  // The threaded cipher
  // ---------------------------------------------------------------------

  /** Everything a round needs is in place. */
  predicate Ready(p: Params, t: Tables, rk: seq<seq<bool>>) {
    ValidParams(p) && Shapes(p, t) && Keyed(p, rk)
  }

  /** Round `r` of the nested `encrypt`: S-box layer, linear layer, round
      constant, round key `r + 1`. */
  function Round(f: Lookup, p: Params, t: Tables, rk: seq<seq<bool>>, r: nat, c: seq<bool>): (out: seq<bool>)
    requires Ready(p, t, rk) && r < p.rounds && |c| == p.blocksize
    ensures |out| == p.blocksize
  {
    var s := Layer(f, p.numofboxes, c);
    var l := MatVec(p.blocksize, t.lin[r], s);
    XorBlock(XorBlock(l, t.constants[r]), rk[r + 1])
  }

  /** Round `r` undone: round key, round constant, inverse matrix, inverse
      S-box layer. */
  function InvRound(p: Params, t: Tables, rk: seq<seq<bool>>, r: nat, c: seq<bool>): (out: seq<bool>)
    requires Ready(p, t, rk) && r < p.rounds && |c| == p.blocksize
    ensures |out| == p.blocksize
  {
    var x := XorBlock(XorBlock(c, rk[r + 1]), t.constants[r]);
    var y := MatVec(p.blocksize, t.invLin[r], x);
    Layer(InvSboxLookup, p.numofboxes, y)
  }

  lemma RoundInverse(p: Params, t: Tables, rk: seq<seq<bool>>, r: nat, c: seq<bool>)
    requires Ready(p, t, rk) && Invertible(p, t) && r < p.rounds && |c| == p.blocksize
    ensures InvRound(p, t, rk, r, Round(SboxLookup, p, t, rk, r, c)) == c
  {
    var s := Layer(SboxLookup, p.numofboxes, c);
    var l := MatVec(p.blocksize, t.lin[r], s);
    var a := XorBlock(l, t.constants[r]);
    XorCancel(a, rk[r + 1]);
    XorCancel(l, t.constants[r]);
    assert MatVec(p.blocksize, t.invLin[r], l) == s;
    InvSubstitutionUndoes(p.numofboxes, c);
  }

  /** The other order: a round applied after its inverse gives the block
      back, once the round matrices also undo their inverses. */
  lemma RoundUndoesInvRound(p: Params, t: Tables, rk: seq<seq<bool>>, r: nat, c: seq<bool>)
    requires Ready(p, t, rk) && RightInvertible(p, t) && r < p.rounds && |c| == p.blocksize
    ensures Round(SboxLookup, p, t, rk, r, InvRound(p, t, rk, r, c)) == c
  {
    var a := XorBlock(c, rk[r + 1]);
    var x := XorBlock(a, t.constants[r]);
    var y := MatVec(p.blocksize, t.invLin[r], x);
    SubstitutionUndoesInv(p.numofboxes, y);
    assert MatVec(p.blocksize, t.lin[r], y) == x;
    XorCancel(a, t.constants[r]);
    XorCancel(c, rk[r + 1]);
  }

  /** The first `k` rounds. */
  function Forward(f: Lookup, p: Params, t: Tables, rk: seq<seq<bool>>, c: seq<bool>, k: nat): (out: seq<bool>)
    requires Ready(p, t, rk) && k <= p.rounds && |c| == p.blocksize
    ensures |out| == p.blocksize
  {
    if k == 0 then c else Round(f, p, t, rk, k - 1, Forward(f, p, t, rk, c, k - 1))
  }

  /** Rounds `k - 1` down to `0` undone. */
  function Backward(p: Params, t: Tables, rk: seq<seq<bool>>, c: seq<bool>, k: nat): (out: seq<bool>)
    requires Ready(p, t, rk) && k <= p.rounds && |c| == p.blocksize
    ensures |out| == p.blocksize
    decreases k
  {
    if k == 0 then c else Backward(p, t, rk, InvRound(p, t, rk, k - 1, c), k - 1)
  }

  lemma {:induction false} BackwardForward(p: Params, t: Tables, rk: seq<seq<bool>>, c: seq<bool>, k: nat)
    requires Ready(p, t, rk) && Invertible(p, t) && k <= p.rounds && |c| == p.blocksize
    ensures Backward(p, t, rk, Forward(SboxLookup, p, t, rk, c, k), k) == c
    decreases k
  {
    if k > 0 {
      RoundInverse(p, t, rk, k - 1, Forward(SboxLookup, p, t, rk, c, k - 1));
      BackwardForward(p, t, rk, c, k - 1);
    }
  }

  /** Every round undoes its inverse, on every block. */
  ghost predicate RoundsUndoInverse(p: Params, t: Tables, rk: seq<seq<bool>>)
    requires Ready(p, t, rk)
  {
    forall r: nat, c {:trigger Round(SboxLookup, p, t, rk, r, InvRound(p, t, rk, r, c))} :: r < p.rounds && |c| == p.blocksize ==>
      Round(SboxLookup, p, t, rk, r, InvRound(p, t, rk, r, c)) == c
  }

  lemma AllRoundsUndoInverse(p: Params, t: Tables, rk: seq<seq<bool>>)
    requires Ready(p, t, rk) && RightInvertible(p, t)
    ensures RoundsUndoInverse(p, t, rk)
  {
    forall r: nat, c | r < p.rounds && |c| == p.blocksize
      ensures Round(SboxLookup, p, t, rk, r, InvRound(p, t, rk, r, c)) == c
    {
      RoundUndoesInvRound(p, t, rk, r, c);
    }
  }

  lemma {:induction false} ForwardBackward(p: Params, t: Tables, rk: seq<seq<bool>>, c: seq<bool>, k: nat)
    requires Ready(p, t, rk) && RoundsUndoInverse(p, t, rk) && k <= p.rounds && |c| == p.blocksize
    ensures Forward(SboxLookup, p, t, rk, Backward(p, t, rk, c, k), k) == c
    decreases k
  {
    if k > 0 {
      var c' := InvRound(p, t, rk, k - 1, c);
      ForwardBackward(p, t, rk, c', k - 1);
      assert Round(SboxLookup, p, t, rk, k - 1, c') == c;
    }
  }


  /** `encrypt` with `c` threaded through every step, as in the nested copy:
      whiten with round key 0, then all rounds. `f` is the S-box lookup. */
  function EncryptWith(f: Lookup, p: Params, t: Tables, rk: seq<seq<bool>>, m: seq<bool>): (c: seq<bool>)
    requires Ready(p, t, rk) && |m| == p.blocksize
    ensures |c| == p.blocksize
  {
    Forward(f, p, t, rk, XorBlock(m, rk[0]), p.rounds)
  }

  /** The intended `decrypt`: undo the rounds from the last, then remove the
      whitening with round key 0. */
  function Decrypt(p: Params, t: Tables, rk: seq<seq<bool>>, c: seq<bool>): (m: seq<bool>)
    requires Ready(p, t, rk) && |c| == p.blocksize
    ensures |m| == p.blocksize
  {
    XorBlock(Backward(p, t, rk, c, p.rounds), rk[0])
  }

  /** Decryption undoes encryption whenever the inverse matrices are left
      inverses, for every key schedule and every message. */
  lemma DecryptEncrypt(p: Params, t: Tables, rk: seq<seq<bool>>, m: seq<bool>)
    requires Ready(p, t, rk) && Invertible(p, t) && |m| == p.blocksize
    ensures Decrypt(p, t, rk, EncryptWith(SboxLookup, p, t, rk, m)) == m
  {
    BackwardForward(p, t, rk, XorBlock(m, rk[0]), p.rounds);
    XorCancel(m, rk[0]);
  }

  /** Encryption undoes decryption too: every ciphertext block is the
      encryption of its decryption. */
  lemma EncryptDecrypt(p: Params, t: Tables, rk: seq<seq<bool>>, c: seq<bool>)
    requires Ready(p, t, rk) && RightInvertible(p, t) && |c| == p.blocksize
    ensures EncryptWith(SboxLookup, p, t, rk, Decrypt(p, t, rk, c)) == c
  {
    var b := Backward(p, t, rk, c, p.rounds);
    XorCancel(b, rk[0]);
    AllRoundsUndoInverse(p, t, rk);
    ForwardBackward(p, t, rk, c, p.rounds);
  }

  /** The rounds depend on the lookup only through its S-box layer. */
  lemma {:induction false} ForwardCongruent(f: Lookup, g: Lookup, p: Params, t: Tables, rk: seq<seq<bool>>, c: seq<bool>, k: nat)
    requires Ready(p, t, rk) && k <= p.rounds && |c| == p.blocksize
    requires forall x {:trigger Layer(f, p.numofboxes, x)} :: |x| == p.blocksize ==> Layer(f, p.numofboxes, x) == Layer(g, p.numofboxes, x)
    ensures Forward(f, p, t, rk, c, k) == Forward(g, p, t, rk, c, k)
  {
    if k > 0 {
      ForwardCongruent(f, g, p, t, rk, c, k - 1);
      var x := Forward(f, p, t, rk, c, k - 1);
      assert Layer(f, p.numofboxes, x) == Layer(g, p.numofboxes, x);
    }
  }

  /** The nested `encrypt`, with its multiplexer S-box, encrypts exactly as
      the table-driven cipher. */
  lemma NestedEncryptIsEncrypt(p: Params, t: Tables, rk: seq<seq<bool>>, m: seq<bool>)
    requires Ready(p, t, rk) && |m| == p.blocksize
    ensures EncryptWith(MuxLookup, p, t, rk, m) == EncryptWith(SboxLookup, p, t, rk, m)
  {
    forall x | |x| == p.blocksize
      ensures Layer(MuxLookup, p.numofboxes, x) == Layer(SboxLookup, p.numofboxes, x)
    {
      MuxLayerIsSboxLayer(p.numofboxes, x);
    }
    ForwardCongruent(MuxLookup, SboxLookup, p, t, rk, XorBlock(m, rk[0]), p.rounds);
  }

  /** The intended `decrypt` undoes the nested `encrypt`. */
  lemma NestedDecrypts(p: Params, t: Tables, rk: seq<seq<bool>>, m: seq<bool>)
    requires Ready(p, t, rk) && Invertible(p, t) && |m| == p.blocksize
    ensures Decrypt(p, t, rk, EncryptWith(MuxLookup, p, t, rk, m)) == m
  {
    NestedEncryptIsEncrypt(p, t, rk, m);
    DecryptEncrypt(p, t, rk, m);
  }

  /** One pass of the nested `encrypt` loop, step by step. */
  method NestedRound(p: Params, t: Tables, rk: seq<seq<bool>>, r: nat, c: seq<bool>) returns (out: seq<bool>)
    requires Ready(p, t, rk) && r < p.rounds && |c| == p.blocksize
    ensures out == Round(MuxLookup, p, t, rk, r, c)
    ensures out == Round(SboxLookup, p, t, rk, r, c)
  {
    out := Substitute(MuxLookup, p.numofboxes, c);
    MuxLayerIsSboxLayer(p.numofboxes, c);
    out := MatVec(p.blocksize, t.lin[r], out);
    out := XorBlock(out, t.constants[r]);
    out := XorBlock(out, rk[r + 1]);
  }

  /** The nested `encrypt` loop. */
  method NestedEncrypt(p: Params, t: Tables, rk: seq<seq<bool>>, message: seq<bool>) returns (c: seq<bool>)
    requires Ready(p, t, rk) && |message| == p.blocksize
    ensures |c| == p.blocksize
    ensures Invertible(p, t) ==> Decrypt(p, t, rk, c) == message
  {
    c := XorBlock(message, rk[0]);
    var r := 0;
    while r < p.rounds
      invariant r <= p.rounds && |c| == p.blocksize
      invariant c == Forward(MuxLookup, p, t, rk, XorBlock(message, rk[0]), r)
    {
      c := NestedRound(p, t, rk, r, c);
      r := r + 1;
    }
    if Invertible(p, t) {
      NestedDecrypts(p, t, rk, message);
    }
  }

  // ---------------------------------------------------------------------
  // encrypt and decrypt of LowMC.py as written
  // ---------------------------------------------------------------------

  /** `encrypt` as written: the last two steps of each round read `message`
      instead of `c`, discarding the S-box and linear layers. What survives
      is the message whitened with the last round key. */
  method EncryptAsWritten(p: Params, t: Tables, rk: seq<seq<bool>>, message: seq<bool>) returns (c: seq<bool>)
    requires Ready(p, t, rk) && |message| == p.blocksize
    ensures c == XorBlock(message, rk[p.rounds])
  {
    c := XorBlock(message, rk[0]);
    var r := 0;
    while r < p.rounds
      invariant r <= p.rounds && |c| == p.blocksize
      invariant c == XorBlock(message, rk[r])
    {
      c := Substitute(SboxLookup, p.numofboxes, c);
      c := MatVec(p.blocksize, t.lin[r], c);
      c := XorBlock(message, t.constants[r]);
      c := XorBlock(message, rk[r + 1]);
      r := r + 1;
    }
  }

  /** `decrypt` as written: every step reads `message`, and so does the final
      whitening; `invSubstitution` looks up `Sbox`. The result is the input
      whitened with round key 0. */
  method DecryptAsWritten(p: Params, t: Tables, rk: seq<seq<bool>>, message: seq<bool>) returns (c: seq<bool>)
    requires Ready(p, t, rk) && |message| == p.blocksize
    ensures c == XorBlock(message, rk[0])
  {
    c := message;
    var r := p.rounds;
    while r > 0
      invariant r <= p.rounds && |c| == p.blocksize
    {
      r := r - 1;
      c := XorBlock(message, rk[r + 1]);
      c := XorBlock(message, t.constants[r]);
      c := MatVec(p.blocksize, t.invLin[r], c);
      c := Substitute(SboxLookup, p.numofboxes, c);
    }
    c := XorBlock(message, rk[0]);
  }

  /** The demonstration: encrypt then decrypt as written. It gives the
      plaintext back exactly when the first and last round keys agree. */
  method RoundTripAsWritten(p: Params, t: Tables, rk: seq<seq<bool>>, m: seq<bool>) returns (back: seq<bool>)
    requires Ready(p, t, rk) && |m| == p.blocksize
    ensures back == m <==> rk[0] == rk[p.rounds]
  {
    var c := EncryptAsWritten(p, t, rk, m);
    back := DecryptAsWritten(p, t, rk, c);
    XorTwice(m, rk[p.rounds], rk[0]);
  }
}
