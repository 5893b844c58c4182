/**
  Dense binary matrices over GF(2): a matrix is a sequence of rows, each a
  bit vector. Row `i` of a matrix `M` maps a vector `v` to the parity of
  `v AND M[i]`, exactly as `MultiplyWithGF2Matrix` sums `mb & b` modulo 2.
 */
module Gf2 {
  import opened Bits

  type Matrix = seq<seq<bool>>

  /** Parity of the pairwise AND over the common prefix of `u` and `v`. */
  function Dot(u: seq<bool>, v: seq<bool>): bool
    decreases |u|
  {
    if |u| == 0 || |v| == 0 then false else (u[0] && v[0]) != Dot(u[1..], v[1..])
  }

  /** `MultiplyWithGF2Matrix(matrix, message)` (and its `_Key` twin): the first
      `rows` rows of `M`, each dotted with `v`. */
  function MatVec(rows: nat, M: Matrix, v: seq<bool>): (r: seq<bool>)
    requires rows <= |M|
    ensures |r| == rows
  {
    seq(rows, i requires 0 <= i < rows => Dot(v, M[i]))
  }

  /** Every row has exactly `cols` entries. */
  predicate Shaped(M: Matrix, cols: nat) {
    forall i :: 0 <= i < |M| ==> |M[i]| == cols
  }

  /** The copy `mat[i][j] = matrix[i][j]` for `i < rows`, `j < cols`. */
  function TopLeft(M: Matrix, rows: nat, cols: nat): (r: Matrix)
    requires rows <= |M|
    requires forall i :: 0 <= i < rows ==> cols <= |M[i]|
    ensures |r| == rows && Shaped(r, cols)
  {
    seq(rows, i requires 0 <= i < rows => M[i][..cols])
  }

  function Identity(n: nat): (r: Matrix)
    ensures |r| == n && Shaped(r, n)
  {
    seq(n, i requires 0 <= i < n => Unit(n, i))
  }

  predicate IsZeroMatrix(M: Matrix) {
    forall i, j :: 0 <= i < |M| && 0 <= j < |M[i]| ==> !M[i][j]
  }

  /** `v` lies in the kernel of `M`: every row is orthogonal to `v`. */
  predicate Annihilates(M: Matrix, v: seq<bool>) {
    forall i :: 0 <= i < |M| ==> !Dot(M[i], v)
  }

  /** The columns of `M` (of which there are `n`) are linearly independent:
      the only vector of length `n` in the kernel is zero. */
  ghost predicate Independent(M: Matrix, n: nat) {
    forall v {:trigger Annihilates(M, v)} :: |v| == n && Annihilates(M, v) ==> IsZero(v)
  }

  ghost predicate SameKernel(A: Matrix, B: Matrix, n: nat) {
    forall v {:trigger Annihilates(A, v)} {:trigger Annihilates(B, v)} :: |v| == n ==> (Annihilates(A, v) <==> Annihilates(B, v))
  }

  /** `inv` undoes `M` on every vector of length `n`. */
  ghost predicate LeftInverse(inv: Matrix, M: Matrix, n: nat)
    requires n <= |inv| && n <= |M|
  {
    forall v {:trigger MatVec(n, inv, MatVec(n, M, v))} :: |v| == n ==> MatVec(n, inv, MatVec(n, M, v)) == v
  }

  /** `M` undoes `inv` on every vector of length `n`. */
  ghost predicate RightInverse(inv: Matrix, M: Matrix, n: nat)
    requires n <= |inv| && n <= |M|
  {
    forall v {:trigger MatVec(n, M, MatVec(n, inv, v))} :: |v| == n ==> MatVec(n, M, MatVec(n, inv, v)) == v
  }

  /** XOR of the rows `M[k]` selected by the set bits `c[k]`. */
  function RowComb(c: seq<bool>, M: Matrix, n: nat): (r: seq<bool>)
    requires |c| <= |M| && Shaped(M, n)
    ensures |r| == n
    decreases |c|
  {
    if |c| == 0 then Zeros(n)
    else if c[0] then XorBlock(M[0], RowComb(c[1..], M[1..], n))
    else RowComb(c[1..], M[1..], n)
  }

  // ---------------------------------------------------------------------
  // Dot product facts
  // ---------------------------------------------------------------------

  /** `sum([mb & b for mb, b in zip(u, v)]) % 2`: the dot product is the
      parity of the number of positions where both bits are set. */
  lemma {:induction false} DotIsSumMod2(u: seq<bool>, v: seq<bool>)
    ensures Dot(u, v) <==> Count(AndBlock(u, v)) % 2 == 1
    decreases |u|
  {
    ParityIsOddCount(AndBlock(u, v));
    if |u| > 0 && |v| > 0 {
      DotIsSumMod2(u[1..], v[1..]);
      ParityIsOddCount(AndBlock(u[1..], v[1..]));
      assert AndBlock(u, v) == [u[0] && v[0]] + AndBlock(u[1..], v[1..]);
      ParityCons(u[0] && v[0], AndBlock(u[1..], v[1..]));
    }
  }

  lemma {:induction false} DotComm(u: seq<bool>, v: seq<bool>)
    ensures Dot(u, v) == Dot(v, u)
    decreases |u|
  {
    if |u| > 0 && |v| > 0 {
      DotComm(u[1..], v[1..]);
    }
  }

  /** Dot is linear in its second argument. */
  lemma {:induction false} DotXorRight(r: seq<bool>, u: seq<bool>, v: seq<bool>)
    requires |u| == |v|
    ensures Dot(r, XorBlock(u, v)) == (Dot(r, u) != Dot(r, v))
    decreases |r|
  {
    if |r| > 0 && |u| > 0 {
      assert XorBlock(u, v)[1..] == XorBlock(u[1..], v[1..]);
      DotXorRight(r[1..], u[1..], v[1..]);
    }
  }

  /** Dot is linear in its first argument. */
  lemma DotXorLeft(u: seq<bool>, w: seq<bool>, v: seq<bool>)
    requires |u| == |w|
    ensures Dot(XorBlock(u, w), v) == (Dot(u, v) != Dot(w, v))
  {
    DotComm(XorBlock(u, w), v);
    DotXorRight(v, u, w);
    DotComm(u, v);
    DotComm(w, v);
  }

  lemma {:induction false} DotZeroLeft(u: seq<bool>, v: seq<bool>)
    requires IsZero(u)
    ensures !Dot(u, v)
    decreases |u|
  {
    if |u| > 0 && |v| > 0 {
      DotZeroLeft(u[1..], v[1..]);
    }
  }

  lemma DotZeroRight(u: seq<bool>, v: seq<bool>)
    requires IsZero(v)
    ensures !Dot(u, v)
  {
    DotComm(u, v);
    DotZeroLeft(v, u);
  }

  /** Dot splits over a common cut point. */
  lemma {:induction false} DotSplit(a: seq<bool>, b: seq<bool>, k: nat)
    requires |a| == |b| && k <= |a|
    ensures Dot(a, b) == (Dot(a[..k], b[..k]) != Dot(a[k..], b[k..]))
    decreases k
  {
    if k == 0 {
      assert a[0..] == a && b[0..] == b;
    } else {
      DotSplit(a[1..], b[1..], k - 1);
      assert a[1..][..k - 1] == a[..k][1..] && b[1..][..k - 1] == b[..k][1..];
      assert a[1..][k - 1..] == a[k..] && b[1..][k - 1..] == b[k..];
    }
  }

  lemma {:induction false} DotUnit(n: nat, i: nat, v: seq<bool>)
    requires i < n && |v| == n
    ensures Dot(Unit(n, i), v) == v[i]
    decreases n
  {
    if i == 0 {
      assert IsZero(Unit(n, i)[1..]);
      DotZeroLeft(Unit(n, i)[1..], v[1..]);
    } else {
      assert Unit(n, i)[1..] == Unit(n - 1, i - 1);
      DotUnit(n - 1, i - 1, v[1..]);
    }
  }

  /** Reading both vectors back to front does not change their dot product. */
  lemma {:induction false} DotReverse(a: seq<bool>, b: seq<bool>)
    requires |a| == |b|
    ensures Dot(Reverse(a), Reverse(b)) == Dot(a, b)
    decreases |a|
  {
    if |a| > 0 {
      var n := |a|;
      DotSplit(Reverse(a), Reverse(b), n - 1);
      assert Reverse(a)[..n - 1] == Reverse(a[1..]);
      assert Reverse(b)[..n - 1] == Reverse(b[1..]);
      DotReverse(a[1..], b[1..]);
    }
  }

  // ---------------------------------------------------------------------
  // Matrix–vector product
  // ---------------------------------------------------------------------

  /** The product with a matrix is XOR-linear: `M(u XOR v) == Mu XOR Mv`. */
  lemma MatVecLinear(rows: nat, M: Matrix, u: seq<bool>, v: seq<bool>)
    requires rows <= |M| && |u| == |v|
    ensures MatVec(rows, M, XorBlock(u, v)) == XorBlock(MatVec(rows, M, u), MatVec(rows, M, v))
  {
    forall i | 0 <= i < rows
      ensures Dot(XorBlock(u, v), M[i]) == (Dot(u, M[i]) != Dot(v, M[i]))
    {
      DotXorLeft(u, v, M[i]);
    }
  }

  /** A product is zero exactly when the vector is in the kernel. */
  lemma MatVecZero(M: Matrix, v: seq<bool>)
    ensures MatVec(|M|, M, v) == Zeros(|M|) <==> Annihilates(M, v)
  {
    forall i | 0 <= i < |M| ensures Dot(v, M[i]) == Dot(M[i], v) {
      DotComm(v, M[i]);
    }
    if Annihilates(M, v) {
      assert MatVec(|M|, M, v) == Zeros(|M|);
    }
    if MatVec(|M|, M, v) == Zeros(|M|) {
      forall i | 0 <= i < |M| ensures !Dot(M[i], v) {
        assert MatVec(|M|, M, v)[i] == Zeros(|M|)[i];
      }
    }
  }

  /** Over GF(2), a square left inverse with independent columns is also a
      right inverse: if `inv (M u) = u` for all `u`, then `M (inv v) ^ v`
      lies in the kernel of `inv`, which is trivial. */
  lemma RightInverseFromLeft(inv: Matrix, M: Matrix, n: nat)
    requires |inv| == n && |M| == n && Shaped(inv, n) && Shaped(M, n)
    requires LeftInverse(inv, M, n) && Independent(inv, n)
    ensures RightInverse(inv, M, n)
  {
    forall v | |v| == n
      ensures MatVec(n, M, MatVec(n, inv, v)) == v
    {
      var u := MatVec(n, inv, v);
      var w := MatVec(n, M, u);
      var z := XorBlock(w, v);
      assert MatVec(n, inv, w) == u;
      MatVecLinear(n, inv, w, v);
      assert MatVec(n, inv, z) == Zeros(n);
      MatVecZero(inv, z);
      assert IsZero(z);
      forall i | 0 <= i < n ensures w[i] == v[i] {
        assert !z[i];
      }
    }
  }

  lemma MatVecIdentity(n: nat, v: seq<bool>)
    requires |v| == n
    ensures MatVec(n, Identity(n), v) == v
  {
    forall i | 0 <= i < n
      ensures Dot(v, Identity(n)[i]) == v[i]
    {
      DotComm(v, Unit(n, i));
      DotUnit(n, i, v);
    }
  }

  lemma IdentityIndependent(n: nat)
    ensures Independent(Identity(n), n)
  {
    forall v | |v| == n && Annihilates(Identity(n), v)
      ensures IsZero(v)
    {
      forall j | 0 <= j < n
        ensures !v[j]
      {
        DotUnit(n, j, v);
        assert !Dot(Identity(n)[j], v);
      }
    }
  }

  /** Copying an exactly shaped matrix yields the matrix itself. */
  lemma TopLeftExact(M: Matrix, rows: nat, cols: nat)
    requires |M| == rows && Shaped(M, cols)
    ensures TopLeft(M, rows, cols) == M
  {
    forall i | 0 <= i < rows
      ensures TopLeft(M, rows, cols)[i] == M[i]
    {
      assert M[i][..cols] == M[i];
    }
  }

  // ---------------------------------------------------------------------
  // Row combinations
  // ---------------------------------------------------------------------

  /** A combination of rows dotted with `v` is the same combination of the
      entries of `Mv`. */
  lemma {:induction false} RowCombDot(c: seq<bool>, M: Matrix, n: nat, v: seq<bool>)
    requires |c| <= |M| && Shaped(M, n) && |v| == n
    ensures Dot(RowComb(c, M, n), v) == Dot(c, MatVec(|c|, M, v))
    decreases |c|
  {
    if |c| == 0 {
      DotZeroLeft(Zeros(n), v);
    } else {
      var rest := RowComb(c[1..], M[1..], n);
      RowCombDot(c[1..], M[1..], n, v);
      assert MatVec(|c|, M, v)[1..] == MatVec(|c| - 1, M[1..], v);
      if c[0] {
        DotXorLeft(M[0], rest, v);
        DotComm(M[0], v);
      }
    }
  }

  lemma {:induction false} RowCombXor(c: seq<bool>, d: seq<bool>, M: Matrix, n: nat)
    requires |c| == |d| <= |M| && Shaped(M, n)
    ensures RowComb(XorBlock(c, d), M, n) == XorBlock(RowComb(c, M, n), RowComb(d, M, n))
    decreases |c|
  {
    if |c| > 0 {
      assert XorBlock(c, d)[1..] == XorBlock(c[1..], d[1..]);
      RowCombXor(c[1..], d[1..], M[1..], n);
    }
  }

  lemma {:induction false} RowCombUnit(m: nat, i: nat, M: Matrix, n: nat)
    requires i < m <= |M| && Shaped(M, n)
    ensures RowComb(Unit(m, i), M, n) == M[i]
    decreases m
  {
    if i == 0 {
      RowCombZero(Unit(m, 0)[1..], M[1..], n);
    } else {
      assert Unit(m, i)[1..] == Unit(m - 1, i - 1);
      RowCombUnit(m - 1, i - 1, M[1..], n);
    }
  }

  lemma {:induction false} RowCombZero(c: seq<bool>, M: Matrix, n: nat)
    requires |c| <= |M| && Shaped(M, n) && IsZero(c)
    ensures RowComb(c, M, n) == Zeros(n)
    decreases |c|
  {
    if |c| > 0 {
      RowCombZero(c[1..], M[1..], n);
    }
  }

  // ---------------------------------------------------------------------
  // Kernels under elementary row operations
  // ---------------------------------------------------------------------

  function Swap(M: Matrix, p: nat, q: nat): (r: Matrix)
    requires p < |M| && q < |M|
    ensures |r| == |M|
  {
    M[p := M[q]][q := M[p]]
  }

  /** Replaces row `i` by its XOR with row `p`. */
  function AddRow(M: Matrix, i: nat, p: nat): (r: Matrix)
    requires i < |M| && p < |M|
    ensures |r| == |M|
  {
    M[i := XorBlock(M[i], M[p])]
  }

  lemma SameKernelTrans(A: Matrix, B: Matrix, C: Matrix, n: nat)
    requires SameKernel(A, B, n) && SameKernel(B, C, n)
    ensures SameKernel(A, C, n)
  {
  }

  lemma SwapKernel(M: Matrix, p: nat, q: nat, n: nat)
    requires p < |M| && q < |M|
    ensures SameKernel(Swap(M, p, q), M, n)
  {
    var S := Swap(M, p, q);
    forall v | |v| == n
      ensures Annihilates(S, v) <==> Annihilates(M, v)
    {
      if Annihilates(S, v) {
        forall i | 0 <= i < |M| ensures !Dot(M[i], v) {
          var j := if i == p then q else if i == q then p else i;
          assert S[j] == M[i];
        }
      }
      if Annihilates(M, v) {
        forall i | 0 <= i < |S| ensures !Dot(S[i], v) {
          var j := if i == p then q else if i == q then p else i;
          assert S[i] == M[j];
        }
      }
    }
  }

  lemma AddRowKernel(M: Matrix, i: nat, p: nat, n: nat)
    requires i < |M| && p < |M| && i != p && Shaped(M, n)
    ensures SameKernel(AddRow(M, i, p), M, n)
  {
    var A := AddRow(M, i, p);
    forall v | |v| == n
      ensures Annihilates(A, v) <==> Annihilates(M, v)
    {
      DotXorLeft(M[i], M[p], v);
      if Annihilates(A, v) {
        assert !Dot(A[i], v) && !Dot(A[p], v);
        forall k | 0 <= k < |M| ensures !Dot(M[k], v) {
          if k != i {
            assert A[k] == M[k];
          }
        }
      }
      if Annihilates(M, v) {
        forall k | 0 <= k < |A| ensures !Dot(A[k], v) {
          if k != i {
            assert A[k] == M[k];
          }
        }
      }
    }
  }
}
