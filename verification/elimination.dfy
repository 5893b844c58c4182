/**
  Gaussian elimination over GF(2): `rank_of_Matrix`, `rank_of_Matrix_Key`
  and `invert_Matrix` of the LowMC reference port.

  The rank routines scan columns from the most significant index down; the
  inversion scans them upward and then back-substitutes. A column without a
  pivot is skipped without advancing the pivot row. The contracts relate the
  outcome to linear independence of the columns (a trivial kernel), which is
  what "full rank" means; the proofs build a kernel vector at the first
  column that has no pivot.
 */
module Elimination {
  import opened Wrappers
  import opened Bits
  import opened Gf2

  // ---------------------------------------------------------------------
  // Echelon shapes
  // ---------------------------------------------------------------------

  /** Rows `i < s` have a 1 on the diagonal and only zeros to its left. */
  ghost predicate DiagonalPivots(B: Matrix, s: nat)
    requires s <= |B| && forall i :: 0 <= i < s ==> s <= |B[i]|
  {
    forall i :: 0 <= i < s ==> B[i][i] && forall j :: 0 <= j < i ==> !B[i][j]
  }

  /** Rows from `s` on are zero in columns `0 .. c-1`. */
  ghost predicate ZeroBelow(B: Matrix, n: nat, s: nat, c: nat)
    requires Shaped(B, n) && c <= n
  {
    forall i, j :: s <= i < |B| && 0 <= j < c ==> !B[i][j]
  }

  /** The mirror image used by the rank routines: row `i < k` has its pivot
      in column `n-1-i` and only zeros in the columns above it. */
  ghost predicate DescendingPivots(B: Matrix, n: nat, k: nat)
    requires Shaped(B, n) && k <= |B| && k <= n
  {
    forall i :: 0 <= i < k ==> B[i][n - 1 - i] && forall j :: n - 1 - i < j < n ==> !B[i][j]
  }

  /** Rows from `s` on are zero in the top `c` columns `n-c .. n-1`. */
  ghost predicate ZeroAbove(B: Matrix, n: nat, s: nat, c: nat)
    requires Shaped(B, n) && c <= n
  {
    forall i, j :: s <= i < |B| && n - c <= j < n ==> !B[i][j]
  }

  function RevRows(B: Matrix): (r: Matrix)
    ensures |r| == |B|
  {
    seq(|B|, i requires 0 <= i < |B| => Reverse(B[i]))
  }

  // ---------------------------------------------------------------------
  // Kernel vector at the first column without a pivot
  // ---------------------------------------------------------------------

  /** Entries `i .. s` of a kernel vector, solved from the bottom up. */
  function Back(B: Matrix, n: nat, s: nat, i: nat): (r: seq<bool>)
    requires Shaped(B, n) && i <= s < n && s <= |B|
    ensures |r| == s + 1 - i
    decreases s - i
  {
    if i == s then [true]
    else
      var t := Back(B, n, s, i + 1);
      [Dot(B[i][i + 1..s + 1], t)] + t
  }

  lemma {:induction false} BackSuffix(B: Matrix, n: nat, s: nat, i: nat)
    requires Shaped(B, n) && i <= s < n && s <= |B|
    ensures Back(B, n, s, 0)[i..] == Back(B, n, s, i)
    decreases i
  {
    if i > 0 {
      BackSuffix(B, n, s, i - 1);
      assert Back(B, n, s, 0)[i..] == Back(B, n, s, 0)[i - 1..][1..];
    }
  }

  /** The vector `Back(B, n, s, 0)` padded with zeros to length `n`. */
  function KernelVector(B: Matrix, n: nat, s: nat): (v: seq<bool>)
    requires Shaped(B, n) && s < n && s <= |B|
    ensures |v| == n
  {
    Back(B, n, s, 0) + Zeros(n - s - 1)
  }

  lemma KernelRowAbove(B: Matrix, n: nat, s: nat, i: nat)
    requires Shaped(B, n) && s < n && s <= |B| && i < s
    requires B[i][i] && forall j :: 0 <= j < i ==> !B[i][j]
    ensures !Dot(B[i], KernelVector(B, n, s))
  {
    var a := B[i];
    var v := KernelVector(B, n, s);
    DotSplit(a, v, i);
    assert IsZero(a[..i]);
    DotZeroLeft(a[..i], v[..i]);
    KernelRowFromPivot(B, n, s, i);
  }

  /** From the pivot on, row `i` meets the kernel vector in its solved
      entries only, and entry `i` was solved to cancel the rest. */
  lemma KernelRowFromPivot(B: Matrix, n: nat, s: nat, i: nat)
    requires Shaped(B, n) && s < n && s <= |B| && i < s && B[i][i]
    ensures !Dot(B[i][i..], KernelVector(B, n, s)[i..])
  {
    var a' := B[i][i..];
    var v' := KernelVector(B, n, s)[i..];
    DotSplit(a', v', s + 1 - i);
    assert IsZero(v'[s + 1 - i..]);
    DotZeroRight(a'[s + 1 - i..], v'[s + 1 - i..]);
    BackSuffix(B, n, s, i);
    var t := Back(B, n, s, i);
    assert v'[..s + 1 - i] == t;
    assert a'[..s + 1 - i][1..] == B[i][i + 1..s + 1];
    assert t[1..] == Back(B, n, s, i + 1);
    PivotCancels(a'[..s + 1 - i], t);
  }

  /** A leading 1 against an entry equal to the dot product of the rest
      cancels it. */
  lemma PivotCancels(x: seq<bool>, t: seq<bool>)
    requires 1 <= |x| == |t| && x[0] && t[0] == Dot(x[1..], t[1..])
    ensures !Dot(x, t)
  {
  }

  lemma KernelRowBelow(B: Matrix, n: nat, s: nat, i: nat)
    requires Shaped(B, n) && s < n && s <= i < |B|
    requires forall j :: 0 <= j <= s ==> !B[i][j]
    ensures !Dot(B[i], KernelVector(B, n, s))
  {
    var a := B[i];
    var v := KernelVector(B, n, s);
    DotSplit(a, v, s + 1);
    assert IsZero(a[..s + 1]);
    DotZeroLeft(a[..s + 1], v[..s + 1]);
    assert IsZero(v[s + 1..]);
    DotZeroRight(a[s + 1..], v[s + 1..]);
  }

  /** If the first `s` rows have diagonal pivots and the remaining rows are
      zero in columns `0 ..= s`, then a vector with a 1 in position `s` is
      annihilated by every row. */
  lemma KernelWitness(B: Matrix, n: nat, s: nat) returns (v: seq<bool>)
    requires Shaped(B, n) && s < n && s <= |B|
    requires DiagonalPivots(B, s) && ZeroBelow(B, n, s, s + 1)
    ensures |v| == n && v[s] && Annihilates(B, v)
  {
    v := KernelVector(B, n, s);
    BackSuffix(B, n, s, s);
    assert v[s] == Back(B, n, s, 0)[s..][0];
    forall i | 0 <= i < |B|
      ensures !Dot(B[i], v)
    {
      if i < s {
        KernelRowAbove(B, n, s, i);
      } else {
        KernelRowBelow(B, n, s, i);
      }
    }
  }

  /** With diagonal pivots in all `n` rows, only the zero vector is
      annihilated: the tail from `i` on is zero, by downward induction. */
  lemma {:induction false} TailZero(B: Matrix, n: nat, w: seq<bool>, i: nat)
    requires Shaped(B, n) && n <= |B| && DiagonalPivots(B, n)
    requires |w| == n && Annihilates(B, w) && i <= n
    ensures IsZero(w[i..])
    decreases n - i
  {
    if i < n {
      TailZero(B, n, w, i + 1);
      var a := B[i];
      DotSplit(a, w, i);
      assert IsZero(a[..i]);
      DotZeroLeft(a[..i], w[..i]);
      assert a[i..][1..] == a[i + 1..] && w[i..][1..] == w[i + 1..];
      DotZeroRight(a[i + 1..], w[i + 1..]);
      assert !Dot(a, w);
      forall j | 0 <= j < |w[i..]| ensures !w[i..][j] {
        if j > 0 {
          assert w[i..][j] == w[i + 1..][j - 1];
        }
      }
    }
  }

  lemma FullDiagonalIndependent(B: Matrix, n: nat)
    requires Shaped(B, n) && n <= |B| && DiagonalPivots(B, n)
    ensures Independent(B, n)
  {
    forall w | |w| == n && Annihilates(B, w)
      ensures IsZero(w)
    {
      TailZero(B, n, w, 0);
      assert w[0..] == w;
    }
  }

  lemma IndependentTransfer(A: Matrix, B: Matrix, n: nat)
    requires SameKernel(A, B, n)
    ensures Independent(A, n) <==> Independent(B, n)
  {
  }

  lemma ReversedAnnihilates(B: Matrix, n: nat, w: seq<bool>)
    requires Shaped(B, n) && |w| == n
    ensures Annihilates(RevRows(B), w) <==> Annihilates(B, Reverse(w))
  {
    forall i | 0 <= i < |B|
      ensures Dot(RevRows(B)[i], w) == Dot(B[i], Reverse(w))
    {
      DotReverse(RevRows(B)[i], w);
      ReverseInvolution(B[i]);
    }
  }

  lemma DescendingAsDiagonal(B: Matrix, n: nat, k: nat, s: nat, c: nat)
    requires Shaped(B, n) && k <= |B| && k <= n && c <= n
    requires DescendingPivots(B, n, k) && ZeroAbove(B, n, s, c)
    ensures Shaped(RevRows(B), n) && DiagonalPivots(RevRows(B), k) && ZeroBelow(RevRows(B), n, s, c)
  {
  }

  /** The descending scan failed at step `k` (column `n-1-k`) after `k`
      successful steps: the columns are dependent. */
  lemma DependentAtStep(B: Matrix, n: nat, k: nat)
    requires Shaped(B, n) && k < n && k <= |B|
    requires DescendingPivots(B, n, k) && ZeroAbove(B, n, k, k + 1)
    ensures !Independent(B, n)
  {
    DescendingAsDiagonal(B, n, k, k, k + 1);
    var R := RevRows(B);
    var w := KernelWitness(R, n, k);
    ReversedAnnihilates(B, n, w);
    var v := Reverse(w);
    assert v[n - 1 - k] == w[k];
    assert |v| == n && Annihilates(B, v) && !IsZero(v);
  }

  lemma DescendingFullIndependent(B: Matrix, n: nat)
    requires Shaped(B, n) && n <= |B| && DescendingPivots(B, n, n)
    ensures Independent(B, n)
  {
    DescendingAsDiagonal(B, n, n, n, 0);
    FullDiagonalIndependent(RevRows(B), n);
    forall v | |v| == n && Annihilates(B, v)
      ensures IsZero(v)
    {
      ReverseInvolution(v);
      ReversedAnnihilates(B, n, Reverse(v));
      assert IsZero(Reverse(v));
      forall j | 0 <= j < n ensures !v[j] {
        assert v[j] == Reverse(v)[n - 1 - j];
      }
    }
  }

  // ---------------------------------------------------------------------
  // Row operations keep the shapes
  // ---------------------------------------------------------------------

  lemma SwapShaped(M: Matrix, p: nat, q: nat, n: nat)
    requires p < |M| && q < |M| && Shaped(M, n)
    ensures Shaped(Swap(M, p, q), n)
  {
  }

  lemma AddRowShaped(M: Matrix, i: nat, p: nat, n: nat)
    requires i < |M| && p < |M| && Shaped(M, n)
    ensures Shaped(AddRow(M, i, p), n)
  {
  }

  /** `mat` is the product of `inv` with `M`, row by row, and `inv` came
      from the identity by invertible row operations, so its kernel is
      trivial. */
  ghost predicate Tracks(mat: Matrix, inv: Matrix, M: Matrix, n: nat) {
    && |M| == n && Shaped(M, n) && Shaped(inv, n) && |mat| == |inv|
    && SameKernel(inv, Identity(n), n)
    && forall i :: 0 <= i < |mat| ==> mat[i] == RowComb(inv[i], M, n)
  }

  lemma TracksSwap(mat: Matrix, inv: Matrix, M: Matrix, n: nat, p: nat, q: nat)
    requires Tracks(mat, inv, M, n) && p < |mat| && q < |mat|
    ensures Tracks(Swap(mat, p, q), Swap(inv, p, q), M, n)
  {
    SwapShaped(inv, p, q, n);
    SwapKernel(inv, p, q, n);
    SameKernelTrans(Swap(inv, p, q), inv, Identity(n), n);
  }

  lemma TracksAddRow(mat: Matrix, inv: Matrix, M: Matrix, n: nat, i: nat, p: nat)
    requires Tracks(mat, inv, M, n) && i < |mat| && p < |mat| && i != p
    ensures Tracks(AddRow(mat, i, p), AddRow(inv, i, p), M, n)
  {
    AddRowShaped(inv, i, p, n);
    RowCombXor(inv[i], inv[p], M, n);
    AddRowKernel(inv, i, p, n);
    SameKernelTrans(AddRow(inv, i, p), inv, Identity(n), n);
  }

  lemma LeftInverseFromUnitRows(inv: Matrix, M: Matrix, n: nat)
    requires |M| == n && Shaped(M, n) && |inv| == n && Shaped(inv, n)
    requires forall i :: 0 <= i < n ==> RowComb(inv[i], M, n) == Unit(n, i)
    ensures LeftInverse(inv, M, n)
  {
    forall v | |v| == n
      ensures MatVec(n, inv, MatVec(n, M, v)) == v
    {
      forall i | 0 <= i < n
        ensures Dot(MatVec(n, M, v), inv[i]) == v[i]
      {
        DotComm(MatVec(n, M, v), inv[i]);
        RowCombDot(inv[i], M, n, v);
        DotUnit(n, i, v);
      }
    }
  }

  // ---------------------------------------------------------------------
  // One elimination pass
  // ---------------------------------------------------------------------

  /** The pivot search: the first row from `from` on with a 1 in column
      `col`, or `|mat|` when there is none. */
  method FindPivot(mat: Matrix, col: nat, from: nat, ghost n: nat) returns (r: nat)
    requires Shaped(mat, n) && col < n && from <= |mat|
    ensures from <= r <= |mat|
    ensures forall j :: from <= j < r ==> !mat[j][col]
    ensures r < |mat| ==> mat[r][col]
  {
    r := from;
    while r < |mat| && !mat[r][col]
      invariant from <= r <= |mat|
      invariant forall j :: from <= j < r ==> !mat[j][col]
    {
      r := r + 1;
    }
  }

  /** The inner `for i in range(row+1, len(mat))` loop of the rank routines:
      every later row with a 1 in column `col` gets row `row` added. */
  method ClearBelow(mat: Matrix, row: nat, col: nat, ghost n: nat) returns (out: Matrix)
    requires Shaped(mat, n) && row < |mat| && col < n
    ensures |out| == |mat| && Shaped(out, n)
    ensures forall j :: 0 <= j <= row ==> out[j] == mat[j]
    ensures forall j :: row < j < |mat| ==>
      out[j] == if mat[j][col] then XorBlock(mat[j], mat[row]) else mat[j]
    ensures SameKernel(out, mat, n)
  {
    out := mat;
    var i := row + 1;
    while i < |out|
      invariant row + 1 <= i <= |out| == |mat| && Shaped(out, n)
      invariant forall j :: 0 <= j <= row ==> out[j] == mat[j]
      invariant forall j :: row < j < i ==>
        out[j] == if mat[j][col] then XorBlock(mat[j], mat[row]) else mat[j]
      invariant forall j :: i <= j < |out| ==> out[j] == mat[j]
      invariant SameKernel(out, mat, n)
    {
      if out[i][col] {
        AddRowKernel(out, i, row, n);
        SameKernelTrans(AddRow(out, i, row), out, mat, n);
        out := AddRow(out, i, row);
      }
      i := i + 1;
    }
  }

  /** The same pass in `invert_Matrix`, which repeats every row operation on
      the companion matrix. */
  method ClearBelowTracked(mat: Matrix, inv: Matrix, row: nat, col: nat, ghost M: Matrix, ghost n: nat)
    returns (mat': Matrix, inv': Matrix)
    requires Tracks(mat, inv, M, n) && Shaped(mat, n) && row < |mat| && col < n
    ensures |mat'| == |mat| && Shaped(mat', n) && Tracks(mat', inv', M, n)
    ensures forall j :: 0 <= j <= row ==> mat'[j] == mat[j]
    ensures forall j :: row < j < |mat| ==>
      mat'[j] == if mat[j][col] then XorBlock(mat[j], mat[row]) else mat[j]
    ensures SameKernel(mat', mat, n)
  {
    mat', inv' := mat, inv;
    var i := row + 1;
    while i < |mat'|
      invariant row + 1 <= i <= |mat'| == |mat| && Shaped(mat', n) && Tracks(mat', inv', M, n)
      invariant forall j :: 0 <= j <= row ==> mat'[j] == mat[j]
      invariant forall j :: row < j < i ==>
        mat'[j] == if mat[j][col] then XorBlock(mat[j], mat[row]) else mat[j]
      invariant forall j :: i <= j < |mat'| ==> mat'[j] == mat[j]
      invariant SameKernel(mat', mat, n)
    {
      if mat'[i][col] {
        AddRowKernel(mat', i, row, n);
        SameKernelTrans(AddRow(mat', i, row), mat', mat, n);
        TracksAddRow(mat', inv', M, n, i, row);
        mat', inv' := AddRow(mat', i, row), AddRow(inv', i, row);
      }
      i := i + 1;
    }
  }

  /** The inner `for r in range(col)` loop of the back-substitution: every
      earlier row with a 1 in column `c` gets row `c` added. */
  method ClearAbove(mat: Matrix, inv: Matrix, c: nat, ghost M: Matrix, ghost n: nat)
    returns (mat': Matrix, inv': Matrix)
    requires Tracks(mat, inv, M, n) && |mat| == n && Shaped(mat, n) && c < n
    ensures |mat'| == n && Shaped(mat', n) && Tracks(mat', inv', M, n)
    ensures forall j :: c <= j < n ==> mat'[j] == mat[j]
    ensures forall j :: 0 <= j < c ==>
      mat'[j] == if mat[j][c] then XorBlock(mat[j], mat[c]) else mat[j]
  {
    mat', inv' := mat, inv;
    var r := 0;
    while r < c
      invariant 0 <= r <= c && |mat'| == n && Shaped(mat', n) && Tracks(mat', inv', M, n)
      invariant forall j :: r <= j < n ==> mat'[j] == mat[j]
      invariant forall j :: 0 <= j < r ==>
        mat'[j] == if mat[j][c] then XorBlock(mat[j], mat[c]) else mat[j]
    {
      if mat'[r][c] {
        AddRowShaped(mat', r, c, n);
        TracksAddRow(mat', inv', M, n, r, c);
        mat', inv' := AddRow(mat', r, c), AddRow(inv', r, c);
      }
      r := r + 1;
    }
  }

  // ---------------------------------------------------------------------
  // The shapes the outer loops keep
  // ---------------------------------------------------------------------

  lemma DescendingSwap(B: Matrix, n: nat, k: nat, q: nat)
    requires Shaped(B, n) && k <= q < |B| && k < n
    requires DescendingPivots(B, n, k) && ZeroAbove(B, n, k, k)
    ensures Shaped(Swap(B, k, q), n)
    ensures DescendingPivots(Swap(B, k, q), n, k) && ZeroAbove(Swap(B, k, q), n, k, k)
  {
    SwapShaped(B, k, q, n);
    var S := Swap(B, k, q);
    forall i, j | k <= i < |S| && n - k <= j < n
      ensures !S[i][j]
    {
      if i == k { assert S[i] == B[q]; }
      else if i == q { assert S[i] == B[k]; }
      else { assert S[i] == B[i]; }
    }
  }

  /** Step `k` of the descending scan found its pivot in row `k` and cleared
      the column below it. */
  lemma DescendingStep(B: Matrix, A: Matrix, n: nat, k: nat, col: nat)
    requires Shaped(B, n) && Shaped(A, n) && |A| == |B| && k < n && k < |B| && col == n - 1 - k
    requires DescendingPivots(B, n, k) && ZeroAbove(B, n, k, k) && B[k][col]
    requires forall j :: 0 <= j <= k ==> A[j] == B[j]
    requires forall j :: k < j < |B| ==>
      A[j] == if B[j][col] then XorBlock(B[j], B[k]) else B[j]
    ensures DescendingPivots(A, n, k + 1) && ZeroAbove(A, n, k + 1, k + 1)
  {
    forall i, j | k + 1 <= i < |A| && n - (k + 1) <= j < n
      ensures !A[i][j]
    {
      if B[i][n - 1 - k] {
        assert A[i][j] == (B[i][j] != B[k][j]);
      }
    }
  }

  /** Step `col` of the ascending scan found its pivot in row `col` and
      cleared the column below it. */
  lemma AscendingStep(B: Matrix, A: Matrix, n: nat, c: nat)
    requires Shaped(B, n) && Shaped(A, n) && |A| == |B| && c < n && c < |B|
    requires DiagonalPivots(B, c) && ZeroBelow(B, n, c, c) && B[c][c]
    requires forall j :: 0 <= j <= c ==> A[j] == B[j]
    requires forall j :: c < j < |B| ==>
      A[j] == if B[j][c] then XorBlock(B[j], B[c]) else B[j]
    ensures DiagonalPivots(A, c + 1) && ZeroBelow(A, n, c + 1, c + 1)
  {
    forall i, j | c + 1 <= i < |A| && 0 <= j < c + 1
      ensures !A[i][j]
    {
      if B[i][c] {
        assert A[i][j] == (B[i][j] != B[c][j]);
      }
    }
  }

  lemma AscendingSwap(B: Matrix, n: nat, c: nat, q: nat)
    requires Shaped(B, n) && c <= q < |B| && c < n
    requires DiagonalPivots(B, c) && ZeroBelow(B, n, c, c)
    ensures Shaped(Swap(B, c, q), n)
    ensures DiagonalPivots(Swap(B, c, q), c) && ZeroBelow(Swap(B, c, q), n, c, c)
  {
    SwapShaped(B, c, q, n);
    var S := Swap(B, c, q);
    forall i, j | c <= i < |S| && 0 <= j < c
      ensures !S[i][j]
    {
      if i == c { assert S[i] == B[q]; }
      else if i == q { assert S[i] == B[c]; }
      else { assert S[i] == B[i]; }
    }
  }

  /** Column `c` has no pivot at or below row `c`: the columns are
      dependent. */
  lemma AscendingFail(B: Matrix, n: nat, c: nat)
    requires Shaped(B, n) && c < n && c <= |B|
    requires DiagonalPivots(B, c) && ZeroBelow(B, n, c, c)
    requires forall j :: c <= j < |B| ==> !B[j][c]
    ensures !Independent(B, n)
  {
    var v := KernelWitness(B, n, c);
    assert !IsZero(v);
  }

  /** Off the diagonal, columns `c ..` are zero. */
  ghost predicate ReducedFrom(B: Matrix, n: nat, c: nat)
    requires Shaped(B, n) && |B| == n
  {
    forall i, j :: 0 <= i < n && c <= j < n && i != j ==> !B[i][j]
  }

  /** One back-substitution step clears column `c` above the diagonal. */
  lemma BackStep(B: Matrix, A: Matrix, n: nat, c: nat)
    requires Shaped(B, n) && |B| == n && Shaped(A, n) && |A| == n && c < n
    requires DiagonalPivots(B, n) && ReducedFrom(B, n, c + 1)
    requires forall j :: c <= j < n ==> A[j] == B[j]
    requires forall j :: 0 <= j < c ==>
      A[j] == if B[j][c] then XorBlock(B[j], B[c]) else B[j]
    ensures DiagonalPivots(A, n) && ReducedFrom(A, n, c)
  {
    assert B[c] == Unit(n, c);
    forall i | 0 <= i < c && B[i][c]
      ensures A[i] == B[i][c := false]
    {
    }
  }

  // ---------------------------------------------------------------------
  // Rank
  // ---------------------------------------------------------------------

  /** What the descending scan keeps after `k` steps with `row` pivots. */
  ghost predicate RankInvariant(mat: Matrix, A: Matrix, cols: nat, row: nat, k: nat) {
    && row <= k <= cols && row <= |mat| == |A| && Shaped(mat, cols)
    && SameKernel(mat, A, cols)
    && (row < k ==> !Independent(A, cols))
    && (row == k ==> DescendingPivots(mat, cols, k) && ZeroAbove(mat, cols, k, k))
    && (IsZeroMatrix(A) ==> mat == A && row == 0)
  }

  /** One pass of the outer loop of the rank routines, for column
      `cols-1-k`, when the pivot row is still inside the matrix. */
  method RankColumn(mat: Matrix, row: nat, k: nat, ghost A: Matrix, cols: nat)
    returns (mat': Matrix, row': nat)
    requires k < cols && row < |mat| && RankInvariant(mat, A, cols, row, k)
    ensures row' == row || row' == row + 1
    ensures RankInvariant(mat', A, cols, row', k + 1)
  {
    var col := cols - 1 - k;
    mat' := mat;
    if !mat'[row][col] {
      var rr := FindPivot(mat', col, row, cols);
      if rr >= |mat'| {
        if row == k {
          DependentAtStep(mat', cols, k);
          IndependentTransfer(mat', A, cols);
        }
        return mat', row;
      }
      if row == k {
        DescendingSwap(mat', cols, k, rr);
      }
      SwapKernel(mat', row, rr, cols);
      SameKernelTrans(Swap(mat', row, rr), mat', A, cols);
      SwapShaped(mat', row, rr, cols);
      mat' := Swap(mat', row, rr);
    }
    assert !IsZeroMatrix(A) by {
      assert mat'[row][col];
    }
    ghost var before := mat';
    mat' := ClearBelow(mat', row, col, cols);
    SameKernelTrans(mat', before, A, cols);
    if row == k {
      DescendingStep(before, mat', cols, k, col);
    }
    row' := row + 1;
  }

  /** The elimination shared by `rank_of_Matrix` and `rank_of_Matrix_Key`,
      on a copy with `cols` columns. `None` is the `IndexError` the Python
      raises when the matrix has no rows (`mat[0]`) or when the pivot row
      runs past the last row. */
  method EchelonRank(A: Matrix, cols: nat) returns (r: Option<nat>)
    requires Shaped(A, cols)
    ensures r.None? ==> |A| == 0 || |A| < cols
    ensures r.Some? ==> r.value <= cols && r.value <= |A|
    ensures r == Some(cols) <==> |A| > 0 && Independent(A, cols)
    ensures |A| > 0 && IsZeroMatrix(A) ==> r == Some(0)
  {
    if |A| == 0 {
      return None;
    }
    var mat := A;
    var size := cols;
    var row := 0;
    var k := 0;
    while k < size
      invariant RankInvariant(mat, A, cols, row, k)
    {
      if row == |mat| {
        if row == k {
          DependentAtStep(mat, cols, k);
          IndependentTransfer(mat, A, cols);
        }
        return None;
      }
      mat, row := RankColumn(mat, row, k, A, cols);
      k := k + 1;
      if row == size {
        break;
      }
    }
    if row == cols {
      DescendingFullIndependent(mat, cols);
      IndependentTransfer(mat, A, cols);
    }
    return Some(row);
  }

  /** `rank_of_Matrix`: the rank of the top-left `n x n` block. Full rank
      holds exactly when the columns are independent; the zero matrix has
      rank 0. */
  method Rank(n: nat, matrix: Matrix) returns (r: nat)
    requires 1 <= n <= |matrix| && forall i :: 0 <= i < n ==> n <= |matrix[i]|
    ensures r <= n
    ensures r == n <==> Independent(TopLeft(matrix, n, n), n)
    ensures IsZeroMatrix(TopLeft(matrix, n, n)) ==> r == 0
  {
    var o := EchelonRank(TopLeft(matrix, n, n), n);
    r := o.value;
  }

  /** `rank_of_Matrix_Key`: the same scan over a `rows x cols` copy (block
      size rows, key size columns). With fewer rows than columns it may
      index past the last row. */
  method RankKey(rows: nat, cols: nat, matrix: Matrix) returns (r: Option<nat>)
    requires rows <= |matrix| && forall i :: 0 <= i < rows ==> cols <= |matrix[i]|
    ensures cols <= rows && 0 < rows ==> r.Some?
    ensures r.Some? ==> r.value <= cols && r.value <= rows
    ensures r == Some(cols) <==> 0 < rows && Independent(TopLeft(matrix, rows, cols), cols)
  {
    r := EchelonRank(TopLeft(matrix, rows, cols), cols);
  }

  // ---------------------------------------------------------------------
  // Inversion
  // ---------------------------------------------------------------------

  /** What the forward pass of `invert_Matrix` keeps after `col` columns
      with `row` pivots. */
  ghost predicate ForwardInvariant(mat: Matrix, inv: Matrix, M: Matrix, n: nat, row: nat, col: nat) {
    && row <= col <= n && |mat| == n && Shaped(mat, n) && Tracks(mat, inv, M, n)
    && SameKernel(mat, M, n)
    && (row < col ==> !Independent(M, n))
    && (row == col ==> DiagonalPivots(mat, col) && ZeroBelow(mat, n, col, col))
  }

  /** One pass of the forward loop of `invert_Matrix`, for column `col`. */
  method ForwardColumn(mat: Matrix, inv: Matrix, row: nat, col: nat, ghost M: Matrix, n: nat)
    returns (mat': Matrix, inv': Matrix, row': nat)
    requires col < n && ForwardInvariant(mat, inv, M, n, row, col)
    ensures row' == row || row' == row + 1
    ensures ForwardInvariant(mat', inv', M, n, row', col + 1)
  {
    mat', inv' := mat, inv;
    if !mat'[row][col] {
      var rr := FindPivot(mat', col, row + 1, n);
      if rr >= |mat'| {
        if row == col {
          forall j | col <= j < |mat'| ensures !mat'[j][col] {
            if j != row {
              assert row + 1 <= j < rr;
            }
          }
          AscendingFail(mat', n, col);
          IndependentTransfer(mat', M, n);
        }
        return mat', inv', row;
      }
      if row == col {
        AscendingSwap(mat', n, col, rr);
      }
      SwapKernel(mat', row, rr, n);
      SameKernelTrans(Swap(mat', row, rr), mat', M, n);
      SwapShaped(mat', row, rr, n);
      TracksSwap(mat', inv', M, n, row, rr);
      mat', inv' := Swap(mat', row, rr), Swap(inv', row, rr);
    }
    ghost var before := mat';
    mat', inv' := ClearBelowTracked(mat', inv', row, col, M, n);
    SameKernelTrans(mat', before, M, n);
    if row == col {
      AscendingStep(before, mat', n, col);
    }
    row' := row + 1;
  }

  /** `invert_Matrix`: forward elimination with an identity-seeded companion,
      then back-substitution using row `col` as the pivot of column `col`.
      The companion always has independent columns; when those of the
      input are independent too, it is a two-sided inverse. */
  method Invert(n: nat, matrix: Matrix) returns (inv: Matrix)
    requires 1 <= n <= |matrix| && forall i :: 0 <= i < n ==> n <= |matrix[i]|
    ensures |inv| == n && Shaped(inv, n)
    ensures Independent(TopLeft(matrix, n, n), n) ==> LeftInverse(inv, TopLeft(matrix, n, n), n)
    ensures Independent(inv, n)
    ensures Independent(TopLeft(matrix, n, n), n) ==> RightInverse(inv, TopLeft(matrix, n, n), n)
  {
    var M := TopLeft(matrix, n, n);
    var mat := M;
    inv := Identity(n);
    forall i | 0 <= i < n ensures mat[i] == RowComb(inv[i], M, n) {
      RowCombUnit(n, i, M, n);
    }
    var size := n;

    // Transform to upper triangular matrix
    var row := 0;
    var col := 0;
    while col < size
      invariant ForwardInvariant(mat, inv, M, n, row, col)
    {
      mat, inv, row := ForwardColumn(mat, inv, row, col, M, n);
      col := col + 1;
    }

    ghost var full := row == size;

    // Transform to identity matrix
    var k := 0;
    while k < size
      invariant 0 <= k <= size
      invariant |mat| == n && Shaped(mat, n) && Tracks(mat, inv, M, n)
      invariant full ==> DiagonalPivots(mat, n) && ReducedFrom(mat, n, n - k)
    {
      var c := size - 1 - k;
      ghost var before := mat;
      mat, inv := ClearAbove(mat, inv, c, M, n);
      if full {
        BackStep(before, mat, n, c);
      }
      k := k + 1;
    }

    if full {
      forall i | 0 <= i < n ensures RowComb(inv[i], M, n) == Unit(n, i) {
        assert mat[i] == Unit(n, i);
      }
      LeftInverseFromUnitRows(inv, M, n);
    }
    IdentityIndependent(n);
    IndependentTransfer(inv, Identity(n), n);
    if full {
      RightInverseFromLeft(inv, M, n);
    }
  }
}
