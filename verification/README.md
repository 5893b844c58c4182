# LowMC in the head: a Dafny model

This project models the cryptographic core of a small MPC-in-the-head
prototype. The prover runs a boolean circuit on XOR-shared inputs among `n`
simulated parties. Linear gates (XOR, NOT, identity) are evaluated share by
share. AND and OR gates use a Beaver triple and record each party's view.
The circuit being proved is the LowMC block cipher. The model covers:

- **Sharing** (`sharing.dfy`): `share`, `reconstruct` and `generate_triple`.
  Parties are numbered from 1 in the source, with slot 0 unused; here they
  are 0-based sequences. The random bits come from an explicit stream.
- **Gates** (`gates.dfy`): `emulate_and` (both stages and the views),
  `emulate_xor`, `emulate_or`, `emulate_not` and `emulate_id`.
- **Triples** (`triples.dfy`): the two-party cross-check script and its
  assertion.
- **Circuit** (`circuit.dfy`): `garbled_size` and `proof_size`.
- **Bits** and **Gf2** (`bits.dfy`, `gf2.dfy`): XOR blocks, parity, dot
  products, matrix-vector products over GF(2), and the row operations.
- **Elimination** (`elimination.dfy`): `rank_of_Matrix`,
  `rank_of_Matrix_Key` and `invert_Matrix`, as loops over immutable
  matrices.
- **Grain** (`grain.dfy`): the 80-bit Grain LFSR used as a self-shrinking
  generator (`getrandbit`, `getrandblock`, `getrandkeyblock`). Its state is an
  explicit value.
- **SboxLayer** (`sbox.dfy`): the 3-bit S-box, its inverse, the substitution
  layer, and the multiplexer form of the S-box that the circuit version
  evaluates.
- **LowMC** (`lowmc.dfy`): parameters, `instantiate_LowMC`, the key
  schedule, `set_key`, `encrypt`, `decrypt` and the circuit copy of
  `encrypt`.
- **Arith** (`arith.dfy`): `bit_combinator`, `bit_adder`, `bit_xadder`,
  `bit_subtractor` and `add`.
- **Optimize** (`optimize.dfy`): the constant-folding hook `bit_optimize`.

`LowMC.py` has three slips in `encrypt`, `decrypt` and `invSubstitution`,
plus a lost assignment in `set_key`. These are modelled twice: once as written, and
once as evidently intended. The corrected versions are what the rest of the
model uses (see "Findings").

## Model

| member | source | states |
|---|---|---|
| Sharing.Share | mpc_in_the_head.py:47-52 | `share` fills slots for parties 1..n, and for party 1 alone when n = 0. Parties 2..n receive the next bits of the random stream, in order, and the rest of the stream is handed back. Whatever bits are drawn, the shares reconstruct to the secret. |
| Sharing.ShareFirstParty | mpc_in_the_head.py:48-51 | Party 1 holds the secret XOR the parity of the drawn bits. Flipping the secret changes only party 1's share. |
| Sharing.Reconstruct | mpc_in_the_head.py:54-58 | `reconstruct` starts from party 1's share and XORs in those of parties 2..n: the secret is party 1's share XOR the parity of the shares of parties 2..n. No later share is read. |
| Sharing.ReconstructOddCount | mpc_in_the_head.py:54-58 | `reconstruct` is 1 exactly when an odd number of the shares of parties 1..n are set. |
| Sharing.ReconstructXor | mpc_in_the_head.py:54-58 | Reconstruction is XOR-linear: XORing two share vectors XORs the secrets. |
| Sharing.Zip | mpc_in_the_head.py:64 | The zipped triples' a, b and c columns are exactly the three share vectors. |
| Sharing.ShareTriple | mpc_in_the_head.py:64 | The three `share` calls of `generate_triple` give one triple per party whose a, b and c columns reconstruct to the three secrets, and consume 3·(n−1) bits of the stream. |
| Sharing.Settle | mpc_in_the_head.py:61-62 | A supplied 1 is kept and anything else is replaced by the next draw: `a` opens to the first bit unless supplied, `b` to the next bit still unused unless supplied, and one bit is consumed for each replaced argument. |
| Sharing.GenerateTriple | mpc_in_the_head.py:60-64 | `generate_triple` yields one triple per party. The shares of c reconstruct to the AND of those of a and b. a and b open to the supplied 1 or to the first and second draws. The stream handed back has lost one bit for each of a and b not supplied as 1, then the 3·(n−1) bits of the three `share` calls. |
| Gates.StageOne | mpc_in_the_head.py:71-74 | The masked values unmask to the party's inputs: d_i ^ a_i = x_i and e_i ^ b_i = y_i. |
| Gates.StageTwo | mpc_in_the_head.py:76-82 | For a single party holding c_i = (x_i ^ d) & (y_i ^ e) and applying the correction, the output share is x_i & y_i. The output differs from c_i ^ (x_i & e) ^ (y_i & d) by d & e exactly when the correction flag is set. |
| Gates.Masked | mpc_in_the_head.py:86-89 | The vector of all parties' d (or e) values unmasks, position by position, to their input shares. |
| Gates.CombineOpens | mpc_in_the_head.py:76-93 | The parity of all parties' `stage_two` outputs is c ^ (x & e) ^ (y & d), plus (d & e) once for each party that applies the correction. |
| Gates.CorrectionCount | mpc_in_the_head.py:79-81 | For a valid triple, the opened output is x & y, off by d & e when an even number of parties add the correction. |
| Gates.ParityFirstOnly | mpc_in_the_head.py:80-81 | Flagging only party 1 (`i == 1`) is an odd number of corrections. |
| Gates.EmulateAnd | mpc_in_the_head.py:70-99 | `emulate_and` returns one output share and one view per party. Every view has 5 + 2n bits: the party's a_i, b_i, c_i, x_i, y_i, then n values that unmask with party j's a_j to x_j, then n values that unmask with b_j to y_j. |
| Gates.AndViews | mpc_in_the_head.py:95-97 | One view per party. View i has 5 bits plus one per d value and one per e value: a_i, b_i, c_i, x_i, y_i, then exactly the broadcast d values, then exactly the broadcast e values. |
| Gates.AndViewsContents | mpc_in_the_head.py:95-97 | With the d and e values of stage one, party i's view has 5 + 2n bits: a_i, b_i, c_i, x_i, y_i, then n d values and n e values. Unmasking the j-th d or e with party j's a or b gives party j's input share. |
| Gates.AllViewsContents | mpc_in_the_head.py:95-97 | The same holds for every party's view at once. |
| Gates.PartyViewOpens | mpc_in_the_head.py:97 | The d and e parts of any view unmask to the input shares of every party. |
| Gates.EmulateAndCorrect | mpc_in_the_head.py:70-93 | With a valid triple, the output shares of `emulate_and` reconstruct to the AND of the reconstructed inputs (Beaver's identity). |
| Gates.EmulateXor | mpc_in_the_head.py:101-105 | `emulate_xor` returns n shares and no views. What they open to is stated by EmulateXorCorrect. |
| Gates.EmulateXorCorrect | mpc_in_the_head.py:101-105 | The shares of `emulate_xor` reconstruct to the XOR of the inputs. |
| Gates.EmulateOr | mpc_in_the_head.py:107-111 | `emulate_or` returns n shares and passes on the views of its AND gate. |
| Gates.EmulateOrCorrect | mpc_in_the_head.py:107-111 | With a valid triple, the shares of `emulate_or` reconstruct to the OR of the inputs (x ^ (y ^ (x & y))). |
| Gates.EmulateNot | mpc_in_the_head.py:113-117 | Every party complements its own share, and no views are produced. |
| Gates.EmulateNotOpens | mpc_in_the_head.py:113-117 | The opened result is the input flipped once per party, so it is a NOT only when n is odd. |
| Gates.EmulateId | mpc_in_the_head.py:119-120 | `emulate_id` hands back the shares unchanged, with no views. |
| Triples.Split | triples_test.py:16-19 | `stage_one` gives the random share first, and the two halves XOR to the input. |
| Triples.ValidTwo | triples_test.py:10-14 | A two-party triple is valid exactly when c1 ^ c2 = (a1 ^ a2) & (b1 ^ b2). |
| Triples.AndWithFlagsOpens | triples_test.py:26-46 | The two-party AND is x & y, off by d & e when both parties or neither add the correction. |
| Triples.EmulateAnd | triples_test.py:34-46 | The test's `emulate_and` fails unless `abc[1:]` unpacks into exactly two triples. |
| Triples.EmulateAndCorrect | triples_test.py:34-48 | With a valid two-party triple, the result is x & y for every pair of random shares. |
| Triples.AgreesWithGeneral | triples_test.py:26-32 | For two parties, the general `emulate_and` computes the test's `stage_three`, with the correction for party 1 only. |
| Triples.TestAssertionHolds | triples_test.py:50-54 | The assertion in the test loop holds for every x, y and every random bit drawn by `generate_triple(2)`. |
| Circuit.GarbledSize | mpc_in_the_head.py:126-133 | The count of garbled gates never exceeds the number of gates. |
| Circuit.GarbledSizeZero | mpc_in_the_head.py:126-133 | The count is 0 exactly when no gate is an AND or an OR. |
| Circuit.GarbledSizeCounts | mpc_in_the_head.py:129-133 | The count equals the number of AND operations plus the number of OR operations in the circuit. |
| Circuit.GarbledSizeAppend | mpc_in_the_head.py:126-133 | The counts of two concatenated circuits add up. |
| Circuit.ProofSize | mpc_in_the_head.py:142 | `proof_size` is (number of AND and OR gates) × (n + 1). |
| Bits.ParityOfXor | LowMC.py:10-11 | The parity of an XOR block is the XOR of the parities. |
| Bits.XorCancel | LowMC.py:10-11 | XORing the same block twice gives the input back. |
| Bits.XorTwice | LowMC.py:10-11 | XORing with a and then b is the identity exactly when a = b. |
| Gf2.DotIsSumMod2 | LowMC.py:132 | The GF(2) dot product is `sum(a & b) % 2`. |
| Gf2.MatVec | LowMC.py:129-140 | The product has one bit per row requested. Its value is characterised by MatVecLinear, MatVecZero and MatVecIdentity. |
| Gf2.MatVecLinear | LowMC.py:129-140 | The matrix-vector product is XOR-linear in the vector. |
| Gf2.MatVecZero | LowMC.py:129-133 | M·v is the zero block exactly when every row of M is orthogonal to v. |
| Gf2.MatVecIdentity | LowMC.py:286-289 | The identity matrix fixes every vector. |
| Gf2.IdentityIndependent | LowMC.py:286-289 | The identity matrix has full column rank. |
| Gf2.SwapKernel | LowMC.py:228-230 | Swapping two rows keeps the kernel. |
| Gf2.AddRowKernel | LowMC.py:232-234 | XORing one row into another keeps the kernel. |
| Gf2.RightInverseFromLeft | LowMC.py:279-326 | A square left inverse whose own columns are independent is also a right inverse: M·(inv·v) = v for every v. |
| Elimination.FindPivot | LowMC.py:221-223 | The search stops at the first row, from the start row on, with a 1 in the column, or at the end of the matrix when there is none. |
| Elimination.ClearBelow | LowMC.py:232-234 | The rows up to the pivot are unchanged. Every later row with a 1 in the column has the pivot row XORed in. The kernel is unchanged. |
| Elimination.ClearBelowTracked | LowMC.py:311-314 | As ClearBelow, and the same row operations on the companion matrix keep every row of `mat` equal to its companion row times the original. |
| Elimination.ClearAbove | LowMC.py:320-324 | The back-substitution for one column clears the rows above it the same way, keeping the companion relation. |
| Elimination.AscendingFail | LowMC.py:301-302 | If no pivot is found for a column, the matrix does not have full rank. |
| Elimination.DependentAtStep | LowMC.py:225-226 | A column skipped by the descending scan means the matrix does not have full rank. |
| Elimination.DescendingFullIndependent | LowMC.py:236-238 | A pivot in every column of the descending scan means full rank. |
| Elimination.LeftInverseFromUnitRows | LowMC.py:319-326 | Once every row of `mat` is a unit row, the companion matrix is a left inverse. |
| Elimination.RankColumn | LowMC.py:219-238 | One column of the scan keeps the invariant: same kernel as the input, pivots on the descending diagonal, and a pivot row that advances by at most one. |
| Elimination.EchelonRank | LowMC.py:243-276 | The scan's result is at most the number of columns and rows. It is the full column count exactly when the matrix has full column rank, and 0 for a zero matrix. It fails only on an empty matrix or one with fewer rows than columns. |
| Elimination.Rank | LowMC.py:208-240 | `rank_of_Matrix` is n exactly when the n×n top-left block has full rank, and 0 for a zero block. |
| Elimination.RankKey | LowMC.py:243-276 | `rank_of_Matrix_Key` returns a value whenever there are at least as many rows as columns. It is the column count exactly when the block has full column rank. |
| Elimination.ForwardColumn | LowMC.py:295-316 | One column of the forward pass of `invert_Matrix` keeps the kernel, the pivots and the companion relation. |
| Elimination.Invert | LowMC.py:279-326 | `invert_Matrix` returns an n×n matrix whose columns are always independent, since it comes from the identity by row swaps and row additions. For an invertible input, it is both a left and a right inverse of the input. |
| Grain.StepBackStep | LowMC.py:355-357 | One LFSR step can be undone: stepping back after stepping gives the register back. |
| Grain.StepStepBack | LowMC.py:355-357 | Stepping after stepping back gives the register back, so the step is a bijection. |
| Grain.StepNonzero | LowMC.py:355-357 | A step leads to the all-zero register only from the all-zero register. |
| Grain.Step | LowMC.py:355-357 | A step keeps the register 80 bits wide. That it is a bijection is stated by StepBackStep and StepStepBack. |
| Grain.AdvanceNonzero | LowMC.py:353-357 | Any number of steps keeps a nonzero register nonzero. |
| Grain.AdvanceAdd | LowMC.py:361-369 | a + b steps are a steps followed by b steps. |
| Grain.AdvanceTwo | LowMC.py:363-369 | Two consecutive updates are two steps. |
| Grain.Seeded | LowMC.py:349-357 | The all-ones seed after 160 discarded steps is a nonzero 80-bit register. |
| Grain.Shrink | LowMC.py:361-374 | The self-shrinking loop keeps the register 80 bits wide and nonzero. |
| Grain.ShrinkFirstPair | LowMC.py:361-374 | The returned bit is the second bit of the first pair whose first bit is 1. The register has then advanced two steps per pair examined. |
| Grain.ShrinkExhausted | LowMC.py:361-372 | The loop finds no output within its bound exactly when every pair in that range starts with 0. |
| Grain.Start | LowMC.py:348-357 | A draw starts from the seeded register on first use and from the running register afterwards; either is 80 bits wide and nonzero. |
| Grain.ShrinkFirstPairAny | LowMC.py:361-374 | For whichever pair is the first with choice bit 1, the loop returns its candidate bit and the register just after it. |
| Grain.RandBit | LowMC.py:344-374 | `getrandbit` starts from the seeded register on first use and from the running one afterwards. It fails only when none of the first `fuel` pairs from there has choice bit 1. Otherwise it returns the second bit of the first pair whose first bit is 1, leaves the register two steps per pair further on, and the generator running and valid. |
| Grain.RandBits | LowMC.py:333-338 | `getrandblock` and `getrandkeyblock` draw exactly the requested number of bits. |
| Grain.RandMatrix | LowMC.py:162-167 | Drawing a matrix gives the requested number of rows, each of the requested width. |
| SboxLayer.IndexToBits | LowMC.py:93-98 | Splitting an index 0..7 into three bits and recombining them gives the index back. |
| SboxLayer.ToBitsIndex | LowMC.py:93-98 | Recombining three bits and splitting the index gives the bits back. |
| SboxLayer.TablesInverse | LowMC.py:34-35 | `Sbox` and `invSbox` are permutations of 0..7 and inverse to each other. |
| SboxLayer.TableLookupInverse | LowMC.py:34-35 | Looking up `Sbox` and then `invSbox` on the output bits gives back the index bits. |
| SboxLayer.InvSboxUndoesSbox | LowMC.py:34-35 | The inverse lookup undoes the S-box lookup for every 3-bit input. |
| SboxLayer.InvTableLookupInverse | LowMC.py:34-35 | Looking up `invSbox` and then `Sbox` on the output bits gives back the index bits. |
| SboxLayer.SboxUndoesInvSbox | LowMC.py:34-35 | The S-box lookup undoes the inverse lookup for every 3-bit input. |
| SboxLayer.Layer | LowMC.py:81-102 | The substitution layer keeps the block length and leaves the identity part (bits 3·numofboxes onward) unchanged. |
| SboxLayer.LayerAt | LowMC.py:89-100 | Output bit 3k+j is bit j of the S-box applied to input bits 3k..3k+2. |
| SboxLayer.LayerGroup | LowMC.py:89-100 | Each 3-bit group of the output is the S-box of the same group of the input. |
| SboxLayer.LayerInverse | LowMC.py:105-126 | A layer built from a lookup that undoes another inverts that other layer. |
| SboxLayer.LayerCongruent | LowMC.py:81-102 | Two lookups that agree on every group of a block give the same layer. |
| SboxLayer.InvSubstitutionAsWrittenFails | LowMC.py:118 | With `Sbox` where `invSbox` belongs, the single-box block 010 comes back as 011. |
| SboxLayer.SingleGroup | LowMC.py:89-100 | A one-box layer on three bits is the lookup itself. |
| SboxLayer.InvSubstitutionUndoes | LowMC.py:105-126 | The corrected `invSubstitution` (with `invSbox`) undoes `Substitution` on every block. |
| SboxLayer.SubstitutionUndoesInv | LowMC.py:81-126 | `Substitution` undoes the corrected `invSubstitution` on every block, so the corrected layers are mutually inverse. |
| SboxLayer.Substitute | LowMC.py:81-102 | The shift-and-XOR loop of `Substitution` computes exactly the substitution layer. |
| SboxLayer.PartialStep | LowMC.py:90-100 | One loop pass shifts the partial result by three bits and puts the next S-box output in front. |
| SboxLayer.EqtExactlyOne | mpc_in_the_head.py:270-272 | Of the eight `eqt` tests, exactly one fires: the one whose constant equals the group's bits. |
| SboxLayer.Mux | mpc_in_the_head.py:258-303 | The `ife`/`add` tree of the circuit S-box gives the `Sbox` table entry for every 3-bit input. |
| SboxLayer.MuxLayerIsSboxLayer | mpc_in_the_head.py:258-303 | The circuit `Substitution` equals the table-driven one on every block. |
| LowMC.ParamsValid | LowMC.py:18-23 | The reference and circuit parameter sets fit their blocks, and the reference identity part is 109 bits. |
| LowMC.DrawFullRank | LowMC.py:159-171 | A linear-layer matrix, if drawn, is n×n with full rank, and the generator stays valid. |
| LowMC.DrawKeyMatrix | LowMC.py:187-199 | A key matrix, if drawn, has blocksize rows of keysize bits, with full column rank when keysize ≤ blocksize. |
| LowMC.DrawRoundMatrix | LowMC.py:157-175 | One pass of the first loop yields a full-rank square matrix together with an inverse that undoes it on both sides, and leaves the generator valid. |
| LowMC.DrawRoundMatrices | LowMC.py:153-175 | The first loop yields exactly `rounds` matrices and `rounds` inverses, each pair full rank and mutually inverse. |
| LowMC.Instantiate | LowMC.py:153-201 | `instantiate_LowMC` yields correctly shaped tables. Every linear matrix has full rank and its stored inverse is both a left and a right inverse of it. When the key is no wider than the block, every key matrix has full column rank. |
| LowMC.KeySchedule | LowMC.py:143-150 | `keyschedule` yields `rounds + 1` round keys of `blocksize` bits. Their values are characterised by KeyScheduleLinear and KeyScheduleInjective. |
| LowMC.KeyScheduleLinear | LowMC.py:136-148 | Every round key is XOR-linear in the master key. |
| LowMC.KeyScheduleInjective | LowMC.py:143-150 | With a full-rank key matrix, equal round keys mean equal master keys. |
| LowMC.SetKeyAsWritten | LowMC.py:72-74 | As written, `set_key` either raises or yields a full set of round keys. |
| LowMC.SetKeyAsWrittenIgnoresKey | LowMC.py:72-74 | As written, `set_key` binds a local `key`, so the result does not depend on the key passed in. While the module-level `key` is still the integer 0 it is bound to at line 40, the call raises (`zip` over an int); otherwise it keeps the stored key and recomputes the round keys from it. |
| LowMC.SetKey | LowMC.py:72-74 | The corrected `set_key` yields a full set of round keys. What it stores and how the keys differ is stated by SetKeyDistinguishes. |
| LowMC.SetKeyDistinguishes | LowMC.py:72-74 | The corrected `set_key` stores the key, and different keys give different first round keys. |
| LowMC.RoundInverse | LowMC.py:63-66 | One corrected decryption round undoes one encryption round. |
| LowMC.BackwardForward | LowMC.py:60-69 | k corrected decryption rounds undo k encryption rounds. |
| LowMC.DecryptEncrypt | LowMC.py:49-69 | The corrected `decrypt` undoes the corrected `encrypt` for every key schedule and invertible tables. |
| LowMC.RoundUndoesInvRound | LowMC.py:49-67 | One encryption round undoes one corrected decryption round, once the round matrices also undo their inverses. |
| LowMC.AllRoundsUndoInverse | LowMC.py:49-67 | Once the stored inverses are right inverses, every round undoes its corrected inverse round on every block. |
| LowMC.ForwardBackward | LowMC.py:49-67 | k encryption rounds undo k corrected decryption rounds. |
| LowMC.EncryptDecrypt | LowMC.py:49-69 | Every ciphertext block is the corrected `encrypt` of its corrected `decrypt`, so the two are mutually inverse permutations of the blocks. |
| LowMC.EncryptWith | LowMC.py:49-57 | The corrected `encrypt` yields a block of `blocksize` bits. DecryptEncrypt and EncryptDecrypt state what it computes. |
| LowMC.Decrypt | LowMC.py:60-69 | The corrected `decrypt` yields a block of `blocksize` bits. DecryptEncrypt and EncryptDecrypt state what it computes. |
| LowMC.ForwardCongruent | mpc_in_the_head.py:245-249 | Rounds built from two S-box layers that agree on every block give the same result. |
| LowMC.NestedRound | mpc_in_the_head.py:245-249 | One pass of the circuit `encrypt` loop is round `r` of the cipher, both with the multiplexer S-box and with the table S-box. |
| LowMC.NestedEncryptIsEncrypt | mpc_in_the_head.py:243-251 | The circuit `encrypt` with the multiplexer S-box equals the table-driven `encrypt`. |
| LowMC.NestedDecrypts | mpc_in_the_head.py:243-251 | The corrected `decrypt` maps the circuit `encrypt` of any message back to the message. |
| LowMC.NestedEncrypt | mpc_in_the_head.py:243-251 | The circuit `encrypt` loop returns a block that the corrected `decrypt` maps back to the message. |
| LowMC.EncryptAsWritten | LowMC.py:49-57 | As written, `encrypt` returns the message XOR the last round key, for any number of rounds. |
| LowMC.DecryptAsWritten | LowMC.py:60-69 | As written, `decrypt` returns its input XOR round key 0. |
| LowMC.RoundTripAsWritten | LowMC.py:387-398 | The script's encrypt-then-decrypt gives the plaintext back exactly when the first and last round keys coincide. |
| Arith.BitAdder | avg_std.py:55-65 | The sum and carry bits encode x + y + carry. |
| Arith.BitXAdder | avg_std.py:67-76 | `bit_xadder` computes the same sum and carry as `bit_adder`, and the carry is the majority of the three inputs. |
| Arith.BitSubtractor | avg_std.py:78-88 | The difference and borrow bits encode x − y − borrow. |
| Arith.FoldIsChain | avg_std.py:42-47 | The `reduce` over `combine` appends the outputs of the chained cells and then the final carry. |
| Arith.BitCombinator | avg_std.py:40-49 | `bit_combinator` is z0, the chained outputs, and the final carry only when it is kept. |
| Arith.RippleAdds | avg_std.py:101-102 | A ripple of `bit_adder` cells adds two least-significant-first numbers and the incoming carry. |
| Arith.MsbIsReversedLsb | avg_std.py:92 | Reading bits most significant first equals reading the reversed list least significant first. |
| Arith.AddLsbValue | avg_std.py:95-102 | On reversed inputs, the adder yields the full sum when the overflow bit is preserved, and the sum modulo 2^l otherwise. |
| Arith.Add | avg_std.py:90-104 | `add` fails on empty inputs. Otherwise its result has l bits (l + 1 with the overflow bit) and encodes xs + ys, or xs + ys modulo 2^l. |
| Optimize.BitOptimize | synthesis.py:10-34 | The hook fails exactly when the arguments cannot be unpacked. Any operand it returns is one of the arguments, and any NOT it builds negates one of them. |
| Optimize.BitOptimizeSound | synthesis.py:10-34 | Whatever the hook substitutes carries the value the gate would have computed. |
| Optimize.BitOptimizeKeeps | synthesis.py:12-34 | The gate is kept exactly when no folding rule applies. |
| Optimize.XorSameGate | synthesis.py:28-30 | XOR of two wires from the same gate folds to constant 0. |

## Left out

- I/O and drivers. The `__main__` demo in `LowMC.py` is covered only through its round trip (`LowMC.RoundTripAsWritten`). The `print` calls and the prover's driver in `mpc_in_the_head.py` are out of scope, including the commented-out circuit emulation and the truncation of a 128-bit input to 64 bits.
- The circuit library (`bits`, `constant`, `circuit`, the `op` codes and `hook_operation`). It is not part of this model. Gates are a datatype with an operation and wire lists, and wires are records with a value, a constant flag and a driving gate index.
- `long_div`, `div`, `avg` and the other functions of `avg_std.py` beyond `add` and its bit cells. These are not part of this model.
- Arith.Add: requires |xs| = |ys| = l. `check_lengths` is not part of this model, so its failure on mismatched lengths is not modelled.
- Randomness quality and security. `randbits` is a stream of bits passed in. The model proves what is computed from any bits, not their distribution, and not the zero-knowledge of the views.
- Sharing.Share, Sharing.GenerateTriple: require the random stream to hold enough bits. `randbits` never runs out.
- Grain.Shrink, Grain.RandBit, Grain.RandBits, Grain.RandMatrix: the self-shrinking loop is bounded by `fuel`. Running out of fuel gives `None`, which the unbounded source loop never returns.
- LowMC.DrawFullRank, LowMC.DrawKeyMatrix, LowMC.DrawRoundMatrix, LowMC.DrawRoundMatrices, LowMC.Instantiate: the retry loops are bounded by `fuel`, and the contracts speak only of a successful draw. Termination of the source's `while True` with probability 1 is not modelled.
- Elimination.Invert: for a singular input, only the shape and the independence of the result's columns are stated; the result itself is left unspecified.
- Elimination.RankKey: with fewer rows than columns, the scan may index past the last row (`IndexError` in the source). The contract allows `None` only in that case but does not say when it happens. The copy made at `LowMC.py:246-249` reads `blocksize` rows and `keysize` columns, which are the `rows` and `cols` parameters here.
- Elimination.Rank, Elimination.RankKey: report `rank` only in the cases "full" and "zero matrix". The exact rank of a rank-deficient matrix is not stated.
- The circuit copy of `instantiate_LowMC` (`mpc_in_the_head.py:334-380`) does not compute `invLinMatrices`. Its other tables are drawn as in `LowMC.py`, so they are modelled once, by `LowMC.Instantiate`.
- The concrete matrices and round constants the generator yields are not computed. Only the parameters (`LowMC.ParamsValid`) and the seeded register (`Grain.Seeded`) are checked.
- LowMC.SetKeyAsWritten: when the call raises, `keyschedule` has already emptied `roundkeys`. The model returns `None` and does not describe the state left behind by the exception.
- Circuit.Op: every operation other than AND, OR, XOR, NOT and identity is folded into `Other`. Such operations count as non-garbled, as in `garbled_size`.
- Gates.EmulateNot: NOT on a share is the complement of a bit. The source's `~` on a circuit bit is assumed to be this complement.

## Findings

| source | as written | input that shows it | evidently intended | confidence | as-written member | corrected member |
|---|---|---|---|---|---|---|
| LowMC.py:54-55 | Each round XORs the round constant and then the round key into `message`, not into `c`, so each round's S-box and matrix output is discarded | Any message with `rounds ≥ 1`: the result is `message ^ roundkeys[rounds]`, independent of the S-boxes and matrices | `c = xor_block(c, roundconstants[r])` and `c = xor_block(c, roundkeys[r+1])` | high (not executed) | LowMC.EncryptAsWritten | LowMC.DecryptEncrypt |
| LowMC.py:63-67 | `decrypt` also XORs into `message`, so its result is `message ^ roundkeys[0]` | The demo's round trip gives `m ^ roundkeys[rounds] ^ roundkeys[0]`. With block `000`, `roundkeys[rounds] = 000` and `roundkeys[0] = 100`, it returns `100` | XOR into `c` throughout | high (not executed) | LowMC.RoundTripAsWritten | LowMC.DecryptEncrypt |
| LowMC.py:118 | `invSubstitution` looks up `Sbox` instead of `invSbox` | Single-box block `010`: `Sbox` maps it to `110`, and `Sbox` again gives `011` | `sb = invSbox[idx]` | high (not executed) | SboxLayer.InvSubstitutionAsWrittenFails | SboxLayer.InvSubstitutionUndoes |
| LowMC.py:73 | `key = k` binds a local name, so `keyschedule` uses the module-level key and `set_key` ignores its argument | From the initial state, where `key` is the integer 0 (`LowMC.py:40`), every call raises `TypeError`. Once the script has rebound the module-level `key` (`LowMC.py:382`), any two different keys give the same round keys | `global key` before the assignment | high (not executed) | LowMC.SetKeyAsWrittenIgnoresKey | LowMC.SetKeyDistinguishes |
