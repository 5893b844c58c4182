/**
  The two-party cross-check of the Beaver-triple AND (`triples_test.py`):
  split each input into two shares, mask them with a triple, open `d` and
  `e`, and combine. The script asserts `x & y == z` on random samples; here
  it is proved for every input and every random bit.
 */
module Triples {
  import opened Wrappers
  import opened Bits
  import opened Sharing
  import Gates

  /** `stage_one`: split `x` into the random share `x1` and `x ^ x1`. */
  function Split(x: bool, x1: bool): (p: (bool, bool))
    ensures p.0 == x1 && Xor(p.0, p.1) == x
  {
    (x1, Xor(x, x1))
  }

  /** The test's `emulate_and` with the two correction flags as parameters;
      the script passes `True` for party 1 and `False` for party 2. Its
      `stage_two` masks a party's shares exactly as `Gates.StageOne` does,
      and its `stage_three` opens `d` and `e` from both parties' values and
      then computes `Gates.StageTwo`. */
  function AndWithFlags(x: bool, y: bool, t1: Triple, t2: Triple, rx: bool, ry: bool, p1: bool, p2: bool): bool {
    var (x1, x2) := Split(x, rx);
    var (y1, y2) := Split(y, ry);
    var (d1, e1) := Gates.StageOne(x1, y1, t1.a, t1.b);
    var (d2, e2) := Gates.StageOne(x2, y2, t2.a, t2.b);
    var d := Xor(d1, d2);
    var e := Xor(e1, e2);
    Xor(Gates.StageTwo(x1, y1, d, e, t1.c, p1), Gates.StageTwo(x2, y2, d, e, t2.c, p2))
  }

  /** Two shares open to their XOR. */
  lemma OpenTwo(s: seq<bool>)
    requires |s| == 2
    ensures Reconstruct(s, 2) == Xor(s[0], s[1])
  {
    assert s[..Parties(2)] == s;
    ParityStep(s, 0);
    ParityStep(s, 1);
    assert s[..0] == [] && s[..2] == s;
  }

  /** A two-party triple: `c1 ^ c2 == (a1 ^ a2) & (b1 ^ b2)`. */
  lemma ValidTwo(t1: Triple, t2: Triple)
    ensures ValidTriple([t1, t2], 2)
      <==> Xor(t1.c, t2.c) == (Xor(t1.a, t2.a) && Xor(t1.b, t2.b))
  {
    OpenTwo(As([t1, t2]));
    OpenTwo(Bs([t1, t2]));
    OpenTwo(Cs([t1, t2]));
  }

  /** The correction must be added by exactly one of the two parties: with
      equal flags the result is off by `d & e`. */
  lemma AndWithFlagsOpens(x: bool, y: bool, t1: Triple, t2: Triple, rx: bool, ry: bool, p1: bool, p2: bool)
    requires Xor(t1.c, t2.c) == (Xor(t1.a, t2.a) && Xor(t1.b, t2.b))
    ensures AndWithFlags(x, y, t1, t2, rx, ry, p1, p2)
      == Xor(x && y, Xor(x, Xor(t1.a, t2.a)) && Xor(y, Xor(t1.b, t2.b)) && p1 == p2)
  {
  }

  /** `emulate_and(x, y, abc)`: `abc[1:]` must unpack into exactly two
      triples, otherwise the call fails (`None`). */
  function EmulateAnd(x: bool, y: bool, abc: seq<Triple>, rx: bool, ry: bool): (z: Option<bool>)
    ensures z.Some? <==> |abc| == 2
  {
    if |abc| != 2 then None
    else Some(AndWithFlags(x, y, abc[0], abc[1], rx, ry, true, false))
  }

  /** The assertion of the script: with a valid two-party triple the opened
      output is `x & y`, for both values of each random share. */
  lemma EmulateAndCorrect(x: bool, y: bool, abc: seq<Triple>, rx: bool, ry: bool)
    requires |abc| == 2 && ValidTriple(abc, 2)
    ensures EmulateAnd(x, y, abc, rx, ry) == Some(x && y)
  {
    assert abc == [abc[0], abc[1]];
    ValidTwo(abc[0], abc[1]);
    AndWithFlagsOpens(x, y, abc[0], abc[1], rx, ry, true, false);
  }

  /** The general `emulate_and` run by two parties computes what the test
      does: `d` and `e` opened from both masked shares, then `stage_three`
      with the correction for party 1 only. */
  lemma AgreesWithGeneral(xs: seq<bool>, ys: seq<bool>, t1: Triple, t2: Triple)
    requires |xs| == |ys| == 2
    ensures Gates.EmulateAnd(xs, ys, [t1, t2], 2).shares
      == Gates.Combine(xs, ys, [t1.c, t2.c],
           Xor(Xor(xs[0], t1.a), Xor(xs[1], t2.a)),
           Xor(Xor(ys[0], t1.b), Xor(ys[1], t2.b)), [true, false])
  {
    var abc := [t1, t2];
    var ds := Gates.Masked(xs, As(abc));
    var es := Gates.Masked(ys, Bs(abc));
    OpenTwo(ds);
    OpenTwo(es);
    assert Unit(2, 0) == [true, false];
    assert Cs(abc)[..2] == [t1.c, t2.c];
  }

  /** The script's loop body: `generate_triple(2)` then `emulate_and`. Its
      assertion holds for every `x`, `y` and every random bit drawn. */
  lemma TestAssertionHolds(x: bool, y: bool, rand: seq<bool>, rx: bool, ry: bool)
    requires TripleDraws(2) <= |rand|
    ensures EmulateAnd(x, y, GenerateTriple(2, None, None, rand).value, rx, ry) == Some(x && y)
  {
    EmulateAndCorrect(x, y, GenerateTriple(2, None, None, rand).value, rx, ry);
  }
}
