/**
  The pseudorandom bit source of the LowMC reference port: an 80-bit Grain
  LFSR run as a self-shrinking generator (`getrandbit`, `getrandblock`,
  `getrandkeyblock`).

  The Python keeps the register in a module global that starts as `None`;
  here it is an explicit `Generator` value threaded through every call. The
  `while True` loop of the self-shrinking step is bounded by `fuel`: running
  out of fuel yields `None`.
 */
module Grain {
  import opened Wrappers
  import opened Bits

  /** Register width. */
  const Width: nat := 80

  /** Raw steps discarded after seeding with all ones. */
  const WarmUp: nat := 160

  /** `state is None` before the first draw; afterwards the 80-bit register. */
  datatype Generator = Fresh | Running(reg: seq<bool>)

  /** A drawn value together with the generator state after the draw. */
  datatype Draw<T> = Draw(value: T, gen: Generator)

  predicate IsRegister(s: seq<bool>) {
    |s| == Width
  }

  /** A usable generator: not yet seeded, or a nonzero 80-bit register. */
  predicate Valid(g: Generator) {
    g.Running? ==> IsRegister(g.reg) && !IsZero(g.reg)
  }

  /** Feedback taps 0, 13, 23, 38, 51 and 62. */
  function Feedback(s: seq<bool>): bool
    requires IsRegister(s)
  {
    Xor(Xor(Xor(s[0], s[13]), Xor(s[23], s[38])), Xor(s[51], s[62]))
  }

  /** One raw step: drop `s[0]`, append the feedback bit as `s[79]`. */
  function Step(s: seq<bool>): (r: seq<bool>)
    requires IsRegister(s)
    ensures IsRegister(r)
  {
    s[1..] + [Feedback(s)]
  }

  /** The step run backwards: `s[0]` is recovered from the feedback bit and
      the other five taps, which have moved down by one. */
  function StepBack(r: seq<bool>): (s: seq<bool>)
    requires IsRegister(r)
    ensures IsRegister(s)
  {
    [Xor(Xor(Xor(r[79], r[12]), Xor(r[22], r[37])), Xor(r[50], r[61]))] + r[..79]
  }

  lemma StepBackStep(s: seq<bool>)
    requires IsRegister(s)
    ensures StepBack(Step(s)) == s
  {
    var r := Step(s);
    assert r[..79] == s[1..];
  }

  lemma StepStepBack(r: seq<bool>)
    requires IsRegister(r)
    ensures Step(StepBack(r)) == r
  {
    var s := StepBack(r);
    assert s[1..] == r[..79];
  }

  /** The step is a bijection fixing the zero register, so a nonzero
      register never becomes zero. */
  lemma StepNonzero(s: seq<bool>)
    requires IsRegister(s)
    ensures IsZero(Step(s)) <==> IsZero(s)
  {
    StepBackStep(s);
    var r := Step(s);
    if IsZero(r) {
      assert StepBack(r) == s;
      forall j | 0 <= j < Width ensures !s[j] {
        if j > 0 { assert s[j] == r[j - 1]; }
      }
    }
  }

  /** `k` raw steps. */
  function Advance(s: seq<bool>, k: nat): (r: seq<bool>)
    requires IsRegister(s)
    ensures IsRegister(r)
    decreases k
  {
    if k == 0 then s else Advance(Step(s), k - 1)
  }

  lemma {:induction false} AdvanceNonzero(s: seq<bool>, k: nat)
    requires IsRegister(s)
    ensures IsZero(Advance(s, k)) <==> IsZero(s)
    decreases k
  {
    if k > 0 {
      StepNonzero(s);
      AdvanceNonzero(Step(s), k - 1);
    }
  }

  lemma {:induction false} AdvanceAdd(s: seq<bool>, a: nat, b: nat)
    requires IsRegister(s)
    ensures Advance(s, a + b) == Advance(Advance(s, a), b)
    decreases a
  {
    if a > 0 {
      AdvanceAdd(Step(s), a - 1, b);
    }
  }

  lemma AdvanceTwo(s: seq<bool>)
    requires IsRegister(s)
    ensures Advance(s, 2) == Step(Step(s))
  {
    assert Advance(Step(s), 1) == Advance(Step(Step(s)), 0);
  }

  /** The register after seeding with all ones and discarding 160 raw
      outputs. */
  function Seeded(): (r: seq<bool>)
    ensures IsRegister(r) && !IsZero(r)
  {
    AdvanceNonzero(Ones(Width), WarmUp);
    assert Ones(Width)[0];
    Advance(Ones(Width), WarmUp)
  }

  /** The first bit of pair `k`: the choice bit. */
  function Choice(s: seq<bool>, k: nat): bool
    requires IsRegister(s)
  {
    Feedback(Advance(s, 2 * k))
  }

  /** The second bit of pair `k`: the candidate output. */
  function Candidate(s: seq<bool>, k: nat): bool
    requires IsRegister(s)
  {
    Feedback(Advance(s, 2 * k + 1))
  }

  /** The self-shrinking loop from register `s`: two raw steps per pass;
      the second bit is returned once the first is 1. */
  function Shrink(s: seq<bool>, fuel: nat): (r: Option<(bool, seq<bool>)>)
    requires IsRegister(s)
    ensures r.Some? ==> IsRegister(r.value.1)
    ensures r.Some? ==> (IsZero(r.value.1) <==> IsZero(s))
    decreases fuel
  {
    if fuel == 0 then None
    else
      var s1 := Step(s);
      var s2 := Step(s1);
      StepNonzero(s);
      StepNonzero(s1);
      if Feedback(s) then Some((Feedback(s1), s2))
      else Shrink(s2, fuel - 1)
  }

  /** `Shrink` returns the candidate of the first pair whose choice bit is 1,
      and leaves the register just after that pair. */
  lemma {:induction false} ShrinkFirstPair(s: seq<bool>, fuel: nat, k: nat)
    requires IsRegister(s) && k < fuel
    requires Choice(s, k) && forall j :: 0 <= j < k ==> !Choice(s, j)
    ensures Shrink(s, fuel) == Some((Candidate(s, k), Advance(s, 2 * k + 2)))
    decreases k
  {
    var s2 := Step(Step(s));
    AdvanceTwo(s);
    assert Advance(s, 1) == Step(s);
    if k == 0 {
    } else {
      assert !Choice(s, 0);
      forall j | 0 <= j < k - 1 ensures !Choice(s2, j) {
        AdvanceAdd(s, 2, 2 * j);
        assert !Choice(s, j + 1);
      }
      AdvanceAdd(s, 2, 2 * (k - 1));
      AdvanceAdd(s, 2, 2 * (k - 1) + 1);
      AdvanceAdd(s, 2, 2 * (k - 1) + 2);
      ShrinkFirstPair(s2, fuel - 1, k - 1);
    }
  }

  /** `Shrink` runs out of fuel exactly when none of the first `fuel` pairs
      has choice bit 1. */
  lemma {:induction false} ShrinkExhausted(s: seq<bool>, fuel: nat)
    requires IsRegister(s)
    ensures Shrink(s, fuel).None? <==> forall j :: 0 <= j < fuel ==> !Choice(s, j)
    decreases fuel
  {
    if fuel > 0 {
      var s2 := Step(Step(s));
      AdvanceTwo(s);
      ShrinkExhausted(s2, fuel - 1);
      forall j | 0 <= j < fuel - 1 ensures Choice(s2, j) == Choice(s, j + 1) {
        AdvanceAdd(s, 2, 2 * j);
      }
      assert Choice(s, 0) == Feedback(s);
      if Shrink(s, fuel).None? {
        forall j | 0 <= j < fuel ensures !Choice(s, j) {
          if j > 0 { assert Choice(s, j) == Choice(s2, j - 1); }
        }
      } else if !Feedback(s) {
        var j :| 0 <= j < fuel - 1 && Choice(s2, j);
        assert Choice(s, j + 1);
      }
    }
  }

  /** The register a draw starts from: the seeded register on first use. */
  function Start(g: Generator): (s: seq<bool>)
    requires Valid(g)
    ensures IsRegister(s) && !IsZero(s)
  {
    if g.Fresh? then Seeded() else g.reg
  }

  /** Every pair before `k` has choice bit 0 and pair `k` has choice bit 1. */
  predicate FirstChoice(s: seq<bool>, k: nat)
    requires IsRegister(s)
  {
    Choice(s, k) && forall j :: 0 <= j < k ==> !Choice(s, j)
  }

  /** `ShrinkFirstPair` for whichever pair is the first with choice bit 1. */
  lemma ShrinkFirstPairAny(s: seq<bool>, fuel: nat)
    requires IsRegister(s)
    ensures forall k :: 0 <= k < fuel && FirstChoice(s, k) ==>
      Shrink(s, fuel) == Some((Candidate(s, k), Advance(s, 2 * k + 2)))
  {
    forall k | 0 <= k < fuel && FirstChoice(s, k)
      ensures Shrink(s, fuel) == Some((Candidate(s, k), Advance(s, 2 * k + 2)))
    {
      ShrinkFirstPair(s, fuel, k);
    }
  }

  /** `getrandbit`: seed on first use, then one self-shrinking draw. It
      fails only when none of the first `fuel` pairs has choice bit 1, and
      otherwise returns the candidate of the first pair that has, with the
      register just after that pair. */
  function RandBit(g: Generator, fuel: nat): (r: Option<Draw<bool>>)
    requires Valid(g)
    ensures r.Some? ==> r.value.gen.Running? && Valid(r.value.gen)
    ensures r.None? <==> forall j :: 0 <= j < fuel ==> !Choice(Start(g), j)
    ensures forall k :: 0 <= k < fuel && FirstChoice(Start(g), k) ==>
      r == Some(Draw(Candidate(Start(g), k), Running(Advance(Start(g), 2 * k + 2))))
  {
    var s := Start(g);
    ShrinkExhausted(s, fuel);
    ShrinkFirstPairAny(s, fuel);
    match Shrink(s, fuel)
    case None => None
    case Some((b, s')) => Some(Draw(b, Running(s')))
  }

  /** `count` successive draws, first draw first: `getrandblock` with
      `count = blocksize`, `getrandkeyblock` with `count = keysize`. */
  function RandBits(g: Generator, count: nat, fuel: nat): (r: Option<Draw<seq<bool>>>)
    requires Valid(g)
    ensures r.Some? ==> |r.value.value| == count && Valid(r.value.gen)
    decreases count
  {
    if count == 0 then Some(Draw([], g))
    else
      match RandBit(g, fuel)
      case None => None
      case Some(Draw(b, g1)) =>
        match RandBits(g1, count - 1, fuel)
        case None => None
        case Some(Draw(bs, g2)) => Some(Draw([b] + bs, g2))
  }

  /** `rows` successive blocks of `cols` bits, as the retry loops of
      `instantiate_LowMC` fill a matrix. */
  function RandMatrix(g: Generator, rows: nat, cols: nat, fuel: nat): (r: Option<Draw<seq<seq<bool>>>>)
    requires Valid(g)
    ensures r.Some? ==> |r.value.value| == rows && Valid(r.value.gen)
    ensures r.Some? ==> forall i :: 0 <= i < rows ==> |r.value.value[i]| == cols
    decreases rows
  {
    if rows == 0 then Some(Draw([], g))
    else
      match RandBits(g, cols, fuel)
      case None => None
      case Some(Draw(row, g1)) =>
        match RandMatrix(g1, rows - 1, cols, fuel)
        case None => None
        case Some(Draw(rest, g2)) => Some(Draw([row] + rest, g2))
  }
}
