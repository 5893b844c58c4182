/**
  Emulated gates of MPC-in-the-head (`emulate_and`, `emulate_xor`,
  `emulate_or`, `emulate_not`, `emulate_id`).

  Each gate maps the parties' shares of its inputs to shares of its output.
  AND and OR also return every party's view: the triple shares and input
  shares it held, followed by the masked values all parties broadcast.
  Share vectors are party-indexed as in `Sharing`.
 */
module Gates {
  import opened Bits
  import opened Sharing

  /** `[]` for the linear gates; one view per party for AND and OR. */
  datatype Views = NoViews | PartyViews(views: seq<seq<bool>>)

  /** The output shares of a gate and the views it exposes. */
  datatype Emulated = Emulated(shares: seq<bool>, views: Views)

  /** Every bit of `v` ANDed with `b`. */
  function Scale(v: seq<bool>, b: bool): (r: seq<bool>)
    ensures |r| == |v| && forall i :: 0 <= i < |v| ==> r[i] == (v[i] && b)
  {
    seq(|v|, i requires 0 <= i < |v| => v[i] && b)
  }

  lemma {:induction false} ParityScale(v: seq<bool>, b: bool)
    ensures Parity(Scale(v, b)) == (Parity(v) && b)
    decreases |v|
  {
    if |v| > 0 {
      var k := |v| - 1;
      assert Scale(v, b)[..k] == Scale(v[..k], b);
      ParityScale(v[..k], b);
    }
  }

  /** `stage_one`: party `i` masks its input shares with its triple shares. */
  function StageOne(xi: bool, yi: bool, ai: bool, bi: bool): (de: (bool, bool))
    ensures Xor(de.0, ai) == xi && Xor(de.1, bi) == yi
  {
    (Xor(xi, ai), Xor(yi, bi))
  }

  /** `stage_two`: party `i`'s output share from the opened `d` and `e`; the
      `d & e` term is added when `first` holds. */
  function StageTwo(xi: bool, yi: bool, d: bool, e: bool, ci: bool, first: bool): (zi: bool)
    ensures first && ci == (Xor(xi, d) && Xor(yi, e)) ==> zi == (xi && yi)
    ensures Xor(zi, Xor(Xor(ci, xi && e), yi && d)) == (first && d && e)
  {
    Xor(Xor(Xor(ci, xi && e), yi && d), first && d && e)
  }

  /** All parties' `stage_two` outputs, party `i` adding the correction when
      `flags[i]` holds. */
  function Combine(xs: seq<bool>, ys: seq<bool>, cs: seq<bool>, d: bool, e: bool, flags: seq<bool>): (zs: seq<bool>)
    requires |xs| == |ys| == |cs| == |flags|
    ensures |zs| == |xs|
  {
    seq(|xs|, i requires 0 <= i < |xs| => StageTwo(xs[i], ys[i], d, e, cs[i], flags[i]))
  }

  /** The combined shares open to `c ^ x&e ^ y&d`, plus `d & e` once for
      every party that added it. */
  lemma {:induction false} CombineOpens(xs: seq<bool>, ys: seq<bool>, cs: seq<bool>, d: bool, e: bool, flags: seq<bool>)
    requires |xs| == |ys| == |cs| == |flags|
    ensures Parity(Combine(xs, ys, cs, d, e, flags))
      == Xor(Xor(Xor(Parity(cs), Parity(xs) && e), Parity(ys) && d), Parity(flags) && d && e)
  {
    var s1 := XorBlock(cs, Scale(xs, e));
    var s2 := XorBlock(s1, Scale(ys, d));
    var s3 := XorBlock(s2, Scale(flags, d && e));
    assert Combine(xs, ys, cs, d, e, flags) == s3;
    ParityOfXor(cs, Scale(xs, e));
    ParityOfXor(s1, Scale(ys, d));
    ParityOfXor(s2, Scale(flags, d && e));
    ParityScale(xs, e);
    ParityScale(ys, d);
    ParityScale(flags, d && e);
  }

  /** A vector of `n >= 1` shares opens to its parity. */
  lemma ReconstructAll(v: seq<bool>, n: nat)
    requires 1 <= n && |v| == n
    ensures Reconstruct(v, n) == Parity(v)
  {
    assert v[..Parties(n)] == v;
  }

  /** The shares broadcast in stage one: `d_i` for every party. */
  function Masked(xs: seq<bool>, as_: seq<bool>): (ds: seq<bool>)
    requires |xs| <= |as_|
    ensures |ds| == |xs| && forall i :: 0 <= i < |xs| ==> Xor(ds[i], as_[i]) == xs[i]
  {
    seq(|xs|, i requires 0 <= i < |xs| => StageOne(xs[i], false, as_[i], false).0)
  }

  /** One party's view: its triple and input shares, then every `d` and
      every `e`. */
  function PartyView(t: Triple, xi: bool, yi: bool, ds: seq<bool>, es: seq<bool>): (v: seq<bool>)
    ensures |v| == 5 + |ds| + |es|
  {
    [t.a, t.b, t.c, xi, yi] + ds + es
  }

  /** `emulate_and`: stage one for every party, then stage two with the
      opened `d` and `e`, party 1 alone adding `d & e`; party `i`'s view is
      `[a_i, b_i, c_i, x_i, y_i]` followed by all `d`s and all `e`s. */
  function EmulateAnd(xs: seq<bool>, ys: seq<bool>, abc: seq<Triple>, n: nat): (r: Emulated)
    requires |xs| == |ys| == n && n <= |abc|
    ensures |r.shares| == n && r.views.PartyViews? && |r.views.views| == n
    ensures r.views.views == AndViews(xs, ys, abc, Masked(xs, As(abc)), Masked(ys, Bs(abc)))
    ensures forall i :: 0 <= i < n ==> ShowsAndInputs(r.views.views[i], i, xs, ys, abc)
  {
    if n == 0 then Emulated([], PartyViews([]))
    else
      var ds := Masked(xs, As(abc));
      var es := Masked(ys, Bs(abc));
      AllViewsContents(xs, ys, abc);
      var d := Reconstruct(ds, n);
      var e := Reconstruct(es, n);
      var zs := Combine(xs, ys, Cs(abc)[..n], d, e, Unit(n, 0));
      Emulated(zs, PartyViews(AndViews(xs, ys, abc, ds, es)))
  }

  /** Every party's view of one AND gate. */
  function AndViews(xs: seq<bool>, ys: seq<bool>, abc: seq<Triple>, ds: seq<bool>, es: seq<bool>): (views: seq<seq<bool>>)
    requires |xs| == |ys| <= |abc|
    ensures |views| == |xs|
    ensures forall i :: 0 <= i < |xs| ==> views[i] == PartyView(abc[i], xs[i], ys[i], ds, es)
    ensures forall i :: 0 <= i < |xs| ==>
      && |views[i]| == 5 + |ds| + |es|
      && views[i][..5] == [abc[i].a, abc[i].b, abc[i].c, xs[i], ys[i]]
      && views[i][5..5 + |ds|] == ds
      && views[i][5 + |ds|..] == es
  {
    seq(|xs|, i requires 0 <= i < |xs| => PartyView(abc[i], xs[i], ys[i], ds, es))
  }

  /** Party `i`'s view of an AND gate holds `5 + 2n` bits: its own triple
      and input shares, then every party's `d_j = x_j ^ a_j`, then every
      `e_j = y_j ^ b_j`, so unmasking with party `j`'s triple gives back
      party `j`'s input shares. */
  predicate ShowsAndInputs(v: seq<bool>, i: nat, xs: seq<bool>, ys: seq<bool>, abc: seq<Triple>)
    requires |xs| == |ys| <= |abc| && i < |xs|
  {
    && |v| == 5 + 2 * |xs|
    && v[..5] == [abc[i].a, abc[i].b, abc[i].c, xs[i], ys[i]]
    && forall j :: 0 <= j < |xs| ==> Xor(v[5 + j], abc[j].a) == xs[j] && Xor(v[5 + |xs| + j], abc[j].b) == ys[j]
  }

  lemma AndViewsContents(xs: seq<bool>, ys: seq<bool>, abc: seq<Triple>, i: nat)
    requires |xs| == |ys| <= |abc| && i < |xs|
    ensures ShowsAndInputs(AndViews(xs, ys, abc, Masked(xs, As(abc)), Masked(ys, Bs(abc)))[i], i, xs, ys, abc)
  {
    PartyViewOpens(abc[i], xs[i], ys[i], xs, ys, abc);
  }

  /** `AndViewsContents` for every party at once. */
  lemma AllViewsContents(xs: seq<bool>, ys: seq<bool>, abc: seq<Triple>)
    requires |xs| == |ys| <= |abc|
    ensures var vs := AndViews(xs, ys, abc, Masked(xs, As(abc)), Masked(ys, Bs(abc)));
      forall i :: 0 <= i < |xs| ==> ShowsAndInputs(vs[i], i, xs, ys, abc)
  {
    forall i | 0 <= i < |xs| {
      AndViewsContents(xs, ys, abc, i);
    }
  }

  /** Past its own five bits, a view holds the masked shares of every party. */
  lemma PartyViewOpens(t: Triple, xi: bool, yi: bool, xs: seq<bool>, ys: seq<bool>, abc: seq<Triple>)
    requires |xs| == |ys| <= |abc|
    ensures var v := PartyView(t, xi, yi, Masked(xs, As(abc)), Masked(ys, Bs(abc)));
      forall j :: 0 <= j < |xs| ==> Xor(v[5 + j], abc[j].a) == xs[j] && Xor(v[5 + |xs| + j], abc[j].b) == ys[j]
  {
    var ds := Masked(xs, As(abc));
    var es := Masked(ys, Bs(abc));
    var v := PartyView(t, xi, yi, ds, es);
    forall j | 0 <= j < |xs|
      ensures Xor(v[5 + j], abc[j].a) == xs[j] && Xor(v[5 + |xs| + j], abc[j].b) == ys[j]
    {
      assert v[5 + j] == ds[j];
      assert v[5 + |xs| + j] == es[j];
    }
  }

  /** Party 1's correction is applied exactly once, so it is counted an odd
      number of times. */
  lemma ParityFirstOnly(n: nat)
    requires 1 <= n
    ensures Parity(Unit(n, 0))
  {
    assert Unit(n, 0) == [true] + Zeros(n - 1);
    ParityCons(true, Zeros(n - 1));
    assert Zeros(n - 1) == Scale(Zeros(n - 1), false);
    ParityScale(Zeros(n - 1), false);
  }

  /** The Beaver identity: with a valid triple the output shares open to the
      AND of the opened inputs, whatever the individual shares. */
  lemma EmulateAndCorrect(xs: seq<bool>, ys: seq<bool>, abc: seq<Triple>, n: nat)
    requires 1 <= n && |xs| == |ys| == n && n <= |abc| && ValidTriple(abc, n)
    ensures Reconstruct(EmulateAnd(xs, ys, abc, n).shares, n)
      == (Reconstruct(xs, n) && Reconstruct(ys, n))
  {
    var as_ := As(abc)[..n];
    var bs := Bs(abc)[..n];
    var cs := Cs(abc)[..n];
    var ds := Masked(xs, As(abc));
    var es := Masked(ys, Bs(abc));
    assert ds == XorBlock(xs, as_);
    assert es == XorBlock(ys, bs);
    ReconstructAll(xs, n);
    ReconstructAll(ys, n);
    ReconstructAll(ds, n);
    ReconstructAll(es, n);
    ReconstructAll(as_, n);
    ReconstructAll(bs, n);
    ReconstructAll(cs, n);
    ParityOfXor(xs, as_);
    ParityOfXor(ys, bs);
    assert As(abc)[..Parties(n)] == as_ && Bs(abc)[..Parties(n)] == bs && Cs(abc)[..Parties(n)] == cs;
    var d := Parity(ds);
    var e := Parity(es);
    CombineOpens(xs, ys, cs, d, e, Unit(n, 0));
    ParityFirstOnly(n);
    ReconstructAll(EmulateAnd(xs, ys, abc, n).shares, n);
  }

  /** Without the correction every party would open to `x & y ^ d & e`; with
      it on every party, the result depends on the parity of `n`. */
  lemma {:induction false} CorrectionCount(xs: seq<bool>, ys: seq<bool>, cs: seq<bool>, d: bool, e: bool, flags: seq<bool>)
    requires |xs| == |ys| == |cs| == |flags|
    requires Parity(cs) == ((Parity(xs) != d) && (Parity(ys) != e))
    ensures Parity(Combine(xs, ys, cs, d, e, flags))
      == Xor(Parity(xs) && Parity(ys), (d && e) && !Parity(flags))
  {
    CombineOpens(xs, ys, cs, d, e, flags);
  }

  /** `emulate_xor`: each party XORs its two shares; no views. */
  function EmulateXor(xs: seq<bool>, ys: seq<bool>, n: nat): (r: Emulated)
    requires |xs| == |ys| == n
    ensures |r.shares| == n && r.views == NoViews
  {
    Emulated(XorBlock(xs, ys), NoViews)
  }

  lemma EmulateXorCorrect(xs: seq<bool>, ys: seq<bool>, n: nat)
    requires 1 <= n && |xs| == |ys| == n
    ensures Reconstruct(EmulateXor(xs, ys, n).shares, n) == Xor(Reconstruct(xs, n), Reconstruct(ys, n))
  {
    ReconstructXor(xs, ys, n);
  }

  /** `emulate_or`: `x ^ (y ^ (x & y))`, returning the AND's views. */
  function EmulateOr(xs: seq<bool>, ys: seq<bool>, abc: seq<Triple>, n: nat): (r: Emulated)
    requires |xs| == |ys| == n && n <= |abc|
    ensures |r.shares| == n && r.views == EmulateAnd(xs, ys, abc, n).views
  {
    var xy := EmulateAnd(xs, ys, abc, n);
    var ws := EmulateXor(ys, xy.shares, n);
    var zs := EmulateXor(xs, ws.shares, n);
    Emulated(zs.shares, xy.views)
  }

  lemma EmulateOrCorrect(xs: seq<bool>, ys: seq<bool>, abc: seq<Triple>, n: nat)
    requires 1 <= n && |xs| == |ys| == n && n <= |abc| && ValidTriple(abc, n)
    ensures Reconstruct(EmulateOr(xs, ys, abc, n).shares, n) == (Reconstruct(xs, n) || Reconstruct(ys, n))
  {
    var xy := EmulateAnd(xs, ys, abc, n);
    EmulateAndCorrect(xs, ys, abc, n);
    var ws := EmulateXor(ys, xy.shares, n);
    EmulateXorCorrect(ys, xy.shares, n);
    EmulateXorCorrect(xs, ws.shares, n);
  }

  /** `emulate_not`: every party complements its share; no views. */
  function EmulateNot(xs: seq<bool>, n: nat): (r: Emulated)
    requires |xs| == n
    ensures |r.shares| == n && r.views == NoViews
    ensures forall i :: 0 <= i < n ==> r.shares[i] != xs[i]
  {
    Emulated(seq(n, i requires 0 <= i < n => !xs[i]), NoViews)
  }

  /** With every share complemented, the opened value flips once per party:
      it is the negation only for an odd number of parties. */
  lemma EmulateNotOpens(xs: seq<bool>, n: nat)
    requires 1 <= n && |xs| == n
    ensures Reconstruct(EmulateNot(xs, n).shares, n) == Xor(Reconstruct(xs, n), n % 2 == 1)
  {
    var zs := EmulateNot(xs, n).shares;
    assert zs == XorBlock(xs, Ones(n));
    ParityOfXor(xs, Ones(n));
    OnesParity(n);
    ReconstructAll(xs, n);
    ReconstructAll(zs, n);
  }

  lemma {:induction false} OnesParity(n: nat)
    ensures Parity(Ones(n)) == (n % 2 == 1)
  {
    if n > 0 {
      assert Ones(n)[..n - 1] == Ones(n - 1);
      OnesParity(n - 1);
    }
  }

  /** `emulate_id`: the shares pass through untouched; no views. */
  function EmulateId(xs: seq<bool>, n: nat): (r: Emulated)
    ensures r.shares == xs && r.views == NoViews
  {
    Emulated(xs, NoViews)
  }
}
