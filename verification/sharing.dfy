/**
  XOR secret sharing and Beaver triples (`share`, `reconstruct`,
  `generate_triple`).

  The Python share list has an unused slot 0 and party `i` at slot `i`;
  here a share vector is a `seq<bool>` with party `i` at index `i - 1`.
  Random bits come from an explicit stream: each draw takes the next bit,
  and every function returns the stream it leaves over.
 */
module Sharing {
  import opened Wrappers
  import opened Bits

  /** A value together with the random stream left after drawing it. */
  datatype Drawn<T> = Drawn(value: T, rest: seq<bool>)

  function Max(a: nat, b: nat): nat {
    if a <= b then b else a
  }

  /** Fresh bits `share` draws: one for each of the parties 2..n. */
  function Draws(n: nat): nat {
    Max(n, 1) - 1
  }

  /** Share slots `share` fills: parties 1..n, and party 1 even when n = 0. */
  function Parties(n: nat): nat {
    Max(n, 1)
  }

  /** `reconstruct`: party 1's share XORed with those of parties 2..n. */
  function Reconstruct(shares: seq<bool>, n: nat): (secret: bool)
    requires Parties(n) <= |shares|
    ensures secret == Xor(shares[0], Parity(shares[1..Parties(n)]))
  {
    ParityCons(shares[0], shares[1..Parties(n)]);
    assert [shares[0]] + shares[1..Parties(n)] == shares[..Parties(n)];
    Parity(shares[..Parties(n)])
  }

  /** The secret is set exactly when an odd number of the parties' shares
      are. */
  lemma ReconstructOddCount(shares: seq<bool>, n: nat)
    requires Parties(n) <= |shares|
    ensures Reconstruct(shares, n) <==> Count(shares[..Parties(n)]) % 2 == 1
  {
    ParityIsOddCount(shares[..Parties(n)]);
  }

  /** `share`: parties 2..n receive the next random bits in order; party 1
      starts from the secret and absorbs each of them by XOR. */
  function Share(secret: bool, n: nat, rand: seq<bool>): (r: Drawn<seq<bool>>)
    requires Draws(n) <= |rand|
    ensures |r.value| == Parties(n)
    ensures r.value[1..] == rand[..Draws(n)] && r.rest == rand[Draws(n)..]
    ensures Reconstruct(r.value, n) == secret
  {
    var drawn := rand[..Draws(n)];
    var first := Parity([secret] + drawn);
    ParityCons(secret, drawn);
    ParityCons(first, drawn);
    assert ([first] + drawn)[..Parties(n)] == [first] + drawn;
    Drawn([first] + drawn, rand[Draws(n)..])
  }

  /** Party 1's share is the secret XORed with everything drawn, so any
      change of the secret shows only in party 1's share. */
  lemma ShareFirstParty(secret: bool, n: nat, rand: seq<bool>)
    requires Draws(n) <= |rand|
    ensures Share(secret, n, rand).value[0] == (secret != Parity(rand[..Draws(n)]))
    ensures Share(!secret, n, rand).value[1..] == Share(secret, n, rand).value[1..]
  {
    ParityCons(secret, rand[..Draws(n)]);
  }

  /** Reconstruction is XOR-linear in the share vectors. */
  lemma ReconstructXor(xs: seq<bool>, ys: seq<bool>, n: nat)
    requires Parties(n) <= |xs| && |xs| == |ys|
    ensures Reconstruct(XorBlock(xs, ys), n) == (Reconstruct(xs, n) != Reconstruct(ys, n))
  {
    var m := Parties(n);
    assert XorBlock(xs, ys)[..m] == XorBlock(xs[..m], ys[..m]);
    ParityOfXor(xs[..m], ys[..m]);
  }

  // ---------------------------------------------------------------------
  // Beaver triples
  // ---------------------------------------------------------------------

  /** One party's shares of `a`, `b` and `c`. */
  datatype Triple = Triple(a: bool, b: bool, c: bool)

  function As(abc: seq<Triple>): (r: seq<bool>)
    ensures |r| == |abc| && forall i :: 0 <= i < |abc| ==> r[i] == abc[i].a
  {
    seq(|abc|, i requires 0 <= i < |abc| => abc[i].a)
  }

  function Bs(abc: seq<Triple>): (r: seq<bool>)
    ensures |r| == |abc| && forall i :: 0 <= i < |abc| ==> r[i] == abc[i].b
  {
    seq(|abc|, i requires 0 <= i < |abc| => abc[i].b)
  }

  function Cs(abc: seq<Triple>): (r: seq<bool>)
    ensures |r| == |abc| && forall i :: 0 <= i < |abc| ==> r[i] == abc[i].c
  {
    seq(|abc|, i requires 0 <= i < |abc| => abc[i].c)
  }

  /** The shares of `c` reconstruct to the AND of those of `a` and `b`. */
  predicate ValidTriple(abc: seq<Triple>, n: nat) {
    Parties(n) <= |abc|
    && Reconstruct(Cs(abc), n) == (Reconstruct(As(abc), n) && Reconstruct(Bs(abc), n))
  }

  /** `zip(share(a), share(b), share(c))` without the `(None, None, None)`
      of slot 0. */
  function Zip(as_: seq<bool>, bs: seq<bool>, cs: seq<bool>): (r: seq<Triple>)
    requires |as_| == |bs| == |cs|
    ensures As(r) == as_ && Bs(r) == bs && Cs(r) == cs
  {
    seq(|as_|, i requires 0 <= i < |as_| => Triple(as_[i], bs[i], cs[i]))
  }

  /** Bits drawn to settle one of `generate_triple`'s arguments: none for a
      supplied 1, one otherwise. */
  function Redraws(given: Option<bool>): nat {
    if given == Some(true) then 0 else 1
  }

  /** `_a = randbits(1) if not _a else _a`: a missing or zero argument is
      replaced by the next random bit. */
  function Choose(given: Option<bool>, rand: seq<bool>): (r: Drawn<bool>)
    requires 1 <= |rand|
    ensures given == Some(true) ==> r == Drawn(true, rand)
    ensures given != Some(true) ==> r == Drawn(rand[0], rand[1..])
    ensures r.value == (given == Some(true) || rand[0]) && r.rest == rand[Redraws(given)..]
  {
    if given == Some(true) then Drawn(true, rand) else Drawn(rand[0], rand[1..])
  }

  lemma DropTwice(s: seq<bool>, i: nat, j: nat)
    requires i + j <= |s|
    ensures s[i..][j..] == s[i + j..]
  {
  }

  /** Random bits `generate_triple` may consume. */
  function TripleDraws(n: nat): nat {
    2 + 3 * Draws(n)
  }

  /** The three `share` calls of `generate_triple`, zipped per party. */
  function ShareTriple(a: bool, b: bool, c: bool, n: nat, rand: seq<bool>): (r: Drawn<seq<Triple>>)
    requires 3 * Draws(n) <= |rand|
    ensures |r.value| == Parties(n)
    ensures Reconstruct(As(r.value), n) == a && Reconstruct(Bs(r.value), n) == b
    ensures Reconstruct(Cs(r.value), n) == c
    ensures r.rest == rand[3 * Draws(n)..]
  {
    var m := Draws(n);
    var sa := Share(a, n, rand);
    var sb := Share(b, n, sa.rest);
    var sc := Share(c, n, sb.rest);
    DropTwice(rand, m, m);
    DropTwice(rand, 2 * m, m);
    Drawn(Zip(sa.value, sb.value, sc.value), sc.rest)
  }

  /** The first lines of `generate_triple`: settle `a`, then `b`, from the
      front of the stream; the last component counts the bits drawn. */
  function Settle(a: Option<bool>, b: Option<bool>, rand: seq<bool>): (r: (bool, bool, nat))
    requires 2 <= |rand|
    ensures r.0 == (a == Some(true) || rand[0])
    ensures r.1 == (b == Some(true) || (if a == Some(true) then rand[0] else rand[1]))
    ensures r.2 == Redraws(a) + Redraws(b) <= 2
  {
    var da := Choose(a, rand);
    var db := Choose(b, da.rest);
    (da.value, db.value, Redraws(a) + Redraws(b))
  }

  /** `generate_triple`: settle `a` and `b`, set `c = a & b`, then share
      `a`, `b` and `c` in that order. A supplied 1 is kept; a supplied 0
      counts as absent and is replaced by a draw. */
  function GenerateTriple(n: nat, a: Option<bool>, b: Option<bool>, rand: seq<bool>): (r: Drawn<seq<Triple>>)
    requires TripleDraws(n) <= |rand|
    ensures |r.value| == Parties(n) && ValidTriple(r.value, n)
    ensures Reconstruct(As(r.value), n) == (a == Some(true) || rand[0])
    ensures Reconstruct(Bs(r.value), n)
      == (b == Some(true) || (if a == Some(true) then rand[0] else rand[1]))
    ensures r.rest == rand[Redraws(a) + Redraws(b) + 3 * Draws(n)..]
  {
    var s := Settle(a, b, rand);
    var t := ShareTriple(s.0, s.1, s.0 && s.1, n, rand[s.2..]);
    assert |t.value| == Parties(n) && ValidTriple(t.value, n);
    assert Reconstruct(As(t.value), n) == (a == Some(true) || rand[0]);
    assert Reconstruct(Bs(t.value), n) == (b == Some(true) || (if a == Some(true) then rand[0] else rand[1]));
    DropTwice(rand, s.2, 3 * Draws(n));
    assert t.rest == rand[s.2 + 3 * Draws(n)..];
    t
  }
}
