/** The verifiable delay function of crypto/calculator.go: repeated squaring with an online long
    division, and its verifier. big.Int values are unbounded integers here; seeds and proofs come
    from SetBytes, so they are never negative. */
module Vdf {
  import opened Types
  import opened Modular

  function Pow(x: nat, e: nat): (r: nat) {
    if e == 0 then 1 else x * Pow(x, e - 1)
  }

  // ---------- powers ----------

  lemma {:induction false} PowMod(x: nat, e: nat, n: nat)
    requires n > 0
    ensures Pow(x % n, e) % n == Pow(x, e) % n
  {
    if e > 0 {
      PowMod(x, e - 1, n);
      ModTwice(x, n);
      Congruent(x % n, Pow(x % n, e - 1), x, Pow(x, e - 1), n);
    }
  }

  lemma {:induction false} PowSum(x: nat, a: nat, b: nat)
    ensures Pow(x, a + b) == Pow(x, a) * Pow(x, b)
  {
    if a > 0 {
      PowSum(x, a - 1, b);
      assert x * (Pow(x, a - 1) * Pow(x, b)) == (x * Pow(x, a - 1)) * Pow(x, b);
    }
  }

  lemma {:induction false} PowProduct(x: nat, a: nat, b: nat)
    ensures a * b >= 0 && Pow(Pow(x, a), b) == Pow(x, a * b)
  {
    if b == 0 {
      assert a * b == 0;
    } else {
      PowProduct(x, a, b - 1);
      assert a * b == a + a * (b - 1);
      PowSum(x, a, a * (b - 1));
    }
  }

  // ---------- the function and its proof ----------

  /** What the verifier computes from a seed and a proof. */
  function Expected(seed: nat, pi: nat, l: nat, n: nat, t: nat): nat
    requires l > 0 && n > 0
  {
    Pow(pi, l) * Pow(seed, Pow(2, t) % l) % n
  }

  predicate Accepted(seed: nat, pi: nat, result: nat, l: nat, n: nat, t: nat)
    requires l > 0 && n > 0
  {
    result == Expected(seed, pi, l, n, t)
  }

  function Output(seed: nat, n: nat, t: nat): nat
    requires n > 0
  {
    Pow(seed, Pow(2, t)) % n
  }

  function Proof(seed: nat, l: nat, n: nat, t: nat): nat
    requires l > 0 && n > 0
  {
    Pow(seed, Pow(2, t) / l) % n
  }

  /** With the honest proof the verifier accepts the honest output and no other result. */
  lemma HonestProofAcceptsExactly(seed: nat, result: nat, l: nat, n: nat, t: nat)
    requires l > 0 && n > 0
    ensures Accepted(seed, Proof(seed, l, n, t), result, l, n, t) <==> result == Output(seed, n, t)
  {
    var e := Pow(2, t);
    var q, r := e / l, e % l;
    var g, h := Pow(seed, q), Pow(seed, r);
    PowMod(g, l, n);
    BothMod(Pow(g % n, l), h, n);
    BothMod(Pow(g, l), h, n);
    PowProduct(seed, q, l);
    PowSum(seed, q * l, r);
    assert q * l + r == e;
  }

  /** Nothing ties the proof to the seed beyond this equation: with proof 0, result 0 is accepted for
      every seed, and no other result. */
  lemma ZeroProofAcceptsZero(seed: nat, result: nat, l: nat, n: nat, t: nat)
    requires l > 0 && n > 0
    ensures Accepted(seed, 0, result, l, n, t) <==> result == 0
  {
    assert Pow(0, l) == 0 * Pow(0, l - 1) == 0;
    assert 0 * Pow(seed, Pow(2, t) % l) == 0;
  }

  /** Verify, assignment by assignment; big.Int.Exp(x, y, m) is Pow(x, y) % m. */
  method Verify(seed: nat, pi: nat, result: nat, l: nat, n: nat, t: nat) returns (ok: bool)
    requires l > 0 && n > 0
    ensures ok <==> result == Pow(pi, l) * Pow(seed, Pow(2, t) % l) % n
  {
    var r := Pow(2, t) % l;
    var h := Pow(pi, l) % n;
    var s := Pow(seed, r) % n;
    BothMod(Pow(pi, l), Pow(seed, r), n);
    h := h * s;
    h := h % n;
    ok := result == h;
  }

  // ---------- calculate ----------

  /** The long division: doubling the dividend doubles the remainder and adds its carry. */
  lemma DivisionStep(e: nat, l: nat, q: nat, r: nat)
    requires l > 0 && e == q * l + r
    ensures 2 * e == (2 * q + 2 * r / l) * l + 2 * r % l
  {
    var b, r' := 2 * r / l, 2 * r % l;
    assert 2 * r == b * l + r';
    assert (2 * q + b) * l == 2 * (q * l) + b * l;
  }

  /** pi^2 * g^b keeps pi a power of the seed. */
  lemma ProofStep(seed: nat, n: nat, q: nat, b: nat, pi: nat)
    requires n > 0 && pi % n == Pow(seed, q) % n
    ensures pi * pi * (Pow(seed, b) % n) % n == Pow(seed, 2 * q + b) % n
  {
    hide Pow;
    var p, g := Pow(seed, q), Pow(seed, b);
    PowSum(seed, q, q);
    PowSum(seed, 2 * q, b);
    SquareTimes(pi, p, g, n);
  }

  lemma SquareTimes(pi: nat, p: nat, g: nat, n: nat)
    requires n > 0 && pi % n == p % n
    ensures pi * pi * (g % n) % n == p * p * g % n
  {
    Congruent(pi, pi, p, p, n);
    ModTwice(g, n);
    Congruent(pi * pi, g % n, p * p, g, n);
  }

  lemma SquareStep(seed: nat, n: nat, e: nat, result: nat)
    requires n > 0 && result % n == Pow(seed, e) % n
    ensures result * result % n == Pow(seed, 2 * e) % n
  {
    hide Pow;
    PowSum(seed, e, e);
    Congruent(result, result, Pow(seed, e), Pow(seed, e), n);
  }

  /** What the loop keeps: `e` divided by `l` so far is `q`, remainder `rem`; the running output is
      seed^e and the running proof seed^q. */
  ghost predicate Halfway(seed: nat, l: nat, n: nat, e: nat, q: nat, rem: nat, result: nat, pi: nat)
    requires l > 0 && n > 0
  {
    e == q * l + rem && result % n == Pow(seed, e) % n && pi % n == Pow(seed, q) % n
  }

  lemma RoundKeeps(seed: nat, l: nat, n: nat, result: nat, pi: nat, rem: nat, e: nat, q: nat)
    requires l > 0 && n > 0 && Halfway(seed, l, n, e, q, rem, result, pi)
    ensures var b := 2 * rem / l;
      Halfway(seed, l, n, 2 * e, 2 * q + b, 2 * rem % l, result * result % n, pi * pi * (Pow(seed, b) % n) % n)
  {
    hide Pow;
    var b := 2 * rem / l;
    var result', pi', g := result * result % n, pi * pi * (Pow(seed, b) % n) % n, Pow(seed, b) % n;
    assert 2 * e == (2 * q + b) * l + 2 * rem % l by { DivisionStep(e, l, q, rem); }
    assert result' % n == Pow(seed, 2 * e) % n by {
      SquareStep(seed, n, e, result);
      ModTwice(result * result, n);
    }
    assert pi' % n == Pow(seed, 2 * q + b) % n by {
      ProofStep(seed, n, q, b, pi);
      ModTwice(pi * pi * g, n);
    }
  }

  /** One round of the loop. */
  method Round(seed: nat, l: nat, n: nat, result0: nat, pi0: nat, rem0: nat, ghost e: nat, ghost q0: nat)
    returns (result: nat, pi: nat, rem: nat, ghost q: nat)
    requires l > 0 && n > 0 && Halfway(seed, l, n, e, q0, rem0, result0, pi0)
    ensures Halfway(seed, l, n, 2 * e, q, rem, result, pi) && rem < l && result < n && pi < n
  {
    hide *;
    RoundKeeps(seed, l, n, result0, pi0, rem0, e, q0);
    result := result0 * result0;
    result := result % n;
    var tmp := 2 * rem0;
    var b := tmp / l;
    rem := tmp % l;
    pi := pi0 * pi0;
    pi := pi * (Pow(seed, b) % n);
    pi := pi % n;
    q := 2 * q0 + b;
  }

  lemma DivisionDone(seed: nat, l: nat, n: nat, t: nat, q: nat, rem: nat, result: nat, pi: nat)
    requires l > 0 && n > 0 && Halfway(seed, l, n, Pow(2, t), q, rem, result, pi) && rem < l && result < n && pi < n
    ensures result == Output(seed, n, t) && pi == Proof(seed, l, n, t)
  {
    hide Pow;
    assert Pow(2, t) / l == q by { UniqueRemainder(Pow(2, t), l, q, rem); }
    assert result % n == result && pi % n == pi by {
      SmallMod(result, n);
      SmallMod(pi, n);
    }
  }

  lemma OutputAndProof(seed: nat, l: nat, n: nat, t: nat)
    requires l > 0 && n > 0
    ensures Output(seed, n, t) == Pow(seed, Pow(2, t)) % n && Proof(seed, l, n, t) == Pow(seed, Pow(2, t) / l) % n
  {
  }

  /** calculate: `changed(k)` is what the loop reads from the shared flag before round `k`. It gives
      up exactly when it reads the flag set; otherwise, with at least one round, it returns the
      output and a proof the verifier accepts. Without a round both are left unreduced. */
  method Calculate(seed: nat, l: nat, n: nat, t: nat, changed: nat -> bool) returns (r: Option<(nat, nat)>)
    requires l > 0 && n > 0
    ensures r.None? <==> exists k :: 0 <= k < t && changed(k)
    ensures r.Some? && t > 0 ==> r.value == (Pow(seed, Pow(2, t)) % n, Pow(seed, Pow(2, t) / l) % n)
    ensures r.Some? && t > 0 ==> Accepted(seed, r.value.1, r.value.0, l, n, t)
    ensures t == 0 ==> r == Some((seed, 1))
  {
    hide Halfway, Output, Proof, Accepted;
    var pi: nat, rem: nat, result: nat := 1, 1, seed;
    ghost var q: nat := 0;
    assert Halfway(seed, l, n, Pow(2, 0), q, rem, result, pi) by { HalfwayAtStart(seed, l, n); }
    for round := 0 to t
      invariant forall k :: 0 <= k < round ==> !changed(k)
      invariant Halfway(seed, l, n, Pow(2, round), q, rem, result, pi)
      invariant round > 0 ==> rem < l && result < n && pi < n
      invariant round == 0 ==> result == seed && pi == 1
    {
      if changed(round) {
        return None;
      }
      result, pi, rem, q := Round(seed, l, n, result, pi, rem, Pow(2, round), q);
    }
    if t > 0 {
      DivisionDone(seed, l, n, t, q, rem, result, pi);
      OutputAndProof(seed, l, n, t);
      HonestProofAcceptsExactly(seed, result, l, n, t);
    }
    r := Some((result, pi));
  }

  lemma HalfwayAtStart(seed: nat, l: nat, n: nat)
    requires l > 0 && n > 0
    ensures Halfway(seed, l, n, Pow(2, 0), 0, 1, seed, 1)
  {
    assert Pow(seed, 1) == seed * Pow(seed, 0);
  }

  /** No round at all: what calculate returns verifies only if the seed is already reduced, or the
      proof parameter is 1 and the seed happens to be the unit. */
  lemma NoRoundsExactly(seed: nat, l: nat, n: nat)
    requires l > 0 && n > 0
    ensures Accepted(seed, 1, seed, l, n, 0) <==> if l == 1 then seed == 1 % n else seed < n
  {
    PowOfOne(l);
    assert Pow(seed, 1) == seed * Pow(seed, 0);
    if l > 1 {
      assert Pow(2, 0) % l == 1;
    }
  }

  lemma {:induction false} PowOfOne(e: nat)
    ensures Pow(1, e) == 1
  {
    if e > 0 { PowOfOne(e - 1); }
  }
}
