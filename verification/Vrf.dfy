/** The verifiable random function of crypto/vrf.go over any group whose elements all vanish when
    multiplied by N. Hashing and point compression are parameters. */
module Vrf {
  import opened Types
  import opened Modular

  /** The curve operations the source uses. `decode` is UnmarshalCompressed. */
  datatype Curve<!P(!new)> = Curve(
    add: (P, P) -> P, zero: P, base: P, order: nat,
    encode: P -> Bytes, decode: Bytes -> Option<P>)

  ghost predicate IsGroup<P(!new)>(c: Curve<P>) {
    && c.order > 0
    && (forall a, b, d :: c.add(c.add(a, b), d) == c.add(a, c.add(b, d)))
    && (forall a :: c.add(c.zero, a) == a && c.add(a, c.zero) == a)
    && (forall a :: Mul(c, c.order, a) == c.zero)
  }

  /** ScalarMult. */
  function Mul<P(!new)>(c: Curve<P>, k: nat, p: P): P {
    if k == 0 then c.zero else c.add(p, Mul(c, k - 1, p))
  }

  lemma {:induction false} MulSum<P(!new)>(c: Curve<P>, a: nat, b: nat, p: P)
    requires IsGroup(c)
    ensures Mul(c, a + b, p) == c.add(Mul(c, a, p), Mul(c, b, p))
  {
    if a > 0 {
      MulSum(c, a - 1, b, p);
      assert c.add(c.add(p, Mul(c, a - 1, p)), Mul(c, b, p)) == c.add(p, c.add(Mul(c, a - 1, p), Mul(c, b, p)));
    }
  }

  lemma MulOnce<P(!new)>(c: Curve<P>, p: P)
    requires IsGroup(c)
    ensures Mul(c, 0, p) == c.zero && Mul(c, 1, p) == p && Mul(c, 2, p) == c.add(p, p)
  {
  }

  lemma {:induction false} MulProduct<P(!new)>(c: Curve<P>, a: nat, b: nat, p: P)
    requires IsGroup(c)
    ensures a * b >= 0 && Mul(c, a * b, p) == Mul(c, a, Mul(c, b, p))
  {
    if a == 0 {
      assert a * b == 0;
    } else {
      MulProduct(c, a - 1, b, p);
      assert a * b == b + (a - 1) * b;
      MulSum(c, b, (a - 1) * b, p);
    }
  }

  lemma {:induction false} MulOfZero<P(!new)>(c: Curve<P>, k: nat)
    requires IsGroup(c)
    ensures Mul(c, k, c.zero) == c.zero
  {
    if k > 0 { MulOfZero(c, k - 1); }
  }

  lemma GroupLaws<P(!new)>(c: Curve<P>, p: P)
    requires IsGroup(c)
    ensures c.order > 0 && Mul(c, c.order, p) == c.zero && c.add(c.zero, p) == p
  {
  }

  /** Scalars count modulo the order. */
  lemma MulMod<P(!new)>(c: Curve<P>, k: nat, p: P)
    requires IsGroup(c)
    ensures c.order > 0 && Mul(c, k % c.order, p) == Mul(c, k, p)
  {
    hide IsGroup, Mul;
    GroupLaws(c, p);
    var q, r := k / c.order, k % c.order;
    assert k == q * c.order + r;
    MulProduct(c, q, c.order, p);
    MulOfZero(c, q);
    MulSum(c, q * c.order, r, p);
    GroupLaws(c, Mul(c, r, p));
  }

  /** With t = (r - s k) mod N, adding s times k p to t p gives back r p. */
  lemma ResponseCancels<P(!new)>(c: Curve<P>, p: P, k: nat, r: nat, s: nat, t: nat)
    requires IsGroup(c) && c.order > 0 && t == (r - s * k) % c.order
    ensures c.add(Mul(c, t, p), Mul(c, s, Mul(c, k, p))) == Mul(c, r, p)
  {
    hide IsGroup, Mul;
    MulProduct(c, s, k, p);
    var x: nat := s * k;
    MulSum(c, t, x, p);
    MulMod(c, t + x, p);
    MulMod(c, r, p);
    SumMod(r, x, c.order);
  }

  // ---------- the function ----------

  /** big.Int.SetBytes: big-endian. */
  function FromBytes(b: Bytes): nat {
    if b == [] then 0 else 256 * FromBytes(b[..|b| - 1]) + b[|b| - 1] as int
  }

  lemma LastByte(p: nat, x: byte, q: nat, y: byte)
    requires 256 * p + x as int == 256 * q + y as int
    ensures p == q && x == y
  {
  }

  lemma BigEndian(x: byte, b: Bytes)
    ensures FromBytes(b + [x]) == 256 * FromBytes(b) + x as int && FromBytes([x]) == x as int
  {
    assert (b + [x])[..|b|] == b;
  }

  /** Encodings of one length are told apart by the numbers they stand for. */
  lemma {:induction false} FromBytesInjective(a: Bytes, b: Bytes)
    requires |a| == |b| && FromBytes(a) == FromBytes(b)
    ensures a == b
  {
    if a != [] {
      var x, y := a[|a| - 1], b[|b| - 1];
      LastByte(FromBytes(a[..|a| - 1]), x, FromBytes(b[..|b| - 1]), y);
      FromBytesInjective(a[..|a| - 1], b[..|b| - 1]);
      assert a == a[..|a| - 1] + [x] && b == b[..|b| - 1] + [y];
    }
  }

  /** VRFCalculate with private key `key` and random number `r`; `hash` maps a message to the scalar
      its digest stands for. */
  method Calculate<P(!new)>(c: Curve<P>, hash: Bytes -> nat, msg: Bytes, key: nat, r: nat)
    returns (value: Bytes, s: nat, t: nat)
    requires c.order > 0
    ensures var m := Mul(c, hash(msg), c.base);
      && value == c.encode(Mul(c, key, m))
      && s == FromBytes(c.encode(Mul(c, r, m))) * FromBytes(c.encode(Mul(c, r, c.base))) % c.order
      && t == (r - s * key) % c.order
  {
    var m := Mul(c, hash(msg), c.base);
    var rm, ro, v := Mul(c, r, m), Mul(c, r, c.base), Mul(c, key, m);
    s := FromBytes(c.encode(rm));
    var o := FromBytes(c.encode(ro));
    s := s * o;
    s := s % c.order;
    var sk := s * key;
    var u := r - sk;
    t := u % c.order;
    value := c.encode(v);
  }

  /** VRFVerify against public key `public`. A value that decodes to no point is rejected; the source
      would go on with nil coordinates. */
  method Verify<P(!new)>(c: Curve<P>, hash: Bytes -> nat, public: P, msg: Bytes, s: nat, t: nat, value: Bytes)
    returns (ok: bool)
    requires c.order > 0
    ensures match c.decode(value)
      case None => !ok
      case Some(v) =>
        var m := Mul(c, hash(msg), c.base);
        var u1, u2 := c.add(Mul(c, t, m), Mul(c, s, v)), c.add(Mul(c, t, c.base), Mul(c, s, public));
        ok == (s == FromBytes(c.encode(u1)) * FromBytes(c.encode(u2)) % c.order)
  {
    var v := c.decode(value);
    if v.None? {
      return false;
    }
    var m := Mul(c, hash(msg), c.base);
    var tm, to, sv, sy := Mul(c, t, m), Mul(c, t, c.base), Mul(c, s, v.value), Mul(c, s, public);
    var u1, u2 := c.add(tm, sv), c.add(to, sy);
    var s1 := FromBytes(c.encode(u1));
    var o := FromBytes(c.encode(u2));
    s1 := s1 * o;
    s1 := s1 % c.order;
    ok := s == s1;
  }

  /** VRFCheckOutputConsensus: the digest, scaled to thousandths of 2^256, is not zero. */
  function Eligible(digest: nat): bool {
    digest * 1000 / TT256 > 0
  }

  const TT256 := 0x1_0000_0000_0000_0000 * 0x1_0000_0000_0000_0000 * 0x1_0000_0000_0000_0000 * 0x1_0000_0000_0000_0000

  lemma EligibleExactly(digest: nat)
    ensures Eligible(digest) <==>
      digest * 1000 >= 0x1_0000000000000000_0000000000000000_0000000000000000_0000000000000000
  {
  }

  /** Completeness: for every key, message point and random number, what the verifier recomputes from
      the owner's proof and public key is the owner's challenge. */
  lemma HonestProofVerifies<P(!new)>(c: Curve<P>, m: P, key: nat, r: nat, s: nat, t: nat)
    requires IsGroup(c) && c.order > 0 && t == (r - s * key) % c.order
    requires s == FromBytes(c.encode(Mul(c, r, m))) * FromBytes(c.encode(Mul(c, r, c.base))) % c.order
    ensures var u1 := c.add(Mul(c, t, m), Mul(c, s, Mul(c, key, m)));
      var u2 := c.add(Mul(c, t, c.base), Mul(c, s, Mul(c, key, c.base)));
      u1 == Mul(c, r, m) && u2 == Mul(c, r, c.base)
      && s == FromBytes(c.encode(u1)) * FromBytes(c.encode(u2)) % c.order
  {
    ResponseCancels(c, m, key, r, s, t);
    ResponseCancels(c, c.base, key, r, s, t);
  }

  /** Both points count: where the first encoding has an inverse, the challenges of two second points are
      equal exactly when their encodings are congruent. */
  lemma SecondPointCounts(e: nat, inverse: nat, x: nat, y: nat, n: nat)
    requires n > 0 && e * inverse % n == 1 % n
    ensures e * x % n == e * y % n <==> x % n == y % n
  {
    if e * x % n == e * y % n { Cancel(e, inverse, x, y, n); }
    if x % n == y % n { Congruent(e, x, e, y, n); }
  }

  /** So a proof that passes under one public key passes under another only if the second points they
      lead to have congruent encodings. */
  method VerifyUnderBoth<P(!new)>(c: Curve<P>, hash: Bytes -> nat, one: P, other: P, msg: Bytes, s: nat, t: nat,
        value: Bytes, ghost inverse: nat)
    returns (passesOne: bool, passesOther: bool)
    requires c.order > 0 && c.decode(value).Some?
    requires var u1 := c.add(Mul(c, t, Mul(c, hash(msg), c.base)), Mul(c, s, c.decode(value).value));
      FromBytes(c.encode(u1)) * inverse % c.order == 1 % c.order
    ensures var u, w := c.add(Mul(c, t, c.base), Mul(c, s, one)), c.add(Mul(c, t, c.base), Mul(c, s, other));
      passesOne ==> (passesOther <==> FromBytes(c.encode(u)) % c.order == FromBytes(c.encode(w)) % c.order)
  {
    hide Mul, FromBytes;
    passesOne := Verify(c, hash, one, msg, s, t, value);
    passesOther := Verify(c, hash, other, msg, s, t, value);
    ghost var u1 := c.add(Mul(c, t, Mul(c, hash(msg), c.base)), Mul(c, s, c.decode(value).value));
    ghost var u, w := c.add(Mul(c, t, c.base), Mul(c, s, one)), c.add(Mul(c, t, c.base), Mul(c, s, other));
    SecondPointCounts(FromBytes(c.encode(u1)), inverse, FromBytes(c.encode(u)), FromBytes(c.encode(w)), c.order);
  }

  /** VRFCheckLocalConsensus at the owner and VRFCheckRemoteConsensus at another node, provided the
      value survives compression: both find the owner eligible, or neither does. */
  method CheckHonest<P(!new)>(c: Curve<P>, hash: Bytes -> nat, digest: Bytes -> nat, msg: Bytes, key: nat, r: nat)
    returns (local: bool, remote: bool)
    requires IsGroup(c)
    requires var v := Mul(c, key, Mul(c, hash(msg), c.base)); c.decode(c.encode(v)) == Some(v)
    ensures remote == local == Eligible(digest(c.encode(Mul(c, key, Mul(c, hash(msg), c.base)))))
  {
    var value, s, t := Calculate(c, hash, msg, key, r);
    local := Eligible(digest(value));
    HonestProofVerifies(c, Mul(c, hash(msg), c.base), key, r, s, t);
    var verified := Verify(c, hash, Mul(c, key, c.base), msg, s, t, value);
    assert verified;
    remote := verified && Eligible(digest(value));
  }
}
