/** Remainders: the arithmetic modulo n that the verifiable functions need. */
module Modular {
  lemma SumMod(r: int, x: int, n: int)
    requires n > 0
    ensures ((r - x) % n + x) % n == r % n
  {
    var d, q := r - x, (r - x) / n;
    assert d == q * n + d % n;
    assert d % n + x == r - q * n;
    AddMultiple(r - q * n, q, n);
  }

  lemma AddMultiple(x: int, q: int, n: int)
    requires n > 0
    ensures (x + q * n) % n == x % n
  {
    var a, b := x + q * n, x;
    assert a == (a / n) * n + a % n && b == (b / n) * n + b % n;
    var d := a / n - b / n - q;
    assert d * n == b % n - a % n;
    Multiple(d, n);
  }

  lemma MulMod(a: nat, b: nat, n: nat)
    requires n > 0
    ensures (a % n) * b % n == a * b % n
  {
    var q := a / n;
    assert a == q * n + a % n;
    var m := (a % n) * b;
    assert a * b == (q * b) * n + m by {
      calc {
        a * b;
        (q * n + a % n) * b;
        (q * n) * b + m;
        (q * b) * n + m;
      }
    }
    AddMultiple(m, q * b, n);
  }

  lemma Multiple(d: int, n: int)
    requires n > 0
    ensures d >= 1 ==> d * n >= n
    ensures d <= -1 ==> d * n <= 0 - n
  {
  }

  lemma UniqueRemainder(x: nat, n: nat, q: nat, r: nat)
    requires n > 0 && r < n && x == q * n + r
    ensures x % n == r && x / n == q
  {
    var d := x / n - q;
    assert x == (x / n) * n + x % n;
    assert d * n == r - x % n by { assert d * n == (x / n) * n - q * n; }
    Multiple(d, n);
  }

  lemma BothMod(a: nat, b: nat, n: nat)
    requires n > 0
    ensures (a % n) * (b % n) % n == a * b % n
  {
    MulMod(a, b % n, n);
    MulMod(b, a, n);
    assert a * (b % n) == (b % n) * a && a * b == b * a;
  }

  /** Equal remainders multiply to equal remainders. */
  lemma Congruent(a: nat, b: nat, c: nat, d: nat, n: nat)
    requires n > 0 && a % n == c % n && b % n == d % n
    ensures a * b % n == c * d % n
  {
    BothMod(a, b, n);
    BothMod(c, d, n);
  }

  lemma ModTwice(a: nat, n: nat)
    requires n > 0
    ensures a % n % n == a % n
  {
  }

  lemma SmallMod(x: nat, n: nat)
    requires x < n
    ensures x % n == x
  {
  }

  /** A factor with an inverse cancels. */
  lemma Cancel(e: nat, inverse: nat, x: nat, y: nat, n: nat)
    requires n > 0 && e * inverse % n == 1 % n && e * x % n == e * y % n
    ensures x % n == y % n
  {
    Undo(e, inverse, x, n);
    Undo(e, inverse, y, n);
    Congruent(inverse, e * x, inverse, e * y, n);
  }

  lemma Undo(e: nat, inverse: nat, x: nat, n: nat)
    requires n > 0 && e * inverse % n == 1 % n
    ensures inverse * (e * x) % n == x % n
  {
    Congruent(e * inverse, x, 1, x, n);
    assert inverse * (e * x) == e * inverse * x;
  }
}
