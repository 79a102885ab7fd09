/** The database key encodings of utils/dbtools.go: five families of keys in one key space. */
module DbKeys {
  import opened Types

  function Ascii(s: string): (r: Bytes)
    requires forall i :: 0 <= i < |s| ==> s[i] < 128 as char
    ensures |r| == |s|
  {
    seq(|s|, i requires 0 <= i < |s| => s[i] as int as byte)
  }

  const BLOCK: Bytes := Ascii("block#")
  const TX: Bytes := Ascii("tx#")
  const DATA: Bytes := Ascii("data#")
  const LATEST: Bytes := Ascii("latest")
  const SHARP: byte := 35
  const MINUS: byte := 45

  /** strconv.FormatInt(n, 10) of a natural number. */
  function Digits(n: nat): (r: Bytes)
    ensures |r| > 0 && forall i :: 0 <= i < |r| ==> 48 <= r[i] <= 57
  {
    if n < 10 then [(48 + n) as byte] else Digits(n / 10) + [(48 + n % 10) as byte]
  }

  function FormatInt(x: int): Bytes {
    if x < 0 then [MINUS] + Digits(-x) else Digits(x)
  }

  function HexDigit(n: nat): byte
    requires n < 16
  {
    if n < 10 then (48 + n) as byte else (87 + n) as byte
  }

  function Hex(b: Bytes): (r: Bytes)
    ensures |r| == 2 * |b|
  {
    if b == [] then []
    else Hex(b[..|b| - 1]) + [HexDigit(b[|b| - 1] as int / 16), HexDigit(b[|b| - 1] as int % 16)]
  }

  function BlockHashKey(h: Hash): (k: Bytes) {
    BLOCK + h.bytes
  }

  function BlockHeightKey(height: int): (k: Bytes) {
    BLOCK + FormatInt(height)
  }

  function TxHashKey(h: Hash): (k: Bytes) {
    TX + h.bytes
  }

  function DataKey(address: Bytes, key: Bytes): (k: Bytes) {
    DATA + Hex(address) + [SHARP] + key
  }

  // ---------- decimal numbers ----------

  function Parse(d: Bytes): int {
    if d == [] then 0 else 10 * Parse(d[..|d| - 1]) + d[|d| - 1] as int - 48
  }

  lemma {:induction false} ParseDigits(n: nat)
    ensures Parse(Digits(n)) == n
  {
    if n >= 10 {
      ParseDigits(n / 10);
      assert Digits(n)[..|Digits(n)| - 1] == Digits(n / 10);
    }
  }

  lemma SignOfFormat(x: int)
    ensures |FormatInt(x)| > 0 && (FormatInt(x)[0] == MINUS <==> x < 0)
    ensures x < 0 ==> FormatInt(x)[1..] == Digits(-x)
  {
  }

  lemma FormatIntInjective(x: int, y: int)
    requires FormatInt(x) == FormatInt(y)
    ensures x == y
  {
    SignOfFormat(x);
    SignOfFormat(y);
    ParseDigits(if x < 0 then -x else x);
    ParseDigits(if y < 0 then -y else y);
  }

  function Pow10(k: nat): nat {
    if k == 0 then 1 else 10 * Pow10(k - 1)
  }

  lemma {:induction false} DigitsLength(n: nat, k: nat)
    requires k > 0 && n < Pow10(k)
    ensures |Digits(n)| <= k
  {
    if n >= 10 {
      assert k > 1 by { assert Pow10(1) == 10; }
      DigitsLength(n / 10, k - 1);
    }
  }

  lemma HeightDigits(height: int64)
    ensures |FormatInt(height)| <= 20
  {
    assert Pow10(6) == 1000000 by { assert Pow10(3) == 1000; }
    assert Pow10(9) == 1000000000;
    assert Pow10(12) == 1000000000000;
    assert Pow10(15) == 1000000000000000;
    assert Pow10(19) == 10000000000000000000 by { assert Pow10(17) == 100000000000000000; }
    var h: int := height;
    DigitsLength(if h < 0 then -h else h, 19);
  }

  // ---------- hexadecimal ----------

  lemma HexParts(a: Bytes)
    requires a != []
    ensures var n, x := |Hex(a)|, a[|a| - 1] as int;
      Hex(a)[..n - 2] == Hex(a[..|a| - 1]) && Hex(a)[n - 2] == HexDigit(x / 16) && Hex(a)[n - 1] == HexDigit(x % 16)
  {
    hide HexDigit;
  }

  lemma HexDigitInjective(x: byte, y: byte)
    requires HexDigit(x as int / 16) == HexDigit(y as int / 16) && HexDigit(x as int % 16) == HexDigit(y as int % 16)
    ensures x == y
  {
    assert x as int / 16 == y as int / 16 && x as int % 16 == y as int % 16;
  }

  lemma {:induction false} HexInjective(a: Bytes, b: Bytes)
    requires Hex(a) == Hex(b)
    ensures a == b
  {
    hide HexDigit;
    if a != [] {
      HexParts(a);
      HexParts(b);
      HexInjective(a[..|a| - 1], b[..|b| - 1]);
      HexDigitInjective(a[|a| - 1], b[|b| - 1]);
      assert a == a[..|a| - 1] + [a[|a| - 1]] && b == b[..|b| - 1] + [b[|b| - 1]];
    }
  }

  lemma {:induction false} HexHasNoSharp(b: Bytes)
    ensures SHARP !in Hex(b)
  {
    if b != [] { HexHasNoSharp(b[..|b| - 1]); }
  }

  function UpToSharp(s: Bytes): Bytes {
    if s == [] || s[0] == SHARP then [] else [s[0]] + UpToSharp(s[1..])
  }

  lemma {:induction false} FirstSharp(a: Bytes, x: Bytes)
    requires SHARP !in a
    ensures UpToSharp(a + [SHARP] + x) == a
  {
    if a != [] {
      FirstSharp(a[1..], x);
      assert (a + [SHARP] + x)[1..] == a[1..] + [SHARP] + x;
    }
  }

  lemma SharpSplits(a: Bytes, b: Bytes, x: Bytes, y: Bytes)
    requires SHARP !in a && SHARP !in b && a + [SHARP] + x == b + [SHARP] + y
    ensures a == b && x == y
  {
    FirstSharp(a, x);
    FirstSharp(b, y);
    assert (a + [SHARP] + x)[|a| + 1..] == x && (b + [SHARP] + y)[|b| + 1..] == y;
  }

  // ---------- the bytes of a key ----------

  /** Decimal formatting: the digits name the number, lowest last, and none of them is a leading zero. */
  lemma {:induction false} DigitsAreDecimal(n: nat)
    ensures Parse(Digits(n)) == n
    ensures n > 0 ==> Digits(n)[0] != 48
    ensures n == 0 ==> Digits(n) == [48]
  {
    ParseDigits(n);
    if n >= 10 { DigitsAreDecimal(n / 10); }
  }

  /** Two lower-case hexadecimal digits for each byte, high half first. */
  lemma {:induction false} HexAt(b: Bytes, i: nat)
    requires i < |b|
    ensures Hex(b)[2 * i] as int == "0123456789abcdef"[b[i] as int / 16] as int
    ensures Hex(b)[2 * i + 1] as int == "0123456789abcdef"[b[i] as int % 16] as int
  {
    HexParts(b);
    if i < |b| - 1 {
      HexAt(b[..|b| - 1], i);
    } else {
      HexDigitIs(b[i] as int / 16);
      HexDigitIs(b[i] as int % 16);
    }
  }

  lemma HexDigitIs(n: nat)
    requires n < 16
    ensures HexDigit(n) as int == "0123456789abcdef"[n] as int
  {
  }

  /** What the five families look like: "block#" and a hash or a height, "tx#" and a hash, "data#", an
      address in hexadecimal, a sharp and the key, and "latest". */
  lemma KeyBytes(h: Hash, n: int, address: Bytes, key: Bytes)
    ensures BlockHashKey(h) == [98, 108, 111, 99, 107, 35] + h.bytes
    ensures n >= 0 ==> BlockHeightKey(n) == [98, 108, 111, 99, 107, 35] + Digits(n)
    ensures n < 0 ==> BlockHeightKey(n) == [98, 108, 111, 99, 107, 35, 45] + Digits(-n)
    ensures TxHashKey(h) == [116, 120, 35] + h.bytes
    ensures DataKey(address, key) == [100, 97, 116, 97, 35] + Hex(address) + [35] + key
    ensures LATEST == [108, 97, 116, 101, 115, 116]
  {
    hide Digits, Hex;
    assert BLOCK == [98, 108, 111, 99, 107, 35] && TX == [116, 120, 35] && DATA == [100, 97, 116, 97, 35];
    assert n < 0 ==> BLOCK + FormatInt(n) == BLOCK + [45] + Digits(-n);
  }

  // ---------- one key, one meaning ----------

  datatype Key =
    | BlockAt(hash: Hash) | HeightAt(height: int64) | TxAt(tx: Hash)
    | DataAt(address: Bytes, key: Bytes) | Latest

  function Encode(k: Key): Bytes {
    match k
    case BlockAt(h) => BlockHashKey(h)
    case HeightAt(n) => BlockHeightKey(n)
    case TxAt(h) => TxHashKey(h)
    case DataAt(a, s) => DataKey(a, s)
    case Latest => LATEST
  }

  lemma Prefixes(k: Key)
    ensures k.BlockAt? || k.HeightAt? ==> |Encode(k)| > 6 && Encode(k)[0] == 98
    ensures k.TxAt? ==> Encode(k)[0] == 116
    ensures k.DataAt? ==> Encode(k)[0] == 100
    ensures k.Latest? ==> Encode(k)[0] == 108
    ensures k.BlockAt? ==> |Encode(k)| == 38
    ensures k.HeightAt? ==> |Encode(k)| <= 26
  {
    if k.HeightAt? { HeightDigits(k.height); }
  }

  /** The five encodings are injective and mutually disjoint: a database entry means one thing. In
      particular a height key, at most 26 bytes, is never a hash key, which has 38. */
  lemma KeysAreDistinct(j: Key, k: Key)
    requires Encode(j) == Encode(k)
    ensures j == k
  {
    Prefixes(j);
    Prefixes(k);
    match j
    case BlockAt(h) => assert Encode(j)[6..] == h.bytes && Encode(k)[6..] == k.hash.bytes;
    case HeightAt(n) =>
      assert Encode(j)[6..] == FormatInt(n) && Encode(k)[6..] == FormatInt(k.height);
      FormatIntInjective(n, k.height);
    case TxAt(h) => assert Encode(j)[3..] == h.bytes && Encode(k)[3..] == k.tx.bytes;
    case DataAt(a, s) =>
      assert Encode(j)[5..] == Hex(a) + [SHARP] + s && Encode(k)[5..] == Hex(k.address) + [SHARP] + k.key;
      HexHasNoSharp(a);
      HexHasNoSharp(k.address);
      SharpSplits(Hex(a), Hex(k.address), s, k.key);
      HexInjective(a, k.address);
    case Latest =>
  }
}
