/** The karmem primitives the generated codec is built on: little-endian words, the growing writer
    buffer, and the offset checks of the reader. */
module Karmem {
  import opened Types

  // ---------- little-endian words ----------

  /** The `n` low bytes of `v`: what a uint32 or uint64 conversion leaves of a larger number. */
  function LE(v: nat, n: nat): (r: Bytes)
    ensures |r| == n
  {
    if n == 0 then [] else [(v % 256) as byte] + LE(v / 256, n - 1)
  }

  function FromLE(b: Bytes): nat {
    if b == [] then 0 else b[0] as int + 256 * FromLE(b[1..])
  }

  function Pow256(n: nat): nat {
    if n == 0 then 1 else 256 * Pow256(n - 1)
  }

  lemma {:induction false} WordRoundTrip(v: nat, n: nat)
    requires v < Pow256(n)
    ensures FromLE(LE(v, n)) == v
  {
    if n > 0 {
      assert LE(v, n)[1..] == LE(v / 256, n - 1);
      WordRoundTrip(v / 256, n - 1);
    }
  }

  const TWO32 := 0x1_0000_0000
  const TWO64 := 0x1_0000_0000_0000_0000

  lemma Word32(v: nat)
    requires v < TWO32
    ensures FromLE(LE(v, 4)) == v
  {
    assert Pow256(1) == 256 && Pow256(2) == 0x1_0000 && Pow256(3) == 0x100_0000 && Pow256(4) == TWO32;
    WordRoundTrip(v, 4);
  }

  /** The uint64 with the bits of an int64, as little-endian bytes. */
  function I64(x: int64): (r: Bytes)
    ensures |r| == 8
  {
    LE(if x < 0 then x + TWO64 else x, 8)
  }

  lemma {:induction false} FromLEBound(b: Bytes)
    ensures FromLE(b) < Pow256(|b|)
  {
    if b != [] { FromLEBound(b[1..]); }
  }

  lemma Pow256Of8()
    ensures Pow256(8) == TWO64
  {
    assert Pow256(1) == 256 && Pow256(2) == 0x1_0000 && Pow256(3) == 0x100_0000 && Pow256(4) == TWO32;
    assert Pow256(5) == 256 * TWO32 && Pow256(6) == 0x1_0000 * TWO32 && Pow256(7) == 0x100_0000 * TWO32;
  }

  function FromI64(b: Bytes): (x: int64)
    requires |b| == 8
  {
    FromLEBound(b);
    Pow256Of8();
    var u := FromLE(b);
    if u >= 0x8000_0000_0000_0000 then u - TWO64 else u
  }

  /** The eight bytes of an int64 are those of its two's complement, lowest first; the four of a length or
      an offset likewise. */
  lemma WordBytes(v: nat, x: int64)
    requires v < 0x1_0000_0000
    ensures var b := LE(v, 4);
      b[0] as int + 0x100 * b[1] as int + 0x1_0000 * b[2] as int + 0x100_0000 * b[3] as int == v
    ensures FromLE(I64(x)) == if x < 0 then x + 0x1_0000_0000_0000_0000 else x
  {
    Pow256Of8();
    WordRoundTrip(if x < 0 then x + TWO64 else x, 8);
    Word32(v);
    hide LE;
    var b := LE(v, 4);
    var b1 := b[1..]; var b2 := b1[1..]; var b3 := b2[1..];
    assert FromLE(b3) == b[3] as int && FromLE(b2) == b[2] as int + 256 * FromLE(b3);
    assert FromLE(b1) == b[1] as int + 256 * FromLE(b2) && FromLE(b) == b[0] as int + 256 * FromLE(b1);
  }

  lemma Int64RoundTrip(x: int64)
    ensures FromI64(I64(x)) == x
  {
    Pow256Of8();
    WordRoundTrip(if x < 0 then x + TWO64 else x, 8);
  }

  // ---------- concatenations ----------

  function Flat(parts: seq<Bytes>): Bytes {
    if parts == [] then [] else Flat(parts[..|parts| - 1]) + parts[|parts| - 1]
  }

  function Start(parts: seq<Bytes>, i: nat): nat
    requires i <= |parts|
  {
    if i == 0 then 0 else Start(parts, i - 1) + |parts[i - 1]|
  }

  lemma FlatSnoc(parts: seq<Bytes>, b: Bytes)
    ensures Flat(parts + [b]) == Flat(parts) + b
  {
    assert (parts + [b])[..|parts|] == parts;
  }

  lemma {:induction false} StartOfPrefix(parts: seq<Bytes>, p: seq<Bytes>, i: nat)
    requires i <= |p| <= |parts| && p == parts[..|p|]
    ensures Start(p, i) == Start(parts, i)
  {
    if i > 0 { StartOfPrefix(parts, p, i - 1); }
  }

  lemma {:induction false} FlatLength(parts: seq<Bytes>)
    ensures |Flat(parts)| == Start(parts, |parts|)
  {
    if parts != [] {
      var p := parts[..|parts| - 1];
      FlatLength(p);
      StartOfPrefix(parts, p, |p|);
    }
  }

  /** Part `i` is found at its start. */
  lemma {:induction false} PartAt(parts: seq<Bytes>, i: nat)
    requires i < |parts|
    ensures Start(parts, i) + |parts[i]| <= |Flat(parts)|
    ensures Flat(parts)[Start(parts, i)..Start(parts, i) + |parts[i]|] == parts[i]
  {
    var p := parts[..|parts| - 1];
    StartOfPrefix(parts, p, if i < |p| then i else |p|);
    FlatLength(p);
    if i < |p| {
      PartAt(p, i);
    }
  }

  /** Part `i` of a concatenation that stands between a prefix and a suffix. */
  lemma PartIn(d: Bytes, pre: Bytes, parts: seq<Bytes>, post: Bytes, i: nat)
    requires d == pre + Flat(parts) + post && i < |parts|
    ensures |pre| + Start(parts, i) + |parts[i]| <= |d|
    ensures d[|pre| + Start(parts, i)..|pre| + Start(parts, i) + |parts[i]|] == parts[i]
  {
    PartAt(parts, i);
    SliceOfMiddle(pre, Flat(parts), post, Start(parts, i), |parts[i]|);
  }

  lemma SliceOfMiddle(pre: Bytes, mid: Bytes, post: Bytes, s: nat, n: nat)
    requires s + n <= |mid|
    ensures (pre + mid + post)[|pre| + s..|pre| + s + n] == mid[s..s + n]
  {
  }

  // ---------- the writer ----------

  /** A table being filled front to back: finished `parts`, then the bytes `left` as they were, and
      behind those what was allocated since. */
  datatype Table = Table(pre: Bytes, parts: seq<Bytes>, left: Bytes, posts: seq<Bytes>) {
    function Image(): Bytes { pre + Flat(parts) + left + Flat(posts) }
    function At(): nat { |pre| + |Flat(parts)| }
    function End(): nat { |pre| + |Flat(parts)| + |left| + |Flat(posts)| }
  }

  lemma Splice(a: Bytes, w: Bytes, z: Bytes, q: Bytes, b: Bytes)
    requires |b| <= |z|
    ensures var d := a + w + z + q; var at := |a| + |w|;
      d[..at] + b + d[at + |b|..] == a + (w + b) + z[|b|..] + q
  {
    var d := a + w + z + q;
    var at := |a| + |w|;
    assert d[..at] == a + w;
    assert d[at + |b|..] == z[|b|..] + q;
    assert (a + w) + b == a + (w + b);
  }

  lemma FillTable(t: Table, b: Bytes)
    requires |b| <= |t.left|
    ensures var d, t' := t.Image(), t.(parts := t.parts + [b], left := t.left[|b|..]);
      && |d| == t.End()
      && d[..t.At()] + b + d[t.At() + |b|..] == t'.Image()
      && t'.At() == t.At() + |b| && t'.End() == t.End()
  {
    FlatSnoc(t.parts, b);
    Splice(t.pre, Flat(t.parts), t.left, Flat(t.posts), b);
  }

  lemma ExtendTable(t: Table, b: Bytes)
    ensures t.Image() + b == t.(posts := t.posts + [b]).Image()
    ensures |t.Image()| == t.End()
    ensures t.(posts := t.posts + [b]).End() == t.End() + |b|
  {
    FlatSnoc(t.posts, b);
  }

  /** karmem.Writer: one growing buffer. Alloc appends zeros, Reset empties. */
  class Writer {
    var data: Bytes

    constructor ()
      ensures data == []
    {
      data := [];
    }

    method Alloc(n: nat) returns (offset: nat)
      modifies this
      ensures offset == |old(data)| && data == old(data) + Zeros(n)
    {
      offset := |data|;
      data := data + Zeros(n);
    }

    method WriteAt(offset: nat, b: Bytes)
      requires offset + |b| <= |data|
      modifies this
      ensures data == old(data)[..offset] + b + old(data)[offset + |b|..]
    {
      data := data[..offset] + b + data[offset + |b|..];
    }

    /** uint32(v) keeps the low four bytes. */
    method Write4At(offset: nat, v: nat)
      requires offset + 4 <= |data|
      modifies this
      ensures data == old(data)[..offset] + LE(v, 4) + old(data)[offset + 4..]
    {
      WriteAt(offset, LE(v, 4));
    }

    method Reset()
      modifies this
      ensures data == []
    {
      data := [];
    }

    /** WriteAt of the next field of a table. */
    method Field(ghost t: Table, offset: nat, b: Bytes) returns (ghost t': Table)
      requires data == t.Image() && offset == t.At() && |b| <= |t.left|
      modifies this
      ensures t' == t.(parts := t.parts + [b], left := t.left[|b|..]) && data == t'.Image()
      ensures t'.At() == t.At() + |b| && t'.End() == t.End()
    {
      FillTable(t, b);
      t' := t.(parts := t.parts + [b], left := t.left[|b|..]);
      WriteAt(offset, b);
    }

    /** The block the generator emits for a []byte field: allocate the bytes behind everything
        written so far, record offset, length and element size in the table, fill the bytes in. */
    method Slice(ghost t: Table, offset: nat, b: Bytes) returns (ghost t': Table)
      requires data == t.Image() && offset == t.At() && 12 <= |t.left|
      modifies this
      ensures t' == t.(parts := t.parts + [LE(t.End(), 4)] + [LE(|b|, 4)] + [LE(1, 4)],
                       left := t.left[12..], posts := t.posts + [b])
      ensures data == t'.Image() && t'.At() == t.At() + 12 && t'.End() == t.End() + |b|
    {
      ExtendTable(t, Zeros(|b|));
      var at := Alloc(|b|);
      t' := t.(posts := t.posts + [Zeros(|b|)]);
      t' := Field(t', offset, LE(at, 4));
      t' := Field(t', offset + 4, LE(|b|, 4));
      t' := Field(t', offset + 8, LE(1, 4));
      ghost var t0 := t'.(posts := t.posts);
      ExtendTable(t0, Zeros(|b|));
      ExtendTable(t0, b);
      WriteAt(at, b);
      t' := t'.(posts := t.posts + [b]);
    }
  }

  // ---------- the reader ----------

  predicate ValidOffset(d: Bytes, offset: nat, size: nat) {
    offset + size <= |d|
  }

  function U32(d: Bytes, offset: nat): nat
    requires offset + 4 <= |d|
  {
    FromLE(d[offset..offset + 4])
  }

  /** NewXViewer and size() of a struct with a size word; None where the source falls back to the
      null viewer. */
  function TableSize(d: Bytes, offset: nat): (size: Option<nat>)
    ensures size.Some? ==> offset + 4 <= |d| && offset + size.value <= |d|
  {
    if !ValidOffset(d, offset, 8) then None
    else
      var size := U32(d, offset);
      if !ValidOffset(d, offset, size) then None else Some(size)
  }

  /** A fixed-size byte field: absent fields read as an empty slice, which Read pads with zeros. */
  function FixedAt(d: Bytes, offset: nat, size: nat, at: nat, n: nat): (r: Bytes)
    requires offset + size <= |d|
    ensures |r| == n
  {
    if at + n > size then Zeros(n) else d[offset + at..offset + at + n]
  }

  function Int64At(d: Bytes, offset: nat, size: nat, at: nat): int64
    requires offset + size <= |d|
  {
    if at + 8 > size then 0 else FromI64(d[offset + at..offset + at + 8])
  }

  function SliceAt(d: Bytes, offset: nat, size: nat, at: nat): Bytes
    requires offset + size <= |d|
  {
    if at + 12 > size then []
    else
      var o, n := U32(d, offset + at), U32(d, offset + at + 4);
      if !ValidOffset(d, o, n) then [] else d[o..o + n]
  }
}
