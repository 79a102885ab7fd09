/** The Read methods of common/common_km.go: objects whose fields are overwritten from a viewer,
    whatever they held before. */
module CodecObjects {
  import opened Types
  import opened Karmem
  import opened Codec
  import opened CodecRead

  /** A Go byte slice: backing memory of some capacity, of which `len` bytes are in use. */
  datatype GoSlice = GoSlice(mem: Bytes, len: nat) {
    function Bytes(): Bytes
      requires len <= |mem|
    {
      mem[..len]
    }
  }

  type Slice = s: GoSlice | s.len <= |s.mem| witness GoSlice([], 0)

  /** Grow when the capacity is short, reslice, copy. The zero-fill loop that follows in the source
      runs from the new length to the new length, so it never turns. */
  method ReadSlice(dst: Slice, src: Bytes) returns (r: Slice)
    ensures r.Bytes() == src
    ensures |r.mem| == if |src| > |dst.mem| then |src| else |dst.mem|
  {
    var mem := dst.mem;
    if |src| > |mem| {
      mem := dst.Bytes() + Zeros(|src| - dst.len);
    }
    ghost var capacity := |mem|;
    for i := 0 to |src|
      invariant |mem| == capacity >= |src|
      invariant mem[..i] == src[..i]
    {
      mem := mem[i := src[i]];
    }
    r := GoSlice(mem, |src|);
  }

  /** Copy into a fixed array, then zero what the source did not cover. */
  method ReadArray(dst: Bytes, src: Bytes) returns (r: Bytes)
    requires |src| <= |dst|
    ensures r == src + Zeros(|dst| - |src|)
  {
    r := dst;
    for i := 0 to |src|
      invariant |r| == |dst| && r[..i] == src[..i]
    {
      r := r[i := src[i]];
    }
    for i := |src| to |dst|
      invariant |r| == |dst| && r[..|src|] == src
      invariant forall k :: |src| <= k < i ==> r[k] == 0
    {
      r := r[i := 0];
    }
  }

  /** What a viewer hands out for a fixed array: the bytes, or nothing when the table is too short. */
  function ArrayView(d: Bytes, offset: nat, size: nat, at: nat, n: nat): (r: Bytes)
    requires offset + size <= |d|
    ensures |r| <= n && FixedAt(d, offset, size, at, n) == r + Zeros(n - |r|)
  {
    if at + n > size then
      assert [] + Zeros(n) == Zeros(n);
      []
    else
      var r := d[offset + at..offset + at + n];
      assert r + Zeros(0) == r;
      r
  }

  class TransactionBodyObject {
    var hash: Bytes32
    var address: Bytes20
    var receiver: Bytes20
    var gas: int64
    var nonce: int64
    var event: Slice
    var opt: Slice
    var state: Slice
    var data: Slice
    var expire: int64
    var height: int64
    var index: int64
    var blockHash: Bytes32
    var timestamp: int64
    var public: Bytes33
    var signature: Slice

    /** A fresh Go value: every field zero. */
    constructor ()
    {
      hash, address, receiver, blockHash, public := Zeros(32), Zeros(20), Zeros(20), Zeros(32), Zeros(33);
      gas, nonce, expire, height, index, timestamp := 0, 0, 0, 0, 0, 0;
      var empty: Slice := GoSlice([], 0);
      event, opt, state, data, signature := empty, empty, empty, empty, empty;
    }

    function Value(): TransactionBody
      reads this
    {
      TransactionBody(Hash(hash), address, receiver, gas, nonce,
                      event.Bytes(), opt.Bytes(), state.Bytes(), data.Bytes(),
                      expire, height, index, Hash(blockHash), timestamp, public, signature.Bytes())
    }

    method ReadFront(d: Bytes, offset: nat, size: nat)
      requires offset + size <= |d|
      modifies `hash, `address, `receiver, `gas, `nonce
      ensures hash == FixedAt(d, offset, size, 4, 32) && address == FixedAt(d, offset, size, 36, 20)
      ensures receiver == FixedAt(d, offset, size, 56, 20)
      ensures gas == Int64At(d, offset, size, 76) && nonce == Int64At(d, offset, size, 84)
    {
      hide *;
      hash := ReadArray(hash, ArrayView(d, offset, size, 4, 32));
      address := ReadArray(address, ArrayView(d, offset, size, 36, 20));
      receiver := ReadArray(receiver, ArrayView(d, offset, size, 56, 20));
      gas := Int64At(d, offset, size, 76);
      nonce := Int64At(d, offset, size, 84);
    }

    method ReadMiddle(d: Bytes, offset: nat, size: nat)
      requires offset + size <= |d|
      modifies `event, `opt, `state, `data
      ensures event.Bytes() == SliceAt(d, offset, size, 92) && opt.Bytes() == SliceAt(d, offset, size, 104)
      ensures state.Bytes() == SliceAt(d, offset, size, 116) && data.Bytes() == SliceAt(d, offset, size, 128)
    {
      hide *;
      event := ReadSlice(event, SliceAt(d, offset, size, 92));
      opt := ReadSlice(opt, SliceAt(d, offset, size, 104));
      state := ReadSlice(state, SliceAt(d, offset, size, 116));
      data := ReadSlice(data, SliceAt(d, offset, size, 128));
    }

    method ReadBack(d: Bytes, offset: nat, size: nat)
      requires offset + size <= |d|
      modifies `expire, `height, `index, `blockHash, `timestamp, `public, `signature
      ensures expire == Int64At(d, offset, size, 140) && height == Int64At(d, offset, size, 148)
      ensures index == Int64At(d, offset, size, 156) && blockHash == FixedAt(d, offset, size, 164, 32)
      ensures timestamp == Int64At(d, offset, size, 196) && public == FixedAt(d, offset, size, 204, 33)
      ensures signature.Bytes() == Clip(SliceAt(d, offset, size, 237))
    {
      hide *;
      expire := Int64At(d, offset, size, 140);
      height := Int64At(d, offset, size, 148);
      index := Int64At(d, offset, size, 156);
      blockHash := ReadArray(blockHash, ArrayView(d, offset, size, 164, 32));
      timestamp := Int64At(d, offset, size, 196);
      public := ReadArray(public, ArrayView(d, offset, size, 204, 33));
      signature := ReadSlice(signature, Clip(SliceAt(d, offset, size, 237)));
    }

    method Read(d: Bytes, offset: nat)
      requires DecodeBody(d, offset).Some?
      modifies this
      ensures DecodeBody(d, offset) == Some(Value())
    {
      hide U32, FromI64, Int64At, SliceAt, FixedAt, Clip;
      var size := TableSize(d, offset).value;
      ReadFront(d, offset, size);
      ReadMiddle(d, offset, size);
      ReadBack(d, offset, size);
    }
  }

  class BlockHeaderObject {
    var timestamp: int64
    var prevBlockHash: Bytes32
    var blockHash: Bytes32
    var merkleRoot: Bytes32
    var height: int64
    var publicKey: Bytes33
    var params: Slice
    var gasLimit: int64

    constructor ()
    {
      timestamp, height, gasLimit := 0, 0, 0;
      prevBlockHash, blockHash, merkleRoot, publicKey := Zeros(32), Zeros(32), Zeros(32), Zeros(33);
      params := GoSlice([], 0);
    }

    ghost function Value(): BlockHeader
      reads this
    {
      BlockHeader(timestamp, Hash(prevBlockHash), Hash(blockHash), Hash(merkleRoot), height, publicKey,
                  params.Bytes(), gasLimit)
    }

    method Read(d: Bytes, offset: nat)
      requires DecodeHeader(d, offset).Some?
      modifies this
      ensures DecodeHeader(d, offset) == Some(Value())
    {
      hide U32, FromI64, Int64At, SliceAt, FixedAt, ArrayView;
      var size := TableSize(d, offset).value;
      timestamp := Int64At(d, offset, size, 4);
      prevBlockHash := ReadArray(prevBlockHash, ArrayView(d, offset, size, 12, 32));
      blockHash := ReadArray(blockHash, ArrayView(d, offset, size, 44, 32));
      merkleRoot := ReadArray(merkleRoot, ArrayView(d, offset, size, 76, 32));
      height := Int64At(d, offset, size, 108);
      publicKey := ReadArray(publicKey, ArrayView(d, offset, size, 116, 33));
      params := ReadSlice(params, SliceAt(d, offset, size, 149));
      gasLimit := Int64At(d, offset, size, 161);
    }
  }

  /** The transactions the first `n` cells hold. */
  ghost function Values(cells: seq<TransactionBodyObject>, n: nat): (r: seq<Transaction>)
    requires n <= |cells|
    reads cells
    ensures |r| == n && forall i :: 0 <= i < n ==> r[i] == Transaction(cells[i].Value())
  {
    if n == 0 then [] else Values(cells, n - 1) + [Transaction(cells[n - 1].Value())]
  }

  ghost predicate Distinct(cells: seq<TransactionBodyObject>) {
    forall i, j :: 0 <= i < j < |cells| ==> cells[i] != cells[j]
  }

  /** Slot `i` of a readable list names a readable body. */
  lemma {:induction false} SlotReads(d: Bytes, offset: nat, n: nat, i: nat)
    requires offset + 8 * n <= |d| && DecodeSlots(d, offset, n).Some? && i < n
    ensures DecodeBody(d, U32(d, offset + 8 * i)) == Some(DecodeSlots(d, offset, n).value[i].body)
  {
    hide DecodeBody, U32;
    if i < n - 1 { SlotReads(d, offset, n - 1, i); }
  }

  /** A block that may have been read into before: `cells` is the backing array of its transactions,
      of which the first `len` are in use. */
  class BlockObject {
    const header: BlockHeaderObject
    var cells: seq<TransactionBodyObject>
    var len: nat

    ghost predicate Valid()
      reads this
    {
      len <= |cells| && Distinct(cells)
    }

    constructor ()
      ensures Valid() && fresh(header) && cells == []
    {
      header := new BlockHeaderObject();
      cells, len := [], 0;
    }

    ghost function Value(): Block
      requires Valid()
      reads this, header, cells
    {
      Block(header.Value(), Values(cells, len))
    }

    /** make([]Transaction, n) behind the cells in use. */
    method Grow(n: nat)
      requires Valid() && n > |cells|
      modifies this
      ensures Valid() && |cells| == n && len == old(len)
      ensures cells[..len] == old(cells[..len]) && forall i :: len <= i < n ==> fresh(cells[i])
    {
      var grown := cells[..len];
      while |grown| < n
        invariant len <= |cells| && |grown| <= n && len <= |grown| && Distinct(grown) && grown[..len] == cells[..len]
        invariant forall i :: len <= i < |grown| ==> fresh(grown[i])
        invariant unchanged(this)
        decreases n - |grown|
      {
        var cell := new TransactionBodyObject();
        grown := grown + [cell];
      }
      cells := grown;
    }

    method ReadTransactions(d: Bytes, offset: nat, n: nat)
      requires Valid() && offset + 8 * n <= |d| && DecodeSlots(d, offset, n).Some?
      modifies this, cells
      ensures Valid() && len == n && Values(cells, len) == DecodeSlots(d, offset, n).value
      ensures forall c :: c in cells ==> c in old(cells) || fresh(c)
    {
      hide DecodeBody, U32, DecodeSlots;
      if n > |cells| { Grow(n); }
      len := n;
      for i := 0 to n
        invariant Valid() && len == n
        invariant forall c :: c in cells ==> c in old(cells) || fresh(c)
        invariant forall k :: 0 <= k < i ==> Transaction(cells[k].Value()) == DecodeSlots(d, offset, n).value[k]
      {
        SlotReads(d, offset, n, i);
        assert cells[i] in cells;
        cells[i].Read(d, U32(d, offset + 8 * i));
      }
    }

    method ReadAsRoot(d: Bytes)
      requires Valid() && DecodeBlock(d).Some?
      modifies this, header, cells
      ensures Valid() && DecodeBlock(d) == Some(Value())
    {
      hide DecodeSlots, DecodeHeader, U32, Values;
      var size := TableSize(d, 0).value;
      header.Read(d, U32(d, 4));
      if 8 + 12 > size || !ValidOffset(d, U32(d, 8), U32(d, 12)) {
        len := 0;
        assert Values(cells, len) == [];
      } else {
        ReadTransactions(d, U32(d, 8), U32(d, 12) / 8);
      }
    }
  }
}
