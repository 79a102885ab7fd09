/** The generated block and transaction codec (common/common_km.go): the byte image each Write
    leaves behind, the Write methods proved to leave it, and the viewers as decoding functions. */
module Codec {
  import opened Types
  import opened Karmem

  // ---------- byte images ----------

  const BODY_SIZE := 256
  const HEADER_SIZE := 176
  const BLOCK_SIZE := 24
  const BODY_TABLE := 249
  const HEADER_TABLE := 169
  const SLOT_SIZE := 8
  const MAX_SIGNATURE := 73

  /** The fields of a transaction body table, up to its last data slice; slices are laid out from
      address `base` on. */
  function BodyHead(x: TransactionBody, base: nat): seq<Bytes> {
    var o1 := base + |x.event|;
    var o2 := o1 + |x.opt|;
    var o3 := o2 + |x.state|;
    []
    + [LE(249, 4)] + [x.hash.bytes] + [x.address] + [x.receiver] + [I64(x.gas)] + [I64(x.nonce)]
    + [LE(base, 4)] + [LE(|x.event|, 4)] + [LE(1, 4)]
    + [LE(o1, 4)] + [LE(|x.opt|, 4)] + [LE(1, 4)]
    + [LE(o2, 4)] + [LE(|x.state|, 4)] + [LE(1, 4)]
    + [LE(o3, 4)] + [LE(|x.data|, 4)] + [LE(1, 4)]
  }

  function BodyHeadTail(x: TransactionBody): seq<Bytes> {
    [] + [x.event] + [x.opt] + [x.state] + [x.data]
  }

  function BodyParts(x: TransactionBody, base: nat): seq<Bytes> {
    BodyHead(x, base)
    + [I64(x.expire)] + [I64(x.height)] + [I64(x.index)] + [x.blockHash.bytes]
    + [I64(x.timestamp)] + [x.public]
    + [LE(base + |x.event| + |x.opt| + |x.state| + |x.data|, 4)] + [LE(|x.signature|, 4)] + [LE(1, 4)]
  }

  function BodyTail(x: TransactionBody): seq<Bytes> {
    BodyHeadTail(x) + [x.signature]
  }

  /** A transaction body written at address `at`: its table, then its slices. */
  function EncodeBody(x: TransactionBody, at: nat): Bytes {
    Flat(BodyParts(x, at + BODY_SIZE)) + Zeros(7) + Flat(BodyTail(x))
  }

  function HeaderParts(x: BlockHeader, base: nat): seq<Bytes> {
    []
    + [LE(169, 4)] + [I64(x.timestamp)] + [x.prevBlockHash.bytes] + [x.blockHash.bytes] + [x.merkleRoot.bytes]
    + [I64(x.height)] + [x.publicKey] + [LE(base, 4)] + [LE(|x.params|, 4)] + [LE(1, 4)] + [I64(x.gasLimit)]
  }

  function EncodeHeader(x: BlockHeader, at: nat): Bytes {
    Flat(HeaderParts(x, at + HEADER_SIZE)) + Zeros(7) + Flat([x.params])
  }

  /** A transaction as a root: an 8-byte slot naming the body behind it. */
  function EncodeTransaction(tx: Transaction): Bytes {
    LE(SLOT_SIZE, 4) + Zeros(4) + EncodeBody(tx.body, SLOT_SIZE)
  }

  /** The bodies of a list of transactions, the first one at address `at`. */
  function EncodeBodies(txs: seq<Transaction>, at: nat): Bytes {
    if txs == [] then []
    else
      var front := EncodeBodies(txs[..|txs| - 1], at);
      front + EncodeBody(txs[|txs| - 1].body, at + |front|)
  }

  /** The slots of a list of transactions whose bodies start at address `at`. */
  function EncodeSlots(txs: seq<Transaction>, at: nat): (r: Bytes)
    ensures |r| == 8 * |txs|
  {
    if txs == [] then []
    else
      var front := txs[..|txs| - 1];
      EncodeSlots(front, at) + (LE(at + |EncodeBodies(front, at)|, 4) + Zeros(4))
  }

  function BlockParts(b: Block): seq<Bytes> {
    var slots := BLOCK_SIZE + |EncodeHeader(b.header, BLOCK_SIZE)|;
    [] + [LE(20, 4)] + [LE(BLOCK_SIZE, 4)] + [LE(slots, 4)] + [LE(8 * |b.transactions|, 4)] + [LE(SLOT_SIZE, 4)]
  }

  function EncodeBlock(b: Block): Bytes {
    var header := EncodeHeader(b.header, BLOCK_SIZE);
    var bodies := BLOCK_SIZE + |header| + 8 * |b.transactions|;
    Flat(BlockParts(b)) + Zeros(4) + header
    + EncodeSlots(b.transactions, bodies) + EncodeBodies(b.transactions, bodies)
  }

  // ---------- Write ----------

  /** A buffer as a table of which nothing is written yet, starting at `at`. */
  lemma BlankTable(d: Bytes, at: nat)
    requires at <= |d|
    ensures var t := Table(d[..at], [], d[at..], []); t.Image() == d && t.At() == at && t.End() == |d|
  {
  }

  /** What a body written into the table at `at` of `d` leaves: the table, its padding as it was, and
      its slices behind everything. */
  function PatchBody(d: Bytes, at: nat, x: TransactionBody): Bytes
    requires at + BODY_TABLE <= |d|
  {
    d[..at] + Flat(BodyParts(x, |d|)) + d[at + BODY_TABLE..] + Flat(BodyTail(x))
  }

  function PatchHeader(d: Bytes, at: nat, x: BlockHeader): Bytes
    requires at + HEADER_TABLE <= |d|
  {
    d[..at] + Flat(HeaderParts(x, |d|)) + d[at + HEADER_TABLE..] + Flat([x.params])
  }

  /** Into a table just allocated at the end, that is the image. */
  lemma PatchBodyAtEnd(pre: Bytes, x: TransactionBody)
    ensures PatchBody(pre + Zeros(BODY_SIZE), |pre|, x) == pre + EncodeBody(x, |pre|)
  {
    hide BodyParts, BodyTail, Flat;
    AllocatedAtEnd(pre, BODY_SIZE, BODY_TABLE);
    Assoc(pre, Flat(BodyParts(x, |pre| + BODY_SIZE)), Zeros(7), Flat(BodyTail(x)));
  }

  lemma PatchHeaderAtEnd(pre: Bytes, x: BlockHeader)
    ensures PatchHeader(pre + Zeros(HEADER_SIZE), |pre|, x) == pre + EncodeHeader(x, |pre|)
  {
    hide HeaderParts, Flat;
    AllocatedAtEnd(pre, HEADER_SIZE, HEADER_TABLE);
    Assoc(pre, Flat(HeaderParts(x, |pre| + HEADER_SIZE)), Zeros(7), Flat([x.params]));
  }

  lemma AllocatedAtEnd(pre: Bytes, size: nat, table: nat)
    requires table + 7 == size
    ensures (pre + Zeros(size))[..|pre|] == pre && (pre + Zeros(size))[|pre| + table..] == Zeros(7)
  {
  }

  /** The first 140 bytes of the table, up to the data slice. */
  method WriteBodyHead(x: TransactionBody, writer: Writer, offset: nat, ghost t0: Table) returns (ghost t: Table)
    requires t0.parts == [] && t0.posts == [] && |t0.left| >= BODY_TABLE && writer.data == t0.Image()
    requires offset == t0.At()
    modifies writer
    ensures t == Table(t0.pre, BodyHead(x, t0.End()), t0.left[140..], BodyHeadTail(x))
    ensures writer.data == t.Image() && t.At() == offset + 140
    ensures t.End() == t0.End() + |x.event| + |x.opt| + |x.state| + |x.data|
  {
    hide Table.Image, Table.At, Table.End, Flat, Zeros, LE, I64;
    t := writer.Field(t0, offset, LE(BODY_TABLE, 4));
    t := writer.Field(t, offset + 4, x.hash.bytes);
    t := writer.Field(t, offset + 36, x.address);
    t := writer.Field(t, offset + 56, x.receiver);
    t := writer.Field(t, offset + 76, I64(x.gas));
    t := writer.Field(t, offset + 84, I64(x.nonce));
    t := writer.Slice(t, offset + 92, x.event);
    t := writer.Slice(t, offset + 104, x.opt);
    t := writer.Slice(t, offset + 116, x.state);
    t := writer.Slice(t, offset + 128, x.data);
  }

  /** The rest of the table. */
  method WriteBodyRest(x: TransactionBody, writer: Writer, offset: nat, ghost base: nat, ghost t0: Table)
    returns (ghost t: Table)
    requires |t0.left| >= BODY_TABLE - 140 && writer.data == t0.Image() && t0.At() == offset + 140
    requires t0.parts == BodyHead(x, base) && t0.posts == BodyHeadTail(x)
    requires t0.End() == base + |x.event| + |x.opt| + |x.state| + |x.data|
    modifies writer
    ensures t == Table(t0.pre, BodyParts(x, base), t0.left[109..], BodyTail(x)) && writer.data == t.Image()
  {
    hide Table.Image, Table.At, Table.End, BodyHead, BodyHeadTail, Flat, Zeros, LE, I64;
    t := writer.Field(t0, offset + 140, I64(x.expire));
    t := writer.Field(t, offset + 148, I64(x.height));
    t := writer.Field(t, offset + 156, I64(x.index));
    t := writer.Field(t, offset + 164, x.blockHash.bytes);
    t := writer.Field(t, offset + 196, I64(x.timestamp));
    t := writer.Field(t, offset + 204, x.public);
    t := writer.Slice(t, offset + 237, x.signature);
  }

  /** With start = 0 the table is allocated here, otherwise it is wherever the caller says. */
  method WriteBody(x: TransactionBody, writer: Writer, start: nat) returns (offset: nat)
    requires start != 0 ==> start + BODY_TABLE <= |writer.data|
    modifies writer
    ensures offset == if start == 0 then |old(writer.data)| else start
    ensures var d := if start == 0 then old(writer.data) + Zeros(BODY_SIZE) else old(writer.data);
      writer.data == PatchBody(d, offset, x)
  {
    offset := start;
    if offset == 0 {
      offset := writer.Alloc(BODY_SIZE);
    }
    hide Table.Image, Table.At, Table.End, BodyHead, BodyHeadTail, BodyParts, BodyTail, Flat, PatchBody;
    ghost var d, base := writer.data, |writer.data|;
    BlankTable(d, offset);
    ghost var t := WriteBodyHead(x, writer, offset, Table(d[..offset], [], d[offset..], []));
    t := WriteBodyRest(x, writer, offset, base, t);
    BodyTableDone(t, d, offset, x);
  }

  lemma BodyTableDone(t: Table, d: Bytes, at: nat, x: TransactionBody)
    requires at + BODY_TABLE <= |d| && t == Table(d[..at], BodyParts(x, |d|), d[at..][140..][109..], BodyTail(x))
    ensures t.Image() == PatchBody(d, at, x)
  {
    hide BodyParts, BodyTail, Flat;
    assert d[at..][140..][109..] == d[at + BODY_TABLE..];
  }

  method WriteBodyAsRoot(x: TransactionBody, writer: Writer)
    requires writer.data == []
    modifies writer
    ensures writer.data == EncodeBody(x, 0)
  {
    hide PatchBody, EncodeBody, Zeros;
    var _ := WriteBody(x, writer, 0);
    PatchBodyAtEnd([], x);
  }

  lemma Assoc(a: Bytes, b: Bytes, c: Bytes, d: Bytes)
    ensures a + b + c + d == a + (b + c + d)
  {
  }

  method WriteHeader(x: BlockHeader, writer: Writer, start: nat) returns (offset: nat)
    requires start != 0 ==> start + HEADER_TABLE <= |writer.data|
    modifies writer
    ensures offset == if start == 0 then |old(writer.data)| else start
    ensures var d := if start == 0 then old(writer.data) + Zeros(HEADER_SIZE) else old(writer.data);
      writer.data == PatchHeader(d, offset, x)
  {
    offset := start;
    if offset == 0 {
      offset := writer.Alloc(HEADER_SIZE);
    }
    ghost var d := writer.data;
    BlankTable(d, offset);
    hide Table.Image, Table.At, Table.End, Flat, Zeros, LE, I64, PatchHeader;
    ghost var t := writer.Field(Table(d[..offset], [], d[offset..], []), offset, LE(HEADER_TABLE, 4));
    t := writer.Field(t, offset + 4, I64(x.timestamp));
    t := writer.Field(t, offset + 12, x.prevBlockHash.bytes);
    t := writer.Field(t, offset + 44, x.blockHash.bytes);
    t := writer.Field(t, offset + 76, x.merkleRoot.bytes);
    t := writer.Field(t, offset + 108, I64(x.height));
    t := writer.Field(t, offset + 116, x.publicKey);
    t := writer.Slice(t, offset + 149, x.params);
    t := writer.Field(t, offset + 161, I64(x.gasLimit));
    HeaderTableDone(t, d, offset, x);
  }

  lemma HeaderTableDone(t: Table, d: Bytes, at: nat, x: BlockHeader)
    requires at + HEADER_TABLE <= |d| && t.pre == d[..at] && t.parts == HeaderParts(x, |d|)
    requires t.posts == [] + [x.params]
    requires t.left == d[at..][HEADER_TABLE..]
    ensures t.Image() == PatchHeader(d, at, x)
  {
    assert t.posts == [x.params];
    assert d[at..][HEADER_TABLE..] == d[at + HEADER_TABLE..];
  }

  /** Writing into the front part of a buffer leaves the back part alone. */
  lemma PrefixKept(d: Bytes, z: Bytes, at: nat, w: Bytes)
    requires at + |w| <= |d|
    ensures var e := (d + z)[..at] + w + (d + z)[at + |w|..];
      e[..|d|] == d[..at] + w + d[at + |w|..] && e[|d|..] == z
  {
  }

  /** The body goes behind everything written so far; the slot at `offset` names it. */
  method WriteTransaction(tx: Transaction, writer: Writer, start: nat) returns (offset: nat)
    requires start != 0 ==> start + SLOT_SIZE <= |writer.data|
    modifies writer
    ensures var d := if start == 0 then old(writer.data) + Zeros(SLOT_SIZE) else old(writer.data);
      && offset == (if start == 0 then |old(writer.data)| else start)
      && writer.data == d[..offset] + LE(|d|, 4) + d[offset + 4..] + EncodeBody(tx.body, |d|)
  {
    offset := start;
    if offset == 0 {
      offset := writer.Alloc(SLOT_SIZE);
    }
    ghost var d := writer.data;
    var bodyOffset := writer.Alloc(BODY_SIZE);
    writer.Write4At(offset, bodyOffset);
    PrefixKept(d, Zeros(BODY_SIZE), offset, LE(|d|, 4));
    ghost var front := writer.data[..bodyOffset];
    assert writer.data == front + Zeros(BODY_SIZE);
    var _ := WriteBody(tx.body, writer, bodyOffset);
    PatchBodyAtEnd(front, tx.body);
  }

  method WriteTransactionAsRoot(tx: Transaction) returns (bytes: Bytes)
    ensures bytes == EncodeTransaction(tx)
  {
    var writer := new Writer();
    var _ := WriteTransaction(tx, writer, 0);
    bytes := writer.data;
    assert Zeros(SLOT_SIZE)[4..] == Zeros(4);
  }

  // ---------- Block.Write ----------

  /** The 24-byte root table and the header behind it. */
  function BlockFront(b: Block): Bytes {
    Flat(BlockParts(b)) + Zeros(4) + EncodeHeader(b.header, BLOCK_SIZE)
  }

  function BodiesStart(b: Block): nat {
    BLOCK_SIZE + |EncodeHeader(b.header, BLOCK_SIZE)| + 8 * |b.transactions|
  }

  lemma BlockFrontLength(b: Block)
    ensures |BlockFront(b)| == BLOCK_SIZE + |EncodeHeader(b.header, BLOCK_SIZE)|
    ensures BodiesStart(b) == |BlockFront(b)| + 8 * |b.transactions|
    ensures |Flat(BlockParts(b))| == 20
  {
    FlatLength(BlockParts(b));
    var p := BlockParts(b);
    assert Start(p, 5) == Start(p, 4) + 4 && Start(p, 4) == Start(p, 3) + 4 && Start(p, 3) == Start(p, 2) + 4;
    assert Start(p, 2) == Start(p, 1) + 4 && Start(p, 1) == 4;
  }

  /** Filling one slot and appending the body it names. */
  lemma NextSlot(d: Bytes, at: nat, a: Bytes, s: Bytes, left: nat, q: Bytes, name: Bytes, body: Bytes)
    requires 8 <= left && |name| == 4 && at == |a| + |s|
    requires d == a + s + Zeros(left) + q
    ensures at + 8 <= |d|
    ensures d[..at] + name + d[at + 4..] + body == a + (s + (name + Zeros(4))) + Zeros(left - 8) + (q + body)
  {
    Splice(a, s, Zeros(left), q, name);
    assert Zeros(left)[4..] == Zeros(4) + Zeros(left - 8);
    assert s + name + Zeros(4) == s + (name + Zeros(4));
    assert a + (s + name) + (Zeros(4) + Zeros(left - 8)) == a + (s + (name + Zeros(4))) + Zeros(left - 8);
    Assoc(a + (s + (name + Zeros(4))), Zeros(left - 8), q, body);
    Assoc([], a + (s + (name + Zeros(4))) + Zeros(left - 8), q, body);
  }

  /** The image with `i` of the transactions written behind any front: `left` bytes of slots are
      still zero, and the bodies start at `at`. */
  function ImageUpTo(front: Bytes, txs: seq<Transaction>, i: nat, left: nat, at: nat): Bytes
    requires i <= |txs|
  {
    front + EncodeSlots(txs[..i], at) + Zeros(left) + EncodeBodies(txs[..i], at)
  }

  lemma NextTransaction(front: Bytes, txs: seq<Transaction>, i: nat, left: nat, at: nat, d: Bytes, slot: nat)
    requires i < |txs| && at == |front| + 8 * i + left && 8 <= left
    requires d == ImageUpTo(front, txs, i, left, at) && slot == |front| + 8 * i
    ensures slot + 8 <= |d|
    ensures d[..slot] + LE(|d|, 4) + d[slot + 4..] + EncodeBody(txs[i].body, |d|)
         == ImageUpTo(front, txs, i + 1, left - 8, at)
  {
    var s, q, z := EncodeSlots(txs[..i], at), EncodeBodies(txs[..i], at), Zeros(left);
    assert |s| == 8 * i;
    assert d == front + s + z + q;
    assert |d| == at + |q|;
    NextSlot(d, slot, front, s, left, q, LE(|d|, 4), EncodeBody(txs[i].body, |d|));
    ImageSnoc(front, txs, i, left, at, |d|);
  }

  lemma ImageSnoc(front: Bytes, txs: seq<Transaction>, i: nat, left: nat, at: nat, next: nat)
    requires i < |txs| && 8 <= left && next == at + |EncodeBodies(txs[..i], at)|
    ensures ImageUpTo(front, txs, i + 1, left - 8, at)
         == front + (EncodeSlots(txs[..i], at) + (LE(next, 4) + Zeros(4))) + Zeros(left - 8)
            + (EncodeBodies(txs[..i], at) + EncodeBody(txs[i].body, next))
  {
    ListsSnoc(txs, i, at, next);
    hide EncodeSlots, EncodeBodies, EncodeBody, LE, Zeros;
  }

  lemma ListsSnoc(txs: seq<Transaction>, i: nat, at: nat, next: nat)
    requires i < |txs| && next == at + |EncodeBodies(txs[..i], at)|
    ensures EncodeSlots(txs[..i + 1], at) == EncodeSlots(txs[..i], at) + (LE(next, 4) + Zeros(4))
    ensures EncodeBodies(txs[..i + 1], at) == EncodeBodies(txs[..i], at) + EncodeBody(txs[i].body, next)
  {
    hide EncodeBody, LE, Zeros;
    assert txs[..i + 1][..i] == txs[..i];
  }

  lemma WholeBlock(b: Block)
    ensures ImageUpTo(BlockFront(b), b.transactions, |b.transactions|, 0, BodiesStart(b)) == EncodeBlock(b)
  {
    hide EncodeHeader, EncodeSlots, EncodeBodies, BlockParts, Flat;
    assert b.transactions[..|b.transactions|] == b.transactions;
    var front := BlockFront(b) + EncodeSlots(b.transactions, BodiesStart(b));
    assert front + Zeros(0) == front;
  }

  method WriteBlockRoot(b: Block, writer: Writer) returns (slots: nat)
    requires writer.data == []
    modifies writer
    ensures slots == |BlockFront(b)| > 0
    ensures writer.data == ImageUpTo(BlockFront(b), b.transactions, 0, 8 * |b.transactions|, BodiesStart(b))
  {
    var offset := writer.Alloc(BLOCK_SIZE);
    BlankTable(Zeros(BLOCK_SIZE), 0);
    ghost var root := Table([], [], Zeros(BLOCK_SIZE), []);
    assert Zeros(BLOCK_SIZE)[..0] == [] && Zeros(BLOCK_SIZE)[0..] == Zeros(BLOCK_SIZE);
    ghost var t := writer.Field(root, offset, LE(20, 4));
    ExtendTable(t, Zeros(HEADER_SIZE));
    var headerOffset := writer.Alloc(HEADER_SIZE);
    t := writer.Field(t.(posts := t.posts + [Zeros(HEADER_SIZE)]), offset + 4, LE(headerOffset, 4));
    ghost var bare := t.(posts := []);
    ExtendTable(bare, Zeros(HEADER_SIZE));
    ghost var header := EncodeHeader(b.header, headerOffset);
    ExtendTable(bare, header);
    assert bare.posts + [Zeros(HEADER_SIZE)] == t.posts;
    var _ := WriteHeader(b.header, writer, headerOffset);
    PatchHeaderAtEnd(bare.Image(), b.header);
    t := bare.(posts := bare.posts + [header]);
    ExtendTable(t, Zeros(8 * |b.transactions|));
    slots := writer.Alloc(8 * |b.transactions|);
    t := t.(posts := t.posts + [Zeros(8 * |b.transactions|)]);
    t := writer.Field(t, offset + 8, LE(slots, 4));
    t := writer.Field(t, offset + 12, LE(8 * |b.transactions|, 4));
    t := writer.Field(t, offset + 16, LE(SLOT_SIZE, 4));
    BlockFrontLength(b);
    RootTableDone(t, b);
  }

  lemma RootTableDone(t: Table, b: Block)
    requires t.pre == [] && t.left == Zeros(BLOCK_SIZE)[4..][4..][4..][4..][4..] && t.parts == BlockParts(b)
    requires t.posts == [] + [EncodeHeader(b.header, BLOCK_SIZE)] + [Zeros(8 * |b.transactions|)]
    ensures t.Image() == ImageUpTo(BlockFront(b), b.transactions, 0, 8 * |b.transactions|, BodiesStart(b))
  {
    assert t.left == Zeros(4);
    var header, slots := EncodeHeader(b.header, BLOCK_SIZE), Zeros(8 * |b.transactions|);
    FlatSnoc([], header);
    FlatSnoc([] + [header], slots);
    assert Flat(t.posts) == header + slots;
    assert b.transactions[..0] == [];
    assert ImageUpTo(BlockFront(b), b.transactions, 0, 8 * |b.transactions|, BodiesStart(b)) == BlockFront(b) + slots;
    Assoc([], Flat(t.parts) + Zeros(4), header, slots);
  }

  method WriteBlockAsRoot(b: Block) returns (bytes: Bytes)
    ensures bytes == EncodeBlock(b)
  {
    hide EncodeBlock, ImageUpTo, BlockFront, BodiesStart, EncodeBody, LE;
    var writer := new Writer();
    var slots := WriteBlockRoot(b, writer);
    ghost var first, left := slots, 8 * |b.transactions|;
    BlockFrontLength(b);
    for i := 0 to |b.transactions|
      invariant fresh(writer) && first == |BlockFront(b)| && slots == first + 8 * i && first > 0
      invariant left == 8 * |b.transactions| - 8 * i
      invariant writer.data == ImageUpTo(BlockFront(b), b.transactions, i, left, BodiesStart(b))
    {
      NextTransaction(BlockFront(b), b.transactions, i, left, BodiesStart(b), writer.data, slots);
      var _ := WriteTransaction(b.transactions[i], writer, slots);
      slots, left := slots + SLOT_SIZE, left - 8;
    }
    bytes := writer.data;
    WholeBlock(b);
  }
}
