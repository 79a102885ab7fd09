/** The viewers of common/common_km.go as decoding functions, and the round trip. */
module CodecRead {
  import opened Types
  import opened Karmem
  import opened Codec

  // ---------- viewers ----------

  /** What a transaction body reads as at `offset` of any bytes; None where the source falls back to
      the null viewer. Signatures are cut at 73 bytes. */
  function DecodeBody(d: Bytes, offset: nat): Option<TransactionBody> {
    match TableSize(d, offset)
    case None => None
    case Some(size) => Some(TransactionBody(
      Hash(FixedAt(d, offset, size, 4, 32)),
      FixedAt(d, offset, size, 36, 20),
      FixedAt(d, offset, size, 56, 20),
      Int64At(d, offset, size, 76),
      Int64At(d, offset, size, 84),
      SliceAt(d, offset, size, 92),
      SliceAt(d, offset, size, 104),
      SliceAt(d, offset, size, 116),
      SliceAt(d, offset, size, 128),
      Int64At(d, offset, size, 140),
      Int64At(d, offset, size, 148),
      Int64At(d, offset, size, 156),
      Hash(FixedAt(d, offset, size, 164, 32)),
      Int64At(d, offset, size, 196),
      FixedAt(d, offset, size, 204, 33),
      Clip(SliceAt(d, offset, size, 237))))
  }

  function Clip(signature: Bytes): Bytes {
    if |signature| > MAX_SIGNATURE then signature[..MAX_SIGNATURE] else signature
  }

  function DecodeHeader(d: Bytes, offset: nat): Option<BlockHeader> {
    match TableSize(d, offset)
    case None => None
    case Some(size) => Some(BlockHeader(
      Int64At(d, offset, size, 4),
      Hash(FixedAt(d, offset, size, 12, 32)),
      Hash(FixedAt(d, offset, size, 44, 32)),
      Hash(FixedAt(d, offset, size, 76, 32)),
      Int64At(d, offset, size, 108),
      FixedAt(d, offset, size, 116, 33),
      SliceAt(d, offset, size, 149),
      Int64At(d, offset, size, 161)))
  }

  function DecodeTransaction(d: Bytes): Option<Transaction> {
    if !ValidOffset(d, 0, 8) then None else
    match DecodeBody(d, U32(d, 0))
    case None => None
    case Some(body) => Some(Transaction(body))
  }

  /** The transactions named by the first `n` slots at `offset`. */
  function DecodeSlots(d: Bytes, offset: nat, n: nat): (r: Option<seq<Transaction>>)
    requires offset + 8 * n <= |d|
    ensures r.Some? ==> |r.value| == n
  {
    if n == 0 then Some([]) else
    match (DecodeSlots(d, offset, n - 1), DecodeBody(d, U32(d, offset + 8 * (n - 1))))
    case (Some(front), Some(body)) => Some(front + [Transaction(body)])
    case _ => None
  }

  function DecodeTransactions(d: Bytes, size: nat): Option<seq<Transaction>>
    requires size <= |d|
  {
    if 8 + 12 > size then Some([]) else
    var o, n := U32(d, 8), U32(d, 12);
    if !ValidOffset(d, o, n) then Some([]) else DecodeSlots(d, o, n / 8)
  }

  function DecodeBlock(d: Bytes): Option<Block> {
    match TableSize(d, 0)
    case None => None
    case Some(size) =>
      if 4 + 4 > size then None else
      match (DecodeHeader(d, U32(d, 4)), DecodeTransactions(d, size))
      case (Some(header), Some(txs)) => Some(Block(header, txs))
      case _ => None
  }

  /** A body is there exactly if its size word and as many bytes as it says are. */
  lemma BodyIsReadExactly(d: Bytes, offset: nat)
    ensures DecodeBody(d, offset).None? <==> offset + 8 > |d| || offset + U32(d, offset) > |d|
    ensures DecodeHeader(d, offset).None? <==> offset + 8 > |d| || offset + U32(d, offset) > |d|
  {
  }

  /** A field that the size word leaves out reads as zero or empty, so a shorter table is no error. */
  lemma ShortBodyReadsZero(d: Bytes, offset: nat)
    requires offset + 8 <= |d| && offset + U32(d, offset) <= |d|
    ensures var size, x := U32(d, offset), DecodeBody(d, offset).value;
      && (size < 36 ==> x.hash == Hash(Zeros(32))) && (size < 56 ==> x.address == Zeros(20))
      && (size < 76 ==> x.receiver == Zeros(20)) && (size < 84 ==> x.gas == 0) && (size < 92 ==> x.nonce == 0)
      && (size < 104 ==> x.event == []) && (size < 116 ==> x.opt == []) && (size < 128 ==> x.state == [])
      && (size < 140 ==> x.data == []) && (size < 148 ==> x.expire == 0) && (size < 156 ==> x.height == 0)
      && (size < 164 ==> x.index == 0) && (size < 196 ==> x.blockHash == Hash(Zeros(32)))
      && (size < 204 ==> x.timestamp == 0) && (size < 237 ==> x.public == Zeros(33))
      && (size < 249 ==> x.signature == [])
  {
    hide U32, FromI64;
  }

  lemma ShortHeaderReadsZero(d: Bytes, offset: nat)
    requires offset + 8 <= |d| && offset + U32(d, offset) <= |d|
    ensures var size, x := U32(d, offset), DecodeHeader(d, offset).value;
      && (size < 12 ==> x.timestamp == 0) && (size < 44 ==> x.prevBlockHash == Hash(Zeros(32)))
      && (size < 76 ==> x.blockHash == Hash(Zeros(32))) && (size < 108 ==> x.merkleRoot == Hash(Zeros(32)))
      && (size < 116 ==> x.height == 0) && (size < 149 ==> x.publicKey == Zeros(33))
      && (size < 161 ==> x.params == []) && (size < 169 ==> x.gasLimit == 0)
  {
    hide U32, FromI64;
  }

  /** So does a slice whose address and length lead past the end. */
  lemma StraySliceIsEmpty(d: Bytes, offset: nat, size: nat, at: nat)
    requires offset + size <= |d| && at + 12 <= size
    requires U32(d, offset + at) + U32(d, offset + at + 4) > |d|
    ensures SliceAt(d, offset, size, at) == []
  {
  }

  // ---------- where the fields of a written body are ----------

  lemma HeadItems(x: TransactionBody, base: nat, p: seq<Bytes>)
    requires p == BodyHead(x, base)
    ensures |p| == 18 && p[0] == LE(249, 4)
    ensures p[1] == x.hash.bytes && p[2] == x.address && p[3] == x.receiver
    ensures p[4] == I64(x.gas) && p[5] == I64(x.nonce)
    ensures p[6] == LE(base, 4) && p[7] == LE(|x.event|, 4)
    ensures p[9] == LE(base + |x.event|, 4) && p[10] == LE(|x.opt|, 4)
    ensures p[12] == LE(base + |x.event| + |x.opt|, 4) && p[13] == LE(|x.state|, 4)
    ensures p[15] == LE(base + |x.event| + |x.opt| + |x.state|, 4) && p[16] == LE(|x.data|, 4)
    ensures p[8] == p[11] == p[14] == p[17] == LE(1, 4)
  {
    hide LE, I64;
  }

  /** Nine parts behind a list. */
  lemma Nine(h: seq<Bytes>, r: seq<Bytes>, p: seq<Bytes>)
    requires |r| == 9 && p == h + [r[0]] + [r[1]] + [r[2]] + [r[3]] + [r[4]] + [r[5]] + [r[6]] + [r[7]] + [r[8]]
    ensures p == h + r
  {
  }

  lemma RestItems(x: TransactionBody, base: nat, p: seq<Bytes>)
    requires p == BodyParts(x, base)
    ensures |p| == 27 && p[..18] == BodyHead(x, base)
    ensures p[18] == I64(x.expire) && p[19] == I64(x.height) && p[20] == I64(x.index)
    ensures p[21] == x.blockHash.bytes && p[22] == I64(x.timestamp) && p[23] == x.public
    ensures p[24] == LE(base + |x.event| + |x.opt| + |x.state| + |x.data|, 4)
    ensures p[25] == LE(|x.signature|, 4) && p[26] == LE(1, 4)
  {
    hide LE, I64, BodyHead;
    var h := BodyHead(x, base);
    HeadItems(x, base, h);
    var r := [I64(x.expire), I64(x.height), I64(x.index), x.blockHash.bytes, I64(x.timestamp), x.public,
              LE(base + |x.event| + |x.opt| + |x.state| + |x.data|, 4), LE(|x.signature|, 4), LE(1, 4)];
    Nine(h, r, p);
  }

  lemma HeadStarts(x: TransactionBody, base: nat, p: seq<Bytes>)
    requires p == BodyHead(x, base)
    ensures |p| == 18 && Start(p, 1) == 4 && Start(p, 2) == 36 && Start(p, 3) == 56 && Start(p, 4) == 76
    ensures Start(p, 5) == 84
    ensures Start(p, 6) == 92 && Start(p, 7) == 96 && Start(p, 8) == 100 && Start(p, 9) == 104 && Start(p, 10) == 108
    ensures Start(p, 11) == 112 && Start(p, 12) == 116 && Start(p, 13) == 120 && Start(p, 14) == 124
    ensures Start(p, 15) == 128 && Start(p, 16) == 132
    ensures Start(p, 0) == 0 && Start(p, 17) == 136 && Start(p, 18) == 140
  {
    HeadItems(x, base, p);
    hide BodyHead, LE, I64;
    assert Start(p, 1) == 4 && Start(p, 2) == 36 && Start(p, 3) == 56 && Start(p, 4) == 76 && Start(p, 5) == 84;
    assert Start(p, 6) == 92 && Start(p, 7) == 96 && Start(p, 8) == 100 && Start(p, 9) == 104 && Start(p, 10) == 108;
    assert Start(p, 11) == 112 && Start(p, 12) == 116 && Start(p, 13) == 120;
    assert Start(p, 14) == 124 && Start(p, 15) == 128;
    assert Start(p, 16) == 132 && Start(p, 17) == 136;
  }

  /** Bytes `s` to `s + n` behind the prefix are part `i` of the table. */
  lemma Reads(d: Bytes, pre: Bytes, p: seq<Bytes>, post: Bytes, i: nat, s: nat, n: nat)
    requires d == pre + Flat(p) + post && i < |p| && Start(p, i) == s && |p[i]| == n
    ensures |pre| + s + n <= |d| && d[|pre| + s..|pre| + s + n] == p[i]
  {
    PartIn(d, pre, p, post, i);
  }

  lemma ReadsWord(d: Bytes, pre: Bytes, p: seq<Bytes>, post: Bytes, i: nat, s: nat, v: nat)
    requires d == pre + Flat(p) + post && i < |p| && Start(p, i) == s && p[i] == LE(v, 4) && v < TWO32
    ensures |pre| + s + 4 <= |d| && U32(d, |pre| + s) == v
  {
    PartIn(d, pre, p, post, i);
    Word32(v);
  }

  lemma TailItems(x: TransactionBody)
    ensures var p := BodyTail(x);
      |p| == 5 && p[0] == x.event && p[1] == x.opt && p[2] == x.state && p[3] == x.data && p[4] == x.signature
  {
  }

  lemma TailStarts(x: TransactionBody)
    ensures var p := BodyTail(x);
      && |p| == 5 && Start(p, 0) == 0 && Start(p, 1) == |x.event|
      && Start(p, 2) == |x.event| + |x.opt| && Start(p, 3) == |x.event| + |x.opt| + |x.state|
      && Start(p, 4) == |x.event| + |x.opt| + |x.state| + |x.data|
      && Start(p, 5) == |x.event| + |x.opt| + |x.state| + |x.data| + |x.signature|
  {
    hide BodyTail;
    var p := BodyTail(x);
    TailItems(x);
    assert Start(p, 1) == |x.event|;
    assert Start(p, 2) == |x.event| + |x.opt|;
    assert Start(p, 3) == |x.event| + |x.opt| + |x.state|;
    assert Start(p, 4) == |x.event| + |x.opt| + |x.state| + |x.data|;
  }

  /** The five slices behind a body table. */
  lemma TailReads(d: Bytes, pre: Bytes, x: TransactionBody, post: Bytes, base: nat)
    requires d == pre + Flat(BodyTail(x)) + post && base == |pre|
    ensures var o1 := base + |x.event|; var o2 := o1 + |x.opt|; var o3 := o2 + |x.state|; var o4 := o3 + |x.data|;
      && o4 + |x.signature| <= |d|
      && d[base..o1] == x.event && d[o1..o2] == x.opt && d[o2..o3] == x.state && d[o3..o4] == x.data
      && d[o4..o4 + |x.signature|] == x.signature
  {
    hide BodyTail, Start, Flat;
    var p := BodyTail(x);
    TailItems(x);
    TailStarts(x);
    var n1, n2, n3 := |x.event|, |x.event| + |x.opt|, |x.event| + |x.opt| + |x.state|;
    Reads(d, pre, p, post, 0, 0, |x.event|);
    Reads(d, pre, p, post, 1, n1, |x.opt|);
    Reads(d, pre, p, post, 2, n2, |x.state|);
    Reads(d, pre, p, post, 3, n3, |x.data|);
    Reads(d, pre, p, post, 4, n3 + |x.data|, |x.signature|);
  }

  lemma HeadFields(d: Bytes, pre: Bytes, p: seq<Bytes>, x: TransactionBody, at: nat, post: Bytes)
    requires d == pre + Flat(p) + post && at == |pre| && p == BodyHead(x, at + BODY_SIZE)
    ensures at + 140 <= |d|
    ensures U32(d, at) == 249
    ensures d[at + 4..at + 36] == x.hash.bytes && d[at + 36..at + 56] == x.address
    ensures d[at + 56..at + 76] == x.receiver
    ensures d[at + 76..at + 84] == I64(x.gas) && d[at + 84..at + 92] == I64(x.nonce)
  {
    hide BodyHead, LE, I64, Flat, Start;
    HeadItems(x, at + BODY_SIZE, p);
    HeadStarts(x, at + BODY_SIZE, p);
    ReadsWord(d, pre, p, post, 0, 0, 249);
    Reads(d, pre, p, post, 17, 136, 4);
    Reads(d, pre, p, post, 1, 4, 32);
    Reads(d, pre, p, post, 2, 36, 20);
    Reads(d, pre, p, post, 3, 56, 20);
    Reads(d, pre, p, post, 4, 76, 8);
    Reads(d, pre, p, post, 5, 84, 8);
  }

  lemma HeadWords(d: Bytes, pre: Bytes, p: seq<Bytes>, x: TransactionBody, at: nat, post: Bytes)
    requires d == pre + Flat(p) + post && at == |pre| && p == BodyHead(x, at + BODY_SIZE)
    requires at + BODY_SIZE + |x.event| + |x.opt| < TWO32
    ensures at + 116 <= |d|
    ensures U32(d, at + 92) == at + 256 && U32(d, at + 96) == |x.event| && U32(d, at + 100) == 1
    ensures U32(d, at + 104) == at + 256 + |x.event| && U32(d, at + 108) == |x.opt| && U32(d, at + 112) == 1
  {
    hide BodyHead, LE, I64, Flat, Start, U32;
    HeadItems(x, at + BODY_SIZE, p);
    HeadStarts(x, at + BODY_SIZE, p);
    var base := at + BODY_SIZE;
    ReadsWord(d, pre, p, post, 6, 92, base);
    ReadsWord(d, pre, p, post, 7, 96, |x.event|);
    ReadsWord(d, pre, p, post, 9, 104, base + |x.event|);
    ReadsWord(d, pre, p, post, 10, 108, |x.opt|);
    ReadsWord(d, pre, p, post, 8, 100, 1);
    ReadsWord(d, pre, p, post, 11, 112, 1);
  }

  lemma MoreHeadWords(d: Bytes, pre: Bytes, p: seq<Bytes>, x: TransactionBody, at: nat, post: Bytes)
    requires d == pre + Flat(p) + post && at == |pre| && p == BodyHead(x, at + BODY_SIZE)
    requires at + BODY_SIZE + |x.event| + |x.opt| + |x.state| + |x.data| < TWO32
    ensures at + 140 <= |d|
    ensures U32(d, at + 116) == at + 256 + |x.event| + |x.opt| && U32(d, at + 120) == |x.state|
    ensures U32(d, at + 128) == at + 256 + |x.event| + |x.opt| + |x.state| && U32(d, at + 132) == |x.data|
    ensures U32(d, at + 124) == 1 && U32(d, at + 136) == 1
  {
    hide BodyHead, LE, I64, Flat, Start, U32;
    HeadItems(x, at + BODY_SIZE, p);
    HeadStarts(x, at + BODY_SIZE, p);
    var base := at + BODY_SIZE;
    ReadsWord(d, pre, p, post, 12, 116, base + |x.event| + |x.opt|);
    ReadsWord(d, pre, p, post, 13, 120, |x.state|);
    ReadsWord(d, pre, p, post, 15, 128, base + |x.event| + |x.opt| + |x.state|);
    ReadsWord(d, pre, p, post, 16, 132, |x.data|);
    ReadsWord(d, pre, p, post, 14, 124, 1);
    ReadsWord(d, pre, p, post, 17, 136, 1);
  }

  lemma RestFields(d: Bytes, pre: Bytes, p: seq<Bytes>, x: TransactionBody, at: nat, post: Bytes)
    requires d == pre + Flat(p) + post && at == |pre| && p == BodyParts(x, at + BODY_SIZE)
    requires at + BODY_SIZE + |x.event| + |x.opt| + |x.state| + |x.data| + |x.signature| < TWO32
    ensures at + 249 <= |d| && |Flat(p)| == 249
    ensures d[at + 140..at + 148] == I64(x.expire) && d[at + 148..at + 156] == I64(x.height)
    ensures d[at + 156..at + 164] == I64(x.index) && d[at + 164..at + 196] == x.blockHash.bytes
    ensures d[at + 196..at + 204] == I64(x.timestamp) && d[at + 204..at + 237] == x.public
    ensures U32(d, at + 237) == at + 256 + |x.event| + |x.opt| + |x.state| + |x.data|
    ensures U32(d, at + 241) == |x.signature| && U32(d, at + 245) == 1
  {
    hide BodyParts, BodyHead, LE, I64, Flat, Start, U32;
    RestItems(x, at + BODY_SIZE, p);
    RestStarts(x, at + BODY_SIZE, p);
    FlatLength(p);
    ReadsWord(d, pre, p, post, 26, 245, 1);
    Reads(d, pre, p, post, 18, 140, 8);
    Reads(d, pre, p, post, 19, 148, 8);
    Reads(d, pre, p, post, 20, 156, 8);
    Reads(d, pre, p, post, 21, 164, 32);
    Reads(d, pre, p, post, 22, 196, 8);
    Reads(d, pre, p, post, 23, 204, 33);
    ReadsWord(d, pre, p, post, 24, 237, at + BODY_SIZE + |x.event| + |x.opt| + |x.state| + |x.data|);
    ReadsWord(d, pre, p, post, 25, 241, |x.signature|);
  }

  lemma RestStarts(x: TransactionBody, base: nat, p: seq<Bytes>)
    requires p == BodyParts(x, base)
    ensures |p| == 27 && Start(p, 18) == 140 && Start(p, 19) == 148 && Start(p, 20) == 156 && Start(p, 21) == 164
    ensures Start(p, 22) == 196 && Start(p, 23) == 204 && Start(p, 24) == 237 && Start(p, 25) == 241
    ensures Start(p, 26) == 245 && Start(p, 27) == 249
  {
    RestItems(x, base, p);
    HeadStarts(x, base, BodyHead(x, base));
    hide BodyParts, BodyHead, LE, I64;
    StartOfPrefix(p, p[..18], 18);
    assert Start(p, 19) == 148 && Start(p, 20) == 156 && Start(p, 21) == 164 && Start(p, 22) == 196;
    assert Start(p, 23) == 204 && Start(p, 24) == 237 && Start(p, 25) == 241 && Start(p, 26) == 245;
  }

  /** A concatenation starts with the concatenation of its first parts. */
  lemma {:induction false} FlatPrefix(p: seq<Bytes>, k: nat) returns (rest: Bytes)
    requires k <= |p|
    ensures Flat(p) == Flat(p[..k]) + rest
  {
    if k == |p| {
      rest := [];
      assert p[..k] == p;
    } else {
      var front := p[..|p| - 1];
      rest := FlatPrefix(front, k);
      assert front[..k] == p[..k];
      rest := rest + p[|p| - 1];
    }
  }

  // ---------- the round trip ----------

  /** What a body reads back as: itself, with its signature cut at 73 bytes. */
  function Clipped(x: TransactionBody): TransactionBody {
    x.(signature := Clip(x.signature))
  }

  lemma SliceReads(d: Bytes, offset: nat, size: nat, at: nat, o: nat, b: Bytes)
    requires offset + size <= |d| && at + 12 <= size && U32(d, offset + at) == o && U32(d, offset + at + 4) == |b|
    requires o + |b| <= |d| && d[o..o + |b|] == b
    ensures SliceAt(d, offset, size, at) == b
  {
  }

  lemma WordsReadBack(x: TransactionBody)
    ensures FromI64(I64(x.gas)) == x.gas && FromI64(I64(x.nonce)) == x.nonce && FromI64(I64(x.expire)) == x.expire
    ensures FromI64(I64(x.height)) == x.height && FromI64(I64(x.index)) == x.index
    ensures FromI64(I64(x.timestamp)) == x.timestamp
  {
    hide FromI64, I64;
    Int64RoundTrip(x.gas);
    Int64RoundTrip(x.nonce);
    Int64RoundTrip(x.expire);
    Int64RoundTrip(x.height);
    Int64RoundTrip(x.index);
    Int64RoundTrip(x.timestamp);
  }

  /** The parts of an image with a written body in the middle. */
  lemma BodyFrame(d: Bytes, pre: Bytes, x: TransactionBody, post: Bytes)
    returns (p: seq<Bytes>, h: seq<Bytes>, rest: Bytes, behind: Bytes)
    requires d == pre + EncodeBody(x, |pre|) + post
    ensures p == BodyParts(x, |pre| + BODY_SIZE) && h == BodyHead(x, |pre| + BODY_SIZE)
    ensures d == pre + Flat(p) + behind && d == pre + Flat(h) + rest
    ensures |Flat(p)| == 249 ==>
      |pre + Flat(p) + Zeros(7)| == |pre| + BODY_SIZE && d == (pre + Flat(p) + Zeros(7)) + Flat(BodyTail(x)) + post
  {
    hide *;
    var at := |pre|;
    BodyIs(x, at);
    p, h := BodyParts(x, at + BODY_SIZE), BodyHead(x, at + BODY_SIZE);
    RestItems(x, at + BODY_SIZE, p);
    var t, z := Flat(BodyTail(x)), Zeros(7);
    behind := z + t + post;
    Regroup(pre, Flat(p), z, t, post);
    rest := FlatPrefix(p, 18);
    Extend(pre, Flat(h), rest, behind);
    rest := rest + behind;
  }

  lemma BodyIs(x: TransactionBody, at: nat)
    ensures EncodeBody(x, at) == Flat(BodyParts(x, at + BODY_SIZE)) + Zeros(7) + Flat(BodyTail(x)) && BODY_SIZE == 256
  {
    hide Flat, BodyParts, BodyTail, Zeros;
  }

  lemma Extend(a: Bytes, b: Bytes, c: Bytes, d: Bytes)
    ensures a + (b + c) + d == a + b + (c + d)
  {
  }

  lemma Regroup(a: Bytes, b: Bytes, c: Bytes, d: Bytes, e: Bytes)
    ensures a + (b + c + d) + e == a + b + (c + d + e)
    ensures a + (b + c + d) + e == (a + b + c) + d + e
  {
  }

  /** The five slices of a written body. */
  lemma BodySlices(d: Bytes, at: nat, x: TransactionBody)
    requires var base := at + BODY_SIZE;
      var o1 := base + |x.event|; var o2 := o1 + |x.opt|; var o3 := o2 + |x.state|; var o4 := o3 + |x.data|;
      && at + 249 <= |d| && o4 + |x.signature| <= |d|
      && d[base..o1] == x.event && d[o1..o2] == x.opt && d[o2..o3] == x.state && d[o3..o4] == x.data
      && d[o4..o4 + |x.signature|] == x.signature
      && U32(d, at + 92) == base && U32(d, at + 96) == |x.event|
      && U32(d, at + 104) == o1 && U32(d, at + 108) == |x.opt|
      && U32(d, at + 116) == o2 && U32(d, at + 120) == |x.state|
      && U32(d, at + 128) == o3 && U32(d, at + 132) == |x.data|
      && U32(d, at + 237) == o4 && U32(d, at + 241) == |x.signature|
    ensures SliceAt(d, at, 249, 92) == x.event && SliceAt(d, at, 249, 104) == x.opt
    ensures SliceAt(d, at, 249, 116) == x.state
    ensures SliceAt(d, at, 249, 128) == x.data && SliceAt(d, at, 249, 237) == x.signature
  {
    hide SliceAt, U32;
    var base := at + BODY_SIZE;
    SliceReads(d, at, 249, 92, base, x.event);
    SliceReads(d, at, 249, 104, base + |x.event|, x.opt);
    SliceReads(d, at, 249, 116, base + |x.event| + |x.opt|, x.state);
    SliceReads(d, at, 249, 128, base + |x.event| + |x.opt| + |x.state|, x.data);
    SliceReads(d, at, 249, 237, base + |x.event| + |x.opt| + |x.state| + |x.data|, x.signature);
  }

  /** A written body reads back, whatever stands before and behind it. */
  lemma BodyRoundTrip(d: Bytes, pre: Bytes, x: TransactionBody, post: Bytes)
    requires d == pre + EncodeBody(x, |pre|) + post && |d| < TWO32
    ensures DecodeBody(d, |pre|) == Some(Clipped(x))
    ensures Clipped(x) == if |x.signature| > 73 then x.(signature := x.signature[..73]) else x
  {
    hide BodyParts, BodyHead, BodyTail, Zeros, Flat, U32, I64, FromI64, EncodeBody, SliceAt;
    var at := |pre|;
    var p, h, rest, behind := BodyFrame(d, pre, x, post);
    FlatOfBody(x, at + BODY_SIZE, p);
    TailReads(d, pre + Flat(p) + Zeros(7), x, post, at + BODY_SIZE);
    HeadFields(d, pre, h, x, at, rest);
    HeadWords(d, pre, h, x, at, rest);
    MoreHeadWords(d, pre, h, x, at, rest);
    RestFields(d, pre, p, x, at, behind);
    BodySlices(d, at, x);
    WordsReadBack(x);
  }

  lemma FlatOfBody(x: TransactionBody, base: nat, p: seq<Bytes>)
    requires p == BodyParts(x, base)
    ensures |Flat(p)| == 249
  {
    RestStarts(x, base, p);
    FlatLength(p);
  }

  // ---------- headers ----------

  lemma HeaderItems(x: BlockHeader, base: nat, p: seq<Bytes>)
    requires p == HeaderParts(x, base)
    ensures |p| == 11 && p[0] == LE(169, 4) && p[1] == I64(x.timestamp)
    ensures p[2] == x.prevBlockHash.bytes && p[3] == x.blockHash.bytes && p[4] == x.merkleRoot.bytes
    ensures p[5] == I64(x.height) && p[6] == x.publicKey && p[7] == LE(base, 4) && p[8] == LE(|x.params|, 4)
    ensures p[9] == LE(1, 4) && p[10] == I64(x.gasLimit)
  {
    hide LE, I64;
  }

  lemma HeaderStarts(x: BlockHeader, base: nat, p: seq<Bytes>)
    requires p == HeaderParts(x, base)
    ensures |p| == 11 && Start(p, 0) == 0 && Start(p, 1) == 4 && Start(p, 2) == 12 && Start(p, 3) == 44
    ensures Start(p, 4) == 76
    ensures Start(p, 5) == 108 && Start(p, 6) == 116 && Start(p, 7) == 149 && Start(p, 8) == 153
    ensures Start(p, 9) == 157 && Start(p, 10) == 161
    ensures |Flat(p)| == 169
  {
    HeaderItems(x, base, p);
    hide HeaderParts, LE, I64, Flat;
    assert Start(p, 1) == 4 && Start(p, 2) == 12 && Start(p, 3) == 44 && Start(p, 4) == 76 && Start(p, 5) == 108;
    assert Start(p, 6) == 116 && Start(p, 7) == 149 && Start(p, 8) == 153 && Start(p, 9) == 157 && Start(p, 10) == 161;
    assert Start(p, 11) == 169;
    FlatLength(p);
  }

  lemma HeaderFields(d: Bytes, pre: Bytes, p: seq<Bytes>, x: BlockHeader, at: nat, post: Bytes)
    requires d == pre + Flat(p) + post && at == |pre| && p == HeaderParts(x, at + HEADER_SIZE)
    requires at + HEADER_SIZE + |x.params| < TWO32
    ensures at + 169 <= |d| && U32(d, at) == 169
    ensures d[at + 4..at + 12] == I64(x.timestamp) && d[at + 12..at + 44] == x.prevBlockHash.bytes
    ensures d[at + 44..at + 76] == x.blockHash.bytes && d[at + 76..at + 108] == x.merkleRoot.bytes
    ensures d[at + 108..at + 116] == I64(x.height) && d[at + 116..at + 149] == x.publicKey
    ensures d[at + 161..at + 169] == I64(x.gasLimit)
    ensures U32(d, at + 149) == at + 176 && U32(d, at + 153) == |x.params| && U32(d, at + 157) == 1
  {
    hide HeaderParts, LE, I64, Flat, Start, U32;
    HeaderItems(x, at + HEADER_SIZE, p);
    HeaderStarts(x, at + HEADER_SIZE, p);
    Reads(d, pre, p, post, 10, 161, 8);
    ReadsWord(d, pre, p, post, 0, 0, 169);
    Reads(d, pre, p, post, 1, 4, 8);
    Reads(d, pre, p, post, 2, 12, 32);
    Reads(d, pre, p, post, 3, 44, 32);
    Reads(d, pre, p, post, 4, 76, 32);
    Reads(d, pre, p, post, 5, 108, 8);
    Reads(d, pre, p, post, 6, 116, 33);
    ReadsWord(d, pre, p, post, 7, 149, at + HEADER_SIZE);
    ReadsWord(d, pre, p, post, 8, 153, |x.params|);
    ReadsWord(d, pre, p, post, 9, 157, 1);
  }

  lemma HeaderFrame(d: Bytes, pre: Bytes, x: BlockHeader, post: Bytes) returns (p: seq<Bytes>, rest: Bytes)
    requires d == pre + EncodeHeader(x, |pre|) + post
    ensures p == HeaderParts(x, |pre| + HEADER_SIZE) && d == pre + Flat(p) + rest
    ensures var o := |pre| + HEADER_SIZE; o + |x.params| <= |d| && d[o..o + |x.params|] == x.params
  {
    p := HeaderParts(x, |pre| + HEADER_SIZE);
    HeaderStarts(x, |pre| + HEADER_SIZE, p);
    hide HeaderParts, Zeros;
    Regroup(pre, Flat(p), Zeros(7), x.params, post);
    rest := Zeros(7) + x.params + post;
    assert Flat([x.params]) == x.params;
    SliceOfMiddle(pre + Flat(p) + Zeros(7), x.params, post, 0, |x.params|);
  }

  lemma HeaderRoundTrip(d: Bytes, pre: Bytes, x: BlockHeader, post: Bytes)
    requires d == pre + EncodeHeader(x, |pre|) + post && |d| < TWO32
    ensures DecodeHeader(d, |pre|) == Some(x)
  {
    hide HeaderParts, Zeros, Flat, U32, I64, FromI64, EncodeHeader, SliceAt;
    var at := |pre|;
    var p, rest := HeaderFrame(d, pre, x, post);
    HeaderFields(d, pre, p, x, at, rest);
    SliceReads(d, at, 169, 149, at + HEADER_SIZE, x.params);
    Int64RoundTrip(x.timestamp);
    Int64RoundTrip(x.height);
    Int64RoundTrip(x.gasLimit);
  }

  // ---------- blocks ----------

  function ClippedTransactions(txs: seq<Transaction>): (r: seq<Transaction>)
    ensures |r| == |txs|
  {
    seq(|txs|, i requires 0 <= i < |txs| => Transaction(Clipped(txs[i].body)))
  }

  /** Body `i` of a list stands at the address its slot names. */
  lemma {:induction false} BodyOfList(txs: seq<Transaction>, at: nat, i: nat) returns (behind: Bytes)
    requires i < |txs|
    ensures var front := EncodeBodies(txs[..i], at);
      EncodeBodies(txs, at) == front + EncodeBody(txs[i].body, at + |front|) + behind
  {
    hide EncodeBody;
    var n := |txs| - 1;
    if i == n {
      behind := [];
    } else {
      behind := BodyOfList(txs[..n], at, i);
      assert txs[..n][..i] == txs[..i];
      behind := behind + EncodeBody(txs[n].body, at + |EncodeBodies(txs[..n], at)|);
    }
  }

  /** Slot `i` of a list holds the address of body `i`. */
  lemma {:induction false} SlotOfList(txs: seq<Transaction>, at: nat, i: nat) returns (rest: Bytes)
    requires i < |txs|
    ensures EncodeSlots(txs, at) == EncodeSlots(txs[..i], at) + LE(at + |EncodeBodies(txs[..i], at)|, 4) + rest
  {
    hide EncodeBodies, LE, Zeros;
    var n := |txs| - 1;
    if i == n {
      rest := Zeros(4);
    } else {
      rest := SlotOfList(txs[..n], at, i);
      assert txs[..n][..i] == txs[..i];
      rest := rest + (LE(at + |EncodeBodies(txs[..n], at)|, 4) + Zeros(4));
    }
  }

  lemma Middle(a: Bytes, b: Bytes, c: Bytes, d: Bytes, e: Bytes)
    ensures a + (b + c + d) + e == (a + b) + c + (d + e)
  {
  }

  lemma Assoc3(a: Bytes, b: Bytes, c: Bytes, d: Bytes)
    ensures a + (b + c + d) == (a + b) + c + d
  {
  }

  lemma Regions(r: Bytes, z: Bytes, h: Bytes, s: Bytes, b: Bytes)
    ensures r + z + h + s + b == r + (z + h + s + b)
    ensures r + z + h + s + b == (r + z) + h + (s + b)
  {
  }

  lemma BodyInBlock(d: Bytes, front: Bytes, txs: seq<Transaction>, at: nat, i: nat, start: nat)
    requires d == front + EncodeBodies(txs, at) && at == |front|
    requires i < |txs| && |d| < TWO32 && start == at + |EncodeBodies(txs[..i], at)|
    ensures start <= |d| && DecodeBody(d, start) == Some(Clipped(txs[i].body))
  {
    hide *;
    var before := EncodeBodies(txs[..i], at);
    var behind := BodyOfList(txs, at, i);
    var body := EncodeBody(txs[i].body, start);
    Assoc3(front, before, body, behind);
    BodyRoundTrip(d, front + before, txs[i].body, behind);
  }

  lemma WordIs(d: Bytes, at: nat, v: nat)
    requires at + 4 <= |d| && d[at..at + 4] == LE(v, 4) && v < TWO32
    ensures U32(d, at) == v
  {
    Word32(v);
  }

  lemma SlotInBlock(d: Bytes, front: Bytes, txs: seq<Transaction>, at: nat, i: nat, rest: Bytes, start: nat)
    requires d == front + EncodeSlots(txs, at) + rest && i < |txs|
    requires start == at + |EncodeBodies(txs[..i], at)| && start < TWO32
    ensures |front| + 8 * i + 4 <= |d| && U32(d, |front| + 8 * i) == start
  {
    hide *;
    var slots := EncodeSlots(txs[..i], at);
    assert |slots| == 8 * i;
    var behind := SlotOfList(txs, at, i);
    var word := LE(start, 4);
    Middle(front, slots, word, behind, rest);
    SliceOfMiddle(front + slots, word, behind + rest, 0, 4);
    WordIs(d, |front| + 8 * i, start);
  }

  lemma TransactionOfList(d: Bytes, front: Bytes, txs: seq<Transaction>, at: nat, i: nat)
    requires d == front + EncodeSlots(txs, at) + EncodeBodies(txs, at) && at == |front| + 8 * |txs|
    requires i < |txs| && |d| < TWO32
    ensures |front| + 8 * i + 4 <= |d| && DecodeBody(d, U32(d, |front| + 8 * i)) == Some(Clipped(txs[i].body))
  {
    var start := at + |EncodeBodies(txs[..i], at)|;
    assert |EncodeSlots(txs, at)| == 8 * |txs|;
    hide EncodeBodies, EncodeSlots, DecodeBody, Clipped, U32;
    BodyInBlock(d, front + EncodeSlots(txs, at), txs, at, i, start);
    SlotInBlock(d, front, txs, at, i, EncodeBodies(txs, at), start);
  }

  lemma {:induction false} SlotsRoundTrip(d: Bytes, front: Bytes, txs: seq<Transaction>, at: nat, n: nat)
    requires d == front + EncodeSlots(txs, at) + EncodeBodies(txs, at) && at == |front| + 8 * |txs|
    requires n <= |txs| && |d| < TWO32 && |front| + 8 * n <= |d|
    ensures DecodeSlots(d, |front|, n) == Some(ClippedTransactions(txs)[..n])
  {
    hide EncodeBodies, EncodeSlots, DecodeBody, U32, Clipped;
    if n > 0 {
      SlotsRoundTrip(d, front, txs, at, n - 1);
      TransactionOfList(d, front, txs, at, n - 1);
      var all := ClippedTransactions(txs);
      assert all[..n] == all[..n - 1] + [all[n - 1]];
    }
  }

  lemma BlockItems(b: Block, d: Bytes, post: Bytes)
    requires d == Flat(BlockParts(b)) + post && |d| < TWO32
    requires BLOCK_SIZE + |EncodeHeader(b.header, BLOCK_SIZE)| + 8 * |b.transactions| < TWO32
    ensures 20 <= |d| && U32(d, 0) == 20 && U32(d, 4) == 24 && U32(d, 12) == 8 * |b.transactions| && U32(d, 16) == 8
    ensures U32(d, 8) == 24 + |EncodeHeader(b.header, BLOCK_SIZE)|
  {
    hide EncodeHeader, LE, Flat, U32;
    var p := BlockParts(b);
    assert Start(p, 0) == 0 && Start(p, 1) == 4 && Start(p, 2) == 8 && Start(p, 3) == 12 && Start(p, 4) == 16;
    assert d == [] + Flat(p) + post;
    ReadsWord(d, [], p, post, 4, 16, 8);
    ReadsWord(d, [], p, post, 0, 0, 20);
    ReadsWord(d, [], p, post, 1, 4, BLOCK_SIZE);
    ReadsWord(d, [], p, post, 2, 8, BLOCK_SIZE + |EncodeHeader(b.header, BLOCK_SIZE)|);
    ReadsWord(d, [], p, post, 3, 12, 8 * |b.transactions|);
  }

  function ClippedBlock(b: Block): Block {
    b.(transactions := ClippedTransactions(b.transactions))
  }

  lemma BlockIs(b: Block)
    ensures BlockFront(b) == Flat(BlockParts(b)) + Zeros(4) + EncodeHeader(b.header, BLOCK_SIZE)
    ensures EncodeBlock(b) == Flat(BlockParts(b)) + Zeros(4) + EncodeHeader(b.header, BLOCK_SIZE)
         + EncodeSlots(b.transactions, BodiesStart(b)) + EncodeBodies(b.transactions, BodiesStart(b))
  {
    hide EncodeHeader, EncodeSlots, EncodeBodies, BlockParts, Flat, Zeros;
  }

  /** A block image split at each of its four regions. */
  lemma BlockFrame(b: Block) returns (d: Bytes, root: Bytes, header: Bytes, slots: Bytes, bodies: Bytes)
    ensures d == EncodeBlock(b) && root == Flat(BlockParts(b)) && header == EncodeHeader(b.header, BLOCK_SIZE)
    ensures slots == EncodeSlots(b.transactions, BodiesStart(b))
    ensures bodies == EncodeBodies(b.transactions, BodiesStart(b))
    ensures |root| == 20 && |d| == BodiesStart(b) + |bodies| && BlockFront(b) == root + Zeros(4) + header
    ensures d == root + (Zeros(4) + header + slots + bodies)
    ensures d == (root + Zeros(4)) + header + (slots + bodies)
    ensures d == BlockFront(b) + slots + bodies
  {
    hide *;
    BlockFrontLength(b);
    BlockIs(b);
    d, root, header := EncodeBlock(b), Flat(BlockParts(b)), EncodeHeader(b.header, BLOCK_SIZE);
    slots, bodies := EncodeSlots(b.transactions, BodiesStart(b)), EncodeBodies(b.transactions, BodiesStart(b));
    Regions(root, Zeros(4), header, slots, bodies);
  }

  lemma HeaderOfBlock(b: Block)
    requires |EncodeBlock(b)| < TWO32
    ensures DecodeHeader(EncodeBlock(b), BLOCK_SIZE) == Some(b.header)
  {
    var d, root, header, slots, bodies := BlockFrame(b);
    hide EncodeHeader, EncodeSlots, EncodeBodies, DecodeHeader, BlockParts, Flat, EncodeBlock;
    HeaderRoundTrip(d, root + Zeros(4), b.header, slots + bodies);
  }

  lemma TransactionsOfBlock(b: Block)
    requires |EncodeBlock(b)| < TWO32
    ensures |BlockFront(b)| + 8 * |b.transactions| <= |EncodeBlock(b)|
    ensures DecodeSlots(EncodeBlock(b), |BlockFront(b)|, |b.transactions|) == Some(ClippedTransactions(b.transactions))
  {
    var d, root, header, slots, bodies := BlockFrame(b);
    BlockFrontLength(b);
    hide EncodeHeader, EncodeSlots, EncodeBodies, DecodeSlots, BlockFront, EncodeBlock, BodiesStart;
    hide ClippedTransactions;
    SlotsRoundTrip(d, BlockFront(b), b.transactions, BodiesStart(b), |b.transactions|);
    var all := ClippedTransactions(b.transactions);
    assert all[..|all|] == all;
  }

  /** The central law of the codec: every block under 4 GiB reads back with every field and every
      transaction, except that signatures are cut at 73 bytes. */
  lemma BlockReadsBack(b: Block)
    requires |EncodeBlock(b)| < TWO32
    ensures DecodeBlock(EncodeBlock(b)) == Some(ClippedBlock(b))
  {
    hide EncodeHeader, EncodeSlots, EncodeBodies, DecodeHeader, DecodeSlots, BlockParts, Flat, U32, EncodeBlock;
    hide ClippedTransactions;
    var d, root, header, slots, bodies := BlockFrame(b);
    BlockFrontLength(b);
    BlockItems(b, d, Zeros(4) + header + slots + bodies);
    HeaderOfBlock(b);
    TransactionsOfBlock(b);
    assert (8 * |b.transactions|) / 8 == |b.transactions|;
  }

  ghost predicate ShortSignatures(b: Block) {
    forall i :: 0 <= i < |b.transactions| ==> |b.transactions[i].body.signature| <= MAX_SIGNATURE
  }

  /** Cutting changes exactly the blocks with a signature over 73 bytes, and of those nothing else. */
  lemma CutExactly(b: Block)
    ensures ClippedBlock(b) == b <==> ShortSignatures(b)
    ensures ClippedBlock(b).header == b.header && |ClippedBlock(b).transactions| == |b.transactions|
    ensures ShortSignatures(ClippedBlock(b))
  {
    var c := ClippedTransactions(b.transactions);
    if ShortSignatures(b) {
      assert c == b.transactions;
    } else {
      var i :| 0 <= i < |b.transactions| && |b.transactions[i].body.signature| > MAX_SIGNATURE;
      assert c[i].body.signature != b.transactions[i].body.signature;
    }
  }

  lemma {:induction false} SlotsAreShort(d: Bytes, offset: nat, n: nat)
    requires offset + 8 * n <= |d| && DecodeSlots(d, offset, n).Some?
    ensures forall i :: 0 <= i < n ==> |DecodeSlots(d, offset, n).value[i].body.signature| <= MAX_SIGNATURE
  {
    hide U32, SliceAt;
    if n > 0 { SlotsAreShort(d, offset, n - 1); }
  }

  /** Whatever bytes a block was read from, its signatures are short: so are those of every block that
      came off the wire. */
  lemma DecodedIsShort(d: Bytes)
    requires DecodeBlock(d).Some?
    ensures ShortSignatures(DecodeBlock(d).value)
  {
    hide U32, DecodeHeader, DecodeSlots;
    var size := TableSize(d, 0).value;
    if 8 + 12 <= size && ValidOffset(d, U32(d, 8), U32(d, 12)) { SlotsAreShort(d, U32(d, 8), U32(d, 12) / 8); }
  }

  /** Exactly the blocks with no signature over 73 bytes survive a round trip. */
  lemma BlockRoundTrip(b: Block)
    requires |EncodeBlock(b)| < TWO32
    ensures DecodeBlock(EncodeBlock(b)) == Some(b) <==>
      forall i :: 0 <= i < |b.transactions| ==> |b.transactions[i].body.signature| <= 73
  {
    hide DecodeBlock, EncodeBlock, ClippedBlock;
    BlockReadsBack(b);
    CutExactly(b);
  }

  lemma TransactionReadsBack(tx: Transaction)
    requires |EncodeTransaction(tx)| < TWO32
    ensures DecodeTransaction(EncodeTransaction(tx)) == Some(Transaction(Clipped(tx.body)))
  {
    var d, pre := EncodeTransaction(tx), LE(SLOT_SIZE, 4) + Zeros(4);
    assert d == pre + EncodeBody(tx.body, |pre|) + [];
    BodyRoundTrip(d, pre, tx.body, []);
    hide EncodeBody, DecodeBody, EncodeTransaction;
    assert d[0..4] == LE(SLOT_SIZE, 4);
    Word32(SLOT_SIZE);
  }
}
