/** What the database of core/blockchain.go holds after a chain of blocks was stored in it: the
    batch each block writes, and what every key means. */
module ChainStore {
  import opened Types
  import opened Karmem
  import opened Codec
  import opened CodecRead
  import opened DbKeys
  import TransactionVerify

  type Db = map<Bytes, Bytes>

  function Get<K, V>(m: map<K, V>, k: K): Option<V> {
    if k in m then Some(m[k]) else None
  }

  /** Blocks small enough for the 32-bit offsets of the codec. */
  ghost predicate Storable(b: Block) {
    |EncodeBlock(b)| < TWO32
  }

  /** A transaction as the reader hands it out. */
  function CutTransaction(tx: Transaction): Transaction {
    Transaction(Clipped(tx.body))
  }

  /** `tx` is transaction `i` of `b`, told where it is and otherwise unchanged. */
  predicate IsPlacedAt(tx: Transaction, b: Block, i: int) {
    && 0 <= i < |b.transactions|
    && tx.body.blockHash == b.Hash() && tx.body.height == b.header.height && tx.body.index == i
    && var x := b.transactions[i].body;
       tx.body.(blockHash := x.blockHash, height := x.height, index := x.index) == x
  }

  /** The copy of a transaction that goes to the database, with its place in the chain. */
  function Placed(b: Block, i: nat): (r: Transaction)
    requires i < |b.transactions| < TWO32
    ensures IsPlacedAt(r, b, i)
  {
    var x := b.transactions[i].body;
    Transaction(x.(height := b.header.height, blockHash := b.Hash(), index := i as int64))
  }

  // ---------- the batch of one block ----------

  function Batch(db: Db, keys: seq<Bytes>, values: seq<Bytes>): Db
    requires |keys| == |values|
  {
    if keys == [] then db
    else
      var n := |keys| - 1;
      Batch(db, keys[..n], values[..n])[keys[n] := values[n]]
  }

  /** The three index entries of a block. */
  function StoreFront(db: Db, b: Block): Db {
    db[BlockHashKey(b.Hash()) := EncodeBlock(b)][LATEST := b.Hash().bytes][BlockHeightKey(b.Height()) := b.Hash().bytes]
  }

  /** The records of its first `n` transactions. */
  function StoreRecords(db: Db, b: Block, n: nat): Db
    requires n <= |b.transactions| < TWO32
  {
    if n == 0 then db
    else StoreRecords(db, b, n - 1)[TxHashKey(b.transactions[n - 1].body.hash) := EncodeTransaction(Placed(b, n - 1))]
  }

  function StoreBlock(db: Db, b: Block): Db
    requires |b.transactions| < TWO32
  {
    StoreRecords(StoreFront(db, b), b, |b.transactions|)
  }

  lemma {:induction false} BatchIsStore(db: Db, b: Block, keys: seq<Bytes>, values: seq<Bytes>, n: nat)
    requires n <= |b.transactions| < TWO32 && |keys| == |values| == n + 3
    requires keys[..3] == [BlockHashKey(b.Hash()), LATEST, BlockHeightKey(b.Height())]
    requires values[..3] == [EncodeBlock(b), b.Hash().bytes, b.Hash().bytes]
    requires forall i :: 0 <= i < n ==> keys[3 + i] == TxHashKey(b.transactions[i].body.hash)
    requires forall i :: 0 <= i < n ==> values[3 + i] == EncodeTransaction(Placed(b, i))
    ensures Batch(db, keys, values) == StoreRecords(StoreFront(db, b), b, n)
  {
    hide BlockHashKey, BlockHeightKey, TxHashKey, EncodeBlock, EncodeTransaction, Placed;
    if n == 0 {
      assert keys == [BlockHashKey(b.Hash()), LATEST, BlockHeightKey(b.Height())];
      assert keys[..2] == [BlockHashKey(b.Hash()), LATEST] && keys[..2][..1] == [BlockHashKey(b.Hash())];
      assert values == [EncodeBlock(b), b.Hash().bytes, b.Hash().bytes];
      assert values[..2] == [EncodeBlock(b), b.Hash().bytes] && values[..2][..1] == [EncodeBlock(b)];
      assert Batch(db, keys[..2][..1], values[..2][..1]) == db[BlockHashKey(b.Hash()) := EncodeBlock(b)];
    } else {
      assert keys[n + 2] == keys[3 + (n - 1)] && values[n + 2] == values[3 + (n - 1)];
      BatchIsStore(db, b, keys[..n + 2], values[..n + 2], n - 1);
    }
  }

  // ---------- what a chain means ----------

  /** The last position of a transaction with hash `h`, or -1. */
  function LastIndex(txs: seq<Transaction>, h: Hash): (i: int)
    ensures -1 <= i < |txs|
    ensures i >= 0 ==> txs[i].body.hash == h
    ensures forall j :: i < j < |txs| ==> txs[j].body.hash != h
  {
    if txs == [] then -1
    else if txs[|txs| - 1].body.hash == h then |txs| - 1
    else LastIndex(txs[..|txs| - 1], h)
  }

  function ByHash(chain: seq<Block>, h: Hash): Option<Block> {
    if chain == [] then None
    else if chain[|chain| - 1].Hash() == h then Some(chain[|chain| - 1])
    else ByHash(chain[..|chain| - 1], h)
  }

  function ByHeight(chain: seq<Block>, n: int): Option<Block> {
    if chain == [] then None
    else if chain[|chain| - 1].Height() == n then Some(chain[|chain| - 1])
    else ByHeight(chain[..|chain| - 1], n)
  }

  /** The record of a transaction: the last place it was included at. */
  function Record(chain: seq<Block>, h: Hash): Option<Transaction>
    requires Sized(chain)
  {
    if chain == [] then None
    else
      var b := chain[|chain| - 1];
      var i := LastIndex(b.transactions, h);
      if i >= 0 then Some(Placed(b, i)) else Record(chain[..|chain| - 1], h)
  }

  ghost predicate AllStorable(chain: seq<Block>) {
    forall b :: b in chain ==> Storable(b)
  }

  predicate Sized(chain: seq<Block>) {
    forall b :: b in chain ==> |b.transactions| < TWO32
  }

  function LatestHash(chain: seq<Block>): Option<Bytes> {
    if chain == [] then None else Some(chain[|chain| - 1].Hash().bytes)
  }

  /** The bytes a database storing `chain` has under key `k`. */
  function Meaning(chain: seq<Block>, k: Key): Option<Bytes>
    requires Sized(chain)
  {
    match k
    case BlockAt(h) => (match ByHash(chain, h) case Some(b) => Some(EncodeBlock(b)) case None => None)
    case HeightAt(n) => (match ByHeight(chain, n) case Some(b) => Some(b.Hash().bytes) case None => None)
    case TxAt(h) => (match Record(chain, h) case Some(tx) => Some(EncodeTransaction(tx)) case None => None)
    case Latest => LatestHash(chain)
    case DataAt(_, _) => None
  }

  /** The database stores exactly `chain`, beside whatever contract data it holds. */
  ghost predicate Matches(db: Db, chain: seq<Block>) {
    && Sized(chain)
    && forall k: Key :: !k.DataAt? ==> Get(db, Encode(k)) == Meaning(chain, k)
  }

  lemma PutAt(db: Db, j: Key, v: Bytes, k: Key)
    ensures Get(db[Encode(j) := v], Encode(k)) == if j == k then Some(v) else Get(db, Encode(k))
  {
    hide Encode;
    if Encode(j) == Encode(k) { KeysAreDistinct(j, k); }
  }

  lemma {:induction false} RecordsAt(db: Db, b: Block, n: nat, k: Key)
    requires n <= |b.transactions| < TWO32
    ensures Get(StoreRecords(db, b, n), Encode(k)) ==
      if k.TxAt? && LastIndex(b.transactions[..n], k.tx) >= 0
      then Some(EncodeTransaction(Placed(b, LastIndex(b.transactions[..n], k.tx))))
      else Get(db, Encode(k))
  {
    hide EncodeTransaction, Placed, Encode, TxHashKey, Get;
    if n > 0 {
      var h := b.transactions[n - 1].body.hash;
      RecordsAt(db, b, n - 1, k);
      TxKeyIs(h);
      PutAt(StoreRecords(db, b, n - 1), TxAt(h), EncodeTransaction(Placed(b, n - 1)), k);
      assert b.transactions[..n][..n - 1] == b.transactions[..n - 1];
    }
  }

  lemma TxKeyIs(h: Hash)
    ensures TxHashKey(h) == Encode(TxAt(h))
  {
  }

  lemma FrontAt(db: Db, b: Block, k: Key)
    ensures Get(StoreFront(db, b), Encode(k)) ==
      if k == BlockAt(b.Hash()) then Some(EncodeBlock(b))
      else if k == Latest || k == HeightAt(b.header.height) then Some(b.Hash().bytes)
      else Get(db, Encode(k))
  {
    hide Encode, EncodeBlock, BlockHashKey, BlockHeightKey, Get;
    var kb, kh, v := BlockAt(b.Hash()), HeightAt(b.header.height), b.Hash().bytes;
    FrontKeys(b);
    var db1 := db[Encode(kb) := EncodeBlock(b)];
    PutAt(db, kb, EncodeBlock(b), k);
    PutAt(db1, Latest, v, k);
    PutAt(db1[Encode(Latest) := v], kh, v, k);
  }

  lemma FrontKeys(b: Block)
    ensures BlockHashKey(b.Hash()) == Encode(BlockAt(b.Hash()))
    ensures BlockHeightKey(b.Height()) == Encode(HeightAt(b.header.height)) && LATEST == Encode(Latest)
  {
  }

  /** Storing one block extends the stored chain by it: nothing else about the chain changes. */
  lemma StoreExtends(db: Db, chain: seq<Block>, b: Block)
    requires Matches(db, chain) && |b.transactions| < TWO32
    ensures Matches(StoreBlock(db, b), chain + [b])
  {
    hide Encode, EncodeBlock, EncodeTransaction, Placed, StoreFront, StoreRecords;
    var longer := chain + [b];
    assert longer[..|chain|] == chain && longer[|longer| - 1] == b;
    forall k: Key | !k.DataAt?
      ensures Get(StoreBlock(db, b), Encode(k)) == Meaning(longer, k)
    {
      RecordsAt(StoreFront(db, b), b, |b.transactions|, k);
      assert b.transactions[..|b.transactions|] == b.transactions;
      FrontAt(db, b, k);
    }
  }

  /** A contract data record never disturbs the stored chain. */
  lemma DataDoesNotDisturb(db: Db, chain: seq<Block>, address: Bytes, key: Bytes, value: Bytes)
    requires Matches(db, chain)
    ensures Matches(db[DataKey(address, key) := value], chain)
  {
    var data := DataAt(address, key);
    assert DataKey(address, key) == Encode(data);
    hide Encode, DataKey, Meaning;
    forall k: Key | !k.DataAt?
      ensures Get(db[DataKey(address, key) := value], Encode(k)) == Meaning(chain, k)
    {
      if Encode(k) == Encode(data) { KeysAreDistinct(k, data); }
    }
  }

  // ---------- reading back ----------

  /** A block read straight from the database, no cache involved. */
  function ReadBlock(db: Db, h: Hash): Option<Block> {
    match Get(db, BlockHashKey(h))
    case None => None
    case Some(bytes) => DecodeBlock(bytes)
  }

  function ReadHashAt(db: Db, n: int): Option<Hash> {
    match Get(db, BlockHeightKey(n))
    case None => None
    case Some(bytes) => if |bytes| == 32 then Some(Hash(bytes)) else None
  }

  /** The height index followed by the block index. */
  function ReadBlockAt(db: Db, n: int): Option<Block> {
    match ReadHashAt(db, n)
    case None => None
    case Some(h) => ReadBlock(db, h)
  }

  function ReadRecord(db: Db, h: Hash): Option<Transaction> {
    match Get(db, TxHashKey(h))
    case None => None
    case Some(bytes) => DecodeTransaction(bytes)
  }

  lemma {:induction false} ByHashFinds(chain: seq<Block>, h: Hash)
    ensures match ByHash(chain, h)
      case Some(b) => b in chain && b.Hash() == h
      case None => forall b :: b in chain ==> b.Hash() != h
  {
    if chain != [] && chain[|chain| - 1].Hash() != h {
      var front := chain[..|chain| - 1];
      ByHashFinds(front, h);
      assert chain == front + [chain[|chain| - 1]];
    }
  }

  lemma {:induction false} ByHeightFinds(chain: seq<Block>, n: int)
    ensures match ByHeight(chain, n)
      case Some(b) => b in chain && b.Height() == n
      case None => forall b :: b in chain ==> b.Height() != n
  {
    if chain != [] && chain[|chain| - 1].Height() != n {
      var front := chain[..|chain| - 1];
      ByHeightFinds(front, n);
      assert chain == front + [chain[|chain| - 1]];
    }
  }

  /** A stored block as the reader hands it out. */
  function Cut(b: Option<Block>): Option<Block> {
    match b case Some(b) => Some(ClippedBlock(b)) case None => None
  }

  lemma BlockReadsTrue(db: Db, chain: seq<Block>, h: Hash)
    requires Matches(db, chain) && AllStorable(chain)
    ensures ReadBlock(db, h) == Cut(ByHash(chain, h))
  {
    hide EncodeBlock, DecodeBlock, ClippedBlock, BlockHashKey;
    ByHashFinds(chain, h);
    assert Get(db, Encode(BlockAt(h))) == Meaning(chain, BlockAt(h));
    if ByHash(chain, h).Some? { BlockReadsBack(ByHash(chain, h).value); }
  }

  lemma HashReadsTrue(db: Db, chain: seq<Block>, n: int64)
    requires Matches(db, chain)
    ensures ReadHashAt(db, n) == match ByHeight(chain, n) case Some(b) => Some(b.Hash()) case None => None
  {
    assert Get(db, Encode(HeightAt(n))) == Meaning(chain, HeightAt(n));
  }

  lemma {:induction false} RecordFinds(chain: seq<Block>, h: Hash) returns (n: nat, i: nat)
    requires Sized(chain)
    ensures match Record(chain, h)
      case Some(tx) =>
        && n < |chain| && i < |chain[n].transactions|
        && tx == Placed(chain[n], i) && chain[n].transactions[i].body.hash == h
      case None => forall b, j :: b in chain && 0 <= j < |b.transactions| ==> b.transactions[j].body.hash != h
    ensures Record(chain, h).Some? ==>
      forall m, j :: n < m < |chain| && 0 <= j < |chain[m].transactions| ==> chain[m].transactions[j].body.hash != h
    ensures Record(chain, h).Some? ==>
      forall j :: i < j < |chain[n].transactions| ==> chain[n].transactions[j].body.hash != h
  {
    hide Placed;
    n, i := 0, 0;
    if chain != [] {
      var front, b := chain[..|chain| - 1], chain[|chain| - 1];
      var last := LastIndex(b.transactions, h);
      if last >= 0 {
        n, i := |front|, last;
      } else {
        n, i := RecordFinds(front, h);
        assert chain == front + [b];
      }
    }
  }

  lemma EncodedBlockLength(b: Block)
    ensures |EncodeBlock(b)| == BodiesStart(b) + |EncodeBodies(b.transactions, BodiesStart(b))|
    ensures |b.transactions| < |EncodeBlock(b)|
  {
    hide *;
    var d, root, header, slots, bodies := BlockFrame(b);
    BlockFrontLength(b);
    assert BodiesStart(b) > 8 * |b.transactions|;
  }

  /** A stored record is never longer than the block its transaction came in. */
  lemma RecordLength(b: Block, i: nat)
    requires Storable(b) && i < |b.transactions|
    ensures |b.transactions| < TWO32 && |EncodeTransaction(Placed(b, i))| < TWO32
  {
    hide EncodeBlock, EncodeBody, EncodeBodies, BodiesStart;
    EncodedBlockLength(b);
    var x, y := b.transactions[i].body, Placed(b, i).body;
    var behind := BodyOfList(b.transactions, BodiesStart(b), i);
    var at := BodiesStart(b) + |EncodeBodies(b.transactions[..i], BodiesStart(b))|;
    TransactionVerify.EncodedLength(x, at);
    TransactionVerify.EncodedLength(y, SLOT_SIZE);
    BlockFrontLength(b);
  }

  lemma RecordRoundTrip(b: Block, i: nat)
    requires Storable(b) && i < |b.transactions| < TWO32
    ensures DecodeTransaction(EncodeTransaction(Placed(b, i))) == Some(CutTransaction(Placed(b, i)))
  {
    hide EncodeBlock, DecodeTransaction, EncodeTransaction;
    RecordLength(b, i);
    TransactionReadsBack(Placed(b, i));
  }

  /** The record of a transaction as the reader hands it out. */
  function CutRecord(chain: seq<Block>, h: Hash): Option<Transaction>
    requires Sized(chain)
  {
    match Record(chain, h) case Some(tx) => Some(CutTransaction(tx)) case None => None
  }

  lemma RecordReadsTrue(db: Db, chain: seq<Block>, h: Hash)
    requires Matches(db, chain) && AllStorable(chain)
    ensures ReadRecord(db, h) == CutRecord(chain, h)
  {
    hide Storable, DecodeTransaction, EncodeTransaction, Placed, TxHashKey, Encode, CutTransaction;
    assert Get(db, Encode(TxAt(h))) == Meaning(chain, TxAt(h));
    TxKeyIs(h);
    var n, i := RecordFinds(chain, h);
    if Record(chain, h).Some? { RecordRoundTrip(chain[n], i); }
  }

  /** A placed transaction and its block, both cut, still fit. */
  lemma CutKeepsPlace(b: Block, i: nat)
    requires i < |b.transactions| < TWO32
    ensures IsPlacedAt(CutTransaction(Placed(b, i)), ClippedBlock(b), i)
  {
    var c := ClippedTransactions(b.transactions);
    assert c[i] == Transaction(Clipped(b.transactions[i].body));
  }

  ghost predicate DistinctHashes(chain: seq<Block>) {
    forall i, j :: 0 <= i < j < |chain| ==> chain[i].Hash() != chain[j].Hash()
  }

  /** A block of a chain without repeated hashes is the one its hash finds. */
  lemma HashNames(chain: seq<Block>, n: nat)
    requires DistinctHashes(chain) && n < |chain|
    ensures ByHash(chain, chain[n].Hash()) == Some(chain[n])
  {
    ByHashFinds(chain, chain[n].Hash());
  }

  /** Transaction index agreement: a record read from the database names, by block hash, height and
      index, a block that is stored and holds a transaction with that hash at that place; and a
      missing record means no stored block holds one. */
  lemma RecordNamesStoredBlock(db: Db, chain: seq<Block>, h: Hash)
    requires Matches(db, chain) && AllStorable(chain) && DistinctHashes(chain)
    ensures match ReadRecord(db, h)
      case Some(tx) => (
        match ReadBlock(db, tx.body.blockHash)
        case Some(b) => IsPlacedAt(tx, b, tx.body.index) && tx.body.hash == h
        case None => false)
      case None => forall b, j :: b in chain && 0 <= j < |b.transactions| ==> b.transactions[j].body.hash != h
  {
    hide ReadRecord, ReadBlock, Matches, IsPlacedAt, ClippedBlock;
    RecordReadsTrue(db, chain, h);
    assert Sized(chain) by { MatchesSized(db, chain); }
    var n, i := RecordFinds(chain, h);
    if Record(chain, h).Some? {
      HashNames(chain, n);
      BlockReadsTrue(db, chain, chain[n].Hash());
      CutKeepsPlace(chain[n], i);
    }
  }

  lemma MatchesSized(db: Db, chain: seq<Block>)
    requires Matches(db, chain)
    ensures Sized(chain)
  {
  }

  /** Height, block hash and index are part of the bytes a signature covers, so the record of a
      transaction hashes to what was signed only if the sender had signed exactly that place. */
  lemma RecordKeepsPreimageExactly(b: Block, i: nat)
    requires Storable(b) && i < |b.transactions| < TWO32
    ensures var x, y := b.transactions[i].body, Placed(b, i).body;
      EncodeBody(y.(hash := Hash(Zeros(32)), signature := []), 0)
      == EncodeBody(x.(hash := Hash(Zeros(32)), signature := []), 0)
      <==> x.height == b.header.height && x.blockHash == b.Hash() && x.index == i
  {
    hide EncodeBody, EncodeBlock;
    var x, y := b.transactions[i].body, Placed(b, i).body;
    RecordLength(b, i);
    var z := y.(hash := Hash(Zeros(32)), signature := []);
    TransactionVerify.EncodedLength(z, 0);
    TransactionVerify.EncodedLength(y, SLOT_SIZE);
    assert |EncodeBody(z, 0)| <= |EncodeTransaction(Placed(b, i))|;
    TransactionVerify.PreimageDeterminesContent(y, x);
  }
}
