/** The chain store of core/blockchain.go: a database behind three caches that may forget any entry
    at any time. */
module BlockChainStore {
  import opened Types
  import opened Karmem
  import opened Codec
  import opened CodecRead
  import opened DbKeys
  import opened ChainStore
  import opened Samples

  function Last(chain: seq<Block>): (b: Block)
    requires chain != []
  {
    chain[|chain| - 1]
  }

  /** Heights start at 0 or above and grow: all the height test of insertBlock guarantees. */
  predicate Rising(chain: seq<Block>) {
    && (forall i :: 0 <= i < |chain| ==> chain[i].Height() >= 0)
    && (forall i, j :: 0 <= i < j < |chain| ==> chain[i].Height() < chain[j].Height())
  }

  /** Every block but the first names its predecessor, heights count from 0, and only the first
      block is a genesis block. */
  predicate Linear(chain: seq<Block>) {
    && (forall i :: 0 <= i < |chain| ==> chain[i].Height() == i)
    && (forall i :: 0 < i < |chain| ==> chain[i].Prev() == chain[i - 1].Hash())
    && (forall i :: 0 <= i < |chain| ==> (chain[i].IsGenesis() <==> i == 0))
  }

  predicate Known(chain: seq<Block>, h: Hash) {
    exists i :: 0 <= i < |chain| && chain[i].Hash() == h
  }

  /** When insertBlock stores a block. */
  predicate Accepts(chain: seq<Block>, b: Block) {
    && !Known(chain, b.Hash())
    && (b.IsGenesis() || (chain != [] && Last(chain).Hash() == b.Prev()))
    && b.Height() > (if chain == [] then -1 else Last(chain).Height())
  }

  /** Spelled out: its hash is not stored yet, it is a genesis block or names the last block, and it is
      higher than that. */
  lemma AcceptsExactly(chain: seq<Block>, b: Block)
    ensures Accepts(chain, b) <==>
      && (forall c :: c in chain ==> c.Hash() != b.Hash())
      && (b.Prev() == Hash(Zeros(32)) || (chain != [] && chain[|chain| - 1].Hash() == b.Prev()))
      && (chain == [] ==> b.Height() >= 0) && (chain != [] ==> b.Height() > chain[|chain| - 1].Height())
  {
    forall i | 0 <= i < |chain| ensures chain[i] in chain {}
  }

  /** What the rest of the system guarantees of a block: a genesis block has height 0 and a block
      sits one above its parent. */
  predicate HeightFits(chain: seq<Block>, b: Block) {
    && (b.IsGenesis() ==> b.Height() == 0)
    && (chain != [] && b.Prev() == Last(chain).Hash() ==> b.Height() == Last(chain).Height() + 1)
  }

  /** The store never compares a height with the parent's and lets a genesis block through without a
      link test, so it keeps a linear chain from height 0 exactly on those guarantees. */
  lemma LinearExactly(chain: seq<Block>, b: Block)
    requires Linear(chain) && Accepts(chain, b)
    ensures Linear(chain + [b]) <==> HeightFits(chain, b)
  {
    var longer := chain + [b];
    assert longer[..|chain|] == chain && longer[|chain|] == b;
    if chain != [] { assert longer[|chain| - 1] == Last(chain); }
    if Linear(longer) {
      assert longer[|chain|].Height() == |chain|;
    }
  }

  /** Such heights are stored: a child of a genesis block that claims height 5. */
  lemma LinearCanBreak()
    ensures exists chain: seq<Block>, b: Block :: Linear(chain) && Accepts(chain, b) && !Linear(chain + [b])
  {
    hide SampleHash, ZERO_HASH;
    SampleHashes(0, 1);
    var chain, b := [SampleBlock(0, [])], Block(SampleHeader(5, SampleHash(0), SampleHash(1)), []);
    assert Linear(chain) && Accepts(chain, b);
    LinearExactly(chain, b);
  }

  lemma KnownIsFound(chain: seq<Block>, h: Hash)
    ensures Known(chain, h) <==> ByHash(chain, h).Some?
  {
    ByHashFinds(chain, h);
  }

  /** What the height cache should say. */
  function HashAt(chain: seq<Block>, n: int): Option<Hash> {
    match ByHeight(chain, n) case Some(b) => Some(b.Hash()) case None => None
  }

  /** What a block read from cache or database may be: the block as it was given, or cut. */
  predicate UpToCut(c: Block, b: Block) {
    c == b || c == ClippedBlock(b)
  }

  predicate Serves(r: Option<Block>, b: Option<Block>) {
    match (r, b)
    case (Some(r), Some(b)) => UpToCut(r, b)
    case (None, None) => true
    case _ => false
  }

  /** Either way it has the header of the block. */
  lemma ServesHeader(c: Block, b: Block)
    requires UpToCut(c, b)
    ensures c.header == b.header && c.Hash() == b.Hash() && c.Prev() == b.Prev() && c.Height() == b.Height()
  {
  }

  /** A record as read when the first `m` blocks were stored. */
  ghost predicate OnceRecorded(chain: seq<Block>, h: Hash, tx: Transaction)
    requires Sized(chain)
  {
    exists m :: 0 <= m <= |chain| && RecordThen(chain, m, h) == Some(tx)
  }

  function RecordThen(chain: seq<Block>, m: nat, h: Hash): Option<Transaction>
    requires Sized(chain) && m <= |chain|
  {
    CutRecord(chain[..m], h)
  }

  /** Even a stale cached record names a stored block that holds the transaction there. */
  lemma OnceRecordedNames(chain: seq<Block>, h: Hash, tx: Transaction)
    requires Sized(chain) && DistinctHashes(chain) && OnceRecorded(chain, h, tx)
    ensures match ByHash(chain, tx.body.blockHash)
      case Some(b) => IsPlacedAt(tx, ClippedBlock(b), tx.body.index) && tx.body.hash == h
      case None => false
  {
    hide Placed, IsPlacedAt, ClippedBlock;
    var m :| 0 <= m <= |chain| && RecordThen(chain, m, h) == Some(tx);
    var n, i := RecordFinds(chain[..m], h);
    HashNames(chain, n);
    CutKeepsPlace(chain[n], i);
    PlacedWhere(chain[n], i);
  }

  lemma PlacedWhere(b: Block, i: nat)
    requires i < |b.transactions| < TWO32
    ensures var x := CutTransaction(Placed(b, i)).body;
      && x.blockHash == b.Hash() && x.index == i && x.hash == b.transactions[i].body.hash
  {
  }

  ghost predicate Fresh(chain: seq<Block>, cache: map<Hash, Transaction>)
    requires Sized(chain)
  {
    forall h :: h in cache ==> CutRecord(chain, h) == Some(cache[h])
  }

  predicate Includes(b: Block, h: Hash) {
    exists i :: 0 <= i < |b.transactions| && b.transactions[i].body.hash == h
  }

  /** The transaction cache is not transparent: insertBlock replaces the record of a transaction that
      is included again but leaves the cached one. It stays transparent exactly when the new block
      repeats no cached transaction. */
  lemma StaleExactly(chain: seq<Block>, b: Block, cache: map<Hash, Transaction>)
    requires Sized(chain + [b]) && Sized(chain) && Accepts(chain, b) && Fresh(chain, cache)
    ensures Fresh(chain + [b], cache) <==> forall h :: h in cache ==> !Includes(b, h)
  {
    hide Placed, CutTransaction;
    forall h | h in cache
      ensures CutRecord(chain + [b], h) == Some(cache[h]) <==> !Includes(b, h)
    {
      GrowsRecord(chain, b, h);
      var n, i := RecordFinds(chain, h);
      if Includes(b, h) { PlacesDiffer(chain, b, n, i, LastIndex(b.transactions, h)); }
    }
  }

  lemma GrowsRecord(chain: seq<Block>, b: Block, h: Hash)
    requires Sized(chain + [b]) && Sized(chain)
    ensures LastIndex(b.transactions, h) >= 0 <==> Includes(b, h)
    ensures b in chain + [b]
    ensures Includes(b, h) ==> Record(chain + [b], h) == Some(Placed(b, LastIndex(b.transactions, h)))
    ensures !Includes(b, h) ==> Record(chain + [b], h) == Record(chain, h)
  {
    assert (chain + [b])[..|chain|] == chain && (chain + [b])[|chain|] == b;
  }

  lemma PlacesDiffer(chain: seq<Block>, b: Block, n: nat, i: nat, j: nat)
    requires !Known(chain, b.Hash()) && n < |chain| && i < |chain[n].transactions| < TWO32
    requires j < |b.transactions| < TWO32
    ensures CutTransaction(Placed(chain[n], i)) != CutTransaction(Placed(b, j))
  {
    hide Placed, CutTransaction;
    PlacedWhere(chain[n], i);
    PlacedWhere(b, j);
  }

  /** Nothing in the store forbids the repetition. */
  lemma StaleIsPossible()
    ensures exists chain: seq<Block>, b: Block, cache: map<Hash, Transaction> ::
      && Sized(chain) && Sized(chain + [b]) && Linear(chain) && Accepts(chain, b) && HeightFits(chain, b)
      && Fresh(chain, cache) && !Fresh(chain + [b], cache)
  {
    hide CutTransaction, Placed, SampleHash, ZERO_HASH;
    var tx := SAMPLE_TRANSACTION;
    var h := tx.body.hash;
    var b0, b1, b2 := SampleBlock(0, []), SampleBlock(1, [tx]), SampleBlock(2, [tx]);
    SampleHashes(0, 1);
    SampleHashes(0, 2);
    SampleHashes(1, 2);
    var chain, cache := [b0, b1], map[h := CutTransaction(Placed(b1, 0))];
    assert Last(chain) == b1 && b1.transactions[0].body.hash == h && b2.transactions[0].body.hash == h;
    assert Includes(b1, h) && Includes(b2, h);
    assert Sized([b0]);
    assert [b0] + [b1] == chain && Sized(chain) && Sized(chain + [b2]);
    GrowsRecord([b0], b1, h);
    assert Fresh(chain, cache);
    StaleExactly(chain, b2, cache);
    assert Linear(chain) && Accepts(chain, b2) && HeightFits(chain, b2);
  }

  // ---------- growth ----------

  lemma GrowsByHash(chain: seq<Block>, b: Block, h: Hash)
    ensures ByHash(chain + [b], h) == if h == b.Hash() then Some(b) else ByHash(chain, h)
  {
    assert (chain + [b])[..|chain|] == chain;
  }

  lemma GrowsHashAt(chain: seq<Block>, b: Block, n: int)
    ensures HashAt(chain + [b], n) == if n == b.Height() then Some(b.Hash()) else HashAt(chain, n)
  {
    assert (chain + [b])[..|chain|] == chain;
  }

  lemma GrowsRecorded(chain: seq<Block>, b: Block, h: Hash, tx: Transaction)
    requires Sized(chain + [b]) && Sized(chain) && OnceRecorded(chain, h, tx)
    ensures OnceRecorded(chain + [b], h, tx)
  {
    var m :| 0 <= m <= |chain| && RecordThen(chain, m, h) == Some(tx);
    assert (chain + [b])[..m] == chain[..m];
    assert RecordThen(chain + [b], m, h) == Some(tx);
  }

  // ---------- indexes of a stored chain ----------

  lemma StoredBlockIndexed(chain: seq<Block>, h: Hash)
    requires Rising(chain) && DistinctHashes(chain) && ByHash(chain, h).Some?
    ensures HashAt(chain, ByHash(chain, h).value.Height()) == Some(h)
  {
    ByHashFinds(chain, h);
    ByHeightFinds(chain, ByHash(chain, h).value.Height());
  }

  lemma HeightReadsTrue(db: Db, chain: seq<Block>, n: int64)
    requires Matches(db, chain) && AllStorable(chain) && DistinctHashes(chain)
    ensures ReadBlockAt(db, n) == Cut(ByHeight(chain, n)) && ReadHashAt(db, n) == HashAt(chain, n)
    ensures HashAt(chain, n).Some? ==> ByHash(chain, HashAt(chain, n).value) == ByHeight(chain, n)
  {
    hide Matches, AllStorable, ReadHashAt, ReadBlock, ByHash, ByHeight, ClippedBlock;
    HashReadsTrue(db, chain, n);
    ByHeightFinds(chain, n);
    if ByHeight(chain, n).Some? {
      var b := ByHeight(chain, n).value;
      var i :| 0 <= i < |chain| && chain[i] == b;
      HashNames(chain, i);
      BlockReadsTrue(db, chain, b.Hash());
    }
  }

  lemma NothingAbove(chain: seq<Block>, n: int)
    requires Rising(chain) && chain != [] && n > Last(chain).Height()
    ensures ByHeight(chain, n) == None
  {
    ByHeightFinds(chain, n);
  }

  lemma LatestReadsTrue(db: Db, chain: seq<Block>)
    requires Matches(db, chain) && DistinctHashes(chain)
    ensures LATEST in db <==> chain != []
    ensures chain != [] ==> db[LATEST] == Last(chain).Hash().bytes
    ensures chain != [] ==> ByHash(chain, Last(chain).Hash()) == Some(Last(chain))
  {
    assert Get(db, Encode(Latest)) == Meaning(chain, Latest);
  }

  lemma GrowsStored(db: Db, chain: seq<Block>, b: Block)
    requires Matches(db, chain) && AllStorable(chain) && DistinctHashes(chain) && Rising(chain)
    requires Storable(b) && Accepts(chain, b)
    ensures |b.transactions| < TWO32 && Matches(StoreBlock(db, b), chain + [b])
    ensures AllStorable(chain + [b]) && DistinctHashes(chain + [b]) && Rising(chain + [b])
  {
    hide Matches, Storable, StoreBlock;
    assert |b.transactions| < TWO32 by { StorableIsSized(b); }
    StoreExtends(db, chain, b);
  }

  lemma StorableIsSized(b: Block)
    requires Storable(b)
    ensures |b.transactions| < TWO32
  {
    EncodedBlockLength(b);
  }

  lemma EntriesStore(b: Block, keys: seq<Bytes>, values: seq<Bytes>)
    requires |b.transactions| < TWO32 && |keys| == |values| == |b.transactions| + 3
    requires keys[0] == BlockHashKey(b.Hash()) && keys[1] == LATEST && keys[2] == BlockHeightKey(b.Height())
    requires values[0] == EncodeBlock(b) && values[1] == values[2] == b.Hash().bytes
    requires forall j :: 0 <= j < |b.transactions| ==> keys[3 + j] == TxHashKey(b.transactions[j].body.hash)
    requires forall j :: 0 <= j < |b.transactions| ==> values[3 + j] == EncodeTransaction(Placed(b, j))
    ensures forall m: Db :: Batch(m, keys, values) == StoreBlock(m, b)
  {
    hide EncodeTransaction, EncodeBlock, Placed, Batch, StoreRecords, StoreFront, BlockHashKey, BlockHeightKey;
    hide TxHashKey;
    assert keys[..3] == [BlockHashKey(b.Hash()), LATEST, BlockHeightKey(b.Height())];
    assert values[..3] == [EncodeBlock(b), b.Hash().bytes, b.Hash().bytes];
    forall m: Db ensures Batch(m, keys, values) == StoreBlock(m, b) {
      BatchIsStore(m, b, keys, values, |b.transactions|);
    }
  }

  // ---------- caches ----------

  /** After an Add to an LRU cache the new entry is there, and any others may be gone. */
  ghost predicate Added<K(!new), V>(before: map<K, V>, after: map<K, V>, k: K, v: V) {
    && k in after && after[k] == v
    && forall j :: j in after && j != k ==> j in before && after[j] == before[j]
  }

  method Add<K(==, !new), V>(cache: map<K, V>, k: K, v: V) returns (r: map<K, V>)
    ensures Added(cache, r, k, v)
  {
    var evicted :| evicted <= cache.Keys;
    r := (cache - evicted)[k := v];
  }

  class BlockChain {
    var db: Db
    var blockHeightMap: map<int64, Hash>
    var blockCache: map<Hash, Block>
    var txCache: map<Hash, Transaction>
    var latestBlock: Option<Block>
    var latestHeight: int64

    /** The block the buffer was last created on, by createBlockBuffer. */
    var bufferBase: Option<Block>

    /** What the database stores. */
    ghost var chain: seq<Block>

    ghost predicate Stored()
      reads this
    {
      Matches(db, chain) && AllStorable(chain) && DistinctHashes(chain) && Rising(chain)
    }

    ghost predicate LatestOk()
      reads this
    {
      match latestBlock
      case None => latestHeight == -1
      case Some(b) => chain != [] && UpToCut(b, Last(chain)) && latestHeight == b.header.height
    }

    ghost predicate CachesOk()
      reads this
      requires Sized(chain)
    {
      && (forall h :: h in blockCache ==> Serves(Some(blockCache[h]), ByHash(chain, h)))
      && (forall n :: n in blockHeightMap ==> HashAt(chain, n) == Some(blockHeightMap[n]))
      && (forall h :: h in txCache ==> OnceRecorded(chain, h, txCache[h]))
    }

    ghost predicate Valid()
      reads this
    {
      Stored() && LatestOk() && CachesOk()
    }

    /** Every cached transaction record is the one the database has now. */
    ghost predicate TxCacheFresh()
      reads this
      requires Sized(chain)
    {
      Fresh(chain, txCache)
    }

    /** Start on a database, empty or left by an earlier run: the chain, the latest block and the
        base of the buffer are recovered. */
    constructor (db0: Db, ghost chain0: seq<Block>)
      requires Matches(db0, chain0) && AllStorable(chain0) && DistinctHashes(chain0) && Rising(chain0)
      ensures Valid() && TxCacheFresh() && db == db0 && chain == chain0
      ensures latestBlock == bufferBase && Serves(latestBlock, if chain0 == [] then None else Some(Last(chain0)))
    {
      hide Matches, AllStorable, Storable, DistinctHashes, Rising, ReadBlock, ByHash, HashAt, OnceRecorded;
      hide ReadBlockAt, ByHeight;
      db, chain := db0, chain0;
      blockHeightMap, blockCache, txCache := map[], map[], map[];
      latestBlock, latestHeight, bufferBase := None, -1, None;
      new;
      var latest := GetLatestBlock();
      if latest.Some? {
        bufferBase := latest;
        var _ := GetBlockByHeight(0);
      }
    }

    method WriteBlockCache(b: Block)
      modifies `blockHeightMap, `blockCache
      ensures Added(old(blockHeightMap), blockHeightMap, b.header.height, b.Hash())
      ensures Added(old(blockCache), blockCache, b.Hash(), b)
    {
      blockHeightMap := Add(blockHeightMap, b.header.height, b.Hash());
      blockCache := Add(blockCache, b.Hash(), b);
    }

    /** Cache transparency: whatever the cache forgot or kept, the answer is the stored block, and it is
        the database's answer unless the cache holds a block whose signatures the database cuts. */
    method GetBlockByHash(h: Hash) returns (r: Option<Block>)
      requires Valid()
      modifies `blockHeightMap, `blockCache
      ensures Valid() && Serves(r, ByHash(chain, h))
      ensures r == ReadBlock(db, h) <==> (h in old(blockCache) ==> ShortSignatures(old(blockCache[h])))
    {
      hide Matches, AllStorable, Storable, DistinctHashes, Rising, ReadBlock, ByHash, HashAt, OnceRecorded;
      hide ClippedBlock, ShortSignatures;
      BlockReadsTrue(db, chain, h);
      if h in blockCache {
        CutExactly(ByHash(chain, h).value);
        return Some(blockCache[h]);
      }
      r := ReadBlock(db, h);
      if r.Some? {
        ByHashFinds(chain, h);
        StoredBlockIndexed(chain, h);
        ServesHeader(r.value, ByHash(chain, h).value);
        WriteBlockCache(r.value);
      }
    }

    /** The same by height; heights above the latest are refused once there is a latest. */
    method GetBlockByHeight(n: int64) returns (r: Option<Block>)
      requires Valid()
      modifies `blockHeightMap, `blockCache
      ensures Valid()
      ensures var refused := n > latestHeight && latestHeight != -1; var h := ReadHashAt(db, n);
        && (refused ==> r == None)
        && (!refused ==> Serves(r, ByHeight(chain, n)))
        && (!refused ==> (r == ReadBlockAt(db, n) <==>
              (h.Some? && h.value in old(blockCache) ==> ShortSignatures(old(blockCache[h.value])))))
      ensures latestBlock.Some? ==> Serves(r, ByHeight(chain, n))
    {
      hide Matches, AllStorable, Storable, DistinctHashes, Rising, ReadBlock, ReadHashAt, ByHash, ByHeight, HashAt;
      hide OnceRecorded, ClippedBlock, ShortSignatures, Last;
      HeightReadsTrue(db, chain, n);
      if n > latestHeight && latestHeight != -1 {
        if latestBlock.Some? {
          ServesHeader(latestBlock.value, Last(chain));
          NothingAbove(chain, n);
        }
        return None;
      }
      if n in blockHeightMap {
        r := GetBlockByHash(blockHeightMap[n]);
        return;
      }
      var h := ReadHashAt(db, n);
      if h.None? {
        return None;
      }
      r := GetBlockByHash(h.value);
    }

    method GetLatestBlock() returns (r: Option<Block>)
      requires Valid()
      modifies `blockHeightMap, `blockCache, `latestBlock, `latestHeight
      ensures Valid() && r == latestBlock && Serves(r, if chain == [] then None else Some(Last(chain)))
    {
      hide Matches, AllStorable, Storable, DistinctHashes, Rising, ReadBlock, HashAt, OnceRecorded, ByHash;
      hide ClippedBlock, ShortSignatures;
      if latestBlock.Some? {
        return latestBlock;
      }
      LatestReadsTrue(db, chain);
      if LATEST !in db {
        return None;
      }
      r := GetBlockByHash(Hash(db[LATEST]));
      latestBlock, latestHeight := r, r.value.header.height;
    }

    /** A hit is answered from the cache, a miss from the database. A hit may be stale, but always
        names a stored block that holds the transaction. */
    method GetTransactionByHash(h: Hash) returns (r: Option<Transaction>)
      requires Valid()
      modifies `txCache
      ensures Valid() && r == (if h in old(txCache) then Some(old(txCache[h])) else ReadRecord(db, h))
      ensures r.Some? ==> OnceRecorded(chain, h, r.value)
      ensures old(TxCacheFresh()) ==> TxCacheFresh() && r == ReadRecord(db, h)
    {
      hide Matches, AllStorable, Storable, DistinctHashes, Rising, ByHash, HashAt, ReadRecord, Record;
      MatchesSized(db, chain);
      RecordReadsTrue(db, chain, h);
      if h in txCache {
        return Some(txCache[h]);
      }
      r := ReadRecord(db, h);
      if r.Some? {
        assert chain[..|chain|] == chain;
        assert RecordThen(chain, |chain|, h) == r;
        txCache := Add(txCache, h, r.value);
      }
    }

    /** db.BatchInsert. */
    method BatchInsert(keys: array<Bytes>, values: array<Bytes>)
      requires keys.Length == values.Length
      modifies `db
      ensures db == Batch(old(db), keys[..], values[..])
    {
      for i := 0 to keys.Length
        invariant db == Batch(old(db), keys[..i], values[..i])
      {
        assert keys[..i + 1][..i] == keys[..i] && values[..i + 1][..i] == values[..i];
        db := db[keys[i] := values[i]];
      }
      assert keys[..keys.Length] == keys[..] && values[..values.Length] == values[..];
    }

    /** From position 3 on, a record for each transaction. */
    method FillRecords(b: Block, keys: array<Bytes>, values: array<Bytes>)
      requires |b.transactions| < TWO32 && keys.Length == values.Length == |b.transactions| + 3 && keys != values
      modifies keys, values
      ensures keys[..3] == old(keys[..3]) && values[..3] == old(values[..3])
      ensures forall j :: 0 <= j < |b.transactions| ==> keys[3 + j] == TxHashKey(b.transactions[j].body.hash)
      ensures forall j :: 0 <= j < |b.transactions| ==> values[3 + j] == EncodeTransaction(Placed(b, j))
    {
      hide *;
      for i := 0 to |b.transactions|
        invariant keys[..3] == old(keys[..3]) && values[..3] == old(values[..3])
        invariant forall j :: 0 <= j < i ==> keys[3 + j] == TxHashKey(b.transactions[j].body.hash)
        invariant forall j :: 0 <= j < i ==> values[3 + j] == EncodeTransaction(Placed(b, j))
      {
        keys[3 + i] := TxHashKey(b.transactions[i].body.hash);
        values[3 + i] := WriteTransactionAsRoot(Placed(b, i));
      }
    }

    /** The entries insertBlock writes for a block. */
    method Entries(b: Block) returns (keys: array<Bytes>, values: array<Bytes>)
      requires |b.transactions| < TWO32
      ensures fresh(keys) && fresh(values) && keys.Length == values.Length
      ensures forall m: Db :: Batch(m, keys[..], values[..]) == StoreBlock(m, b)
    {
      hide *;
      keys := new Bytes[|b.transactions| + 3](_ => []);
      values := new Bytes[|b.transactions| + 3](_ => []);
      keys[0] := BlockHashKey(b.Hash());
      values[0] := WriteBlockAsRoot(b);
      keys[1], values[1] := LATEST, b.Hash().bytes;
      keys[2], values[2] := BlockHeightKey(b.Height()), b.Hash().bytes;
      label Front:
      FillRecords(b, keys, values);
      assert forall i :: 0 <= i < 3 ==> keys[..3][i] == old@Front(keys[..3])[i];
      assert forall i :: 0 <= i < 3 ==> values[..3][i] == old@Front(values[..3])[i];
      EntriesStore(b, keys[..], values[..]);
    }

    /** insertBlock: an accepted block extends the stored chain by itself, any other leaves it. A
        genesis block always makes a new buffer, stored or not, unless it is known. */
    method InsertBlock(b: Block)
      requires Valid() && Storable(b)
      modifies this
      ensures Valid() && txCache == old(txCache)
      ensures chain == old(chain) + if Accepts(old(chain), b) then [b] else []
      ensures db == if Accepts(old(chain), b) then StoreBlock(old(db), b) else old(db)
      ensures old(TxCacheFresh()) ==>
        (TxCacheFresh() <==> (Accepts(old(chain), b) ==> forall h :: h in txCache ==> !Includes(b, h)))
      ensures var based := b.IsGenesis() && !Known(old(chain), b.Hash());
        bufferBase == if based then Some(b) else old(bufferBase)
    {
      hide Matches, AllStorable, Storable, DistinctHashes, Rising, ReadBlock, ByHash, HashAt, OnceRecorded;
      hide StoreBlock, ClippedBlock, ShortSignatures, Placed, Fresh, Includes, UpToCut, Record, CutRecord, Last;
      hide Known;
      KnownIsFound(chain, b.Hash());
      MatchesSized(db, chain);
      assert chain[..|chain|] == chain;
      var existing := GetBlockByHash(b.Hash());
      if existing.Some? {
        return;
      }
      var latest := GetLatestBlock();
      if latest.Some? { ServesHeader(latest.value, Last(chain)); }
      if !b.IsGenesis() {
        if latest.None? || latest.value.Hash() != b.Prev() {
          return;
        }
      } else {
        bufferBase := Some(b);
      }
      if b.header.height <= latestHeight {
        return;
      }
      StoreAccepted(b);
      MatchesSized(db, chain);
      if old(TxCacheFresh()) { StaleExactly(old(chain), b, txCache); }
    }

    /** A contract data record, as the data processor writes it. */
    method InsertData(address: Bytes, key: Bytes, value: Bytes)
      requires Valid()
      modifies `db
      ensures Valid() && db == old(db)[DataKey(address, key) := value]
    {
      hide Matches, AllStorable, DistinctHashes, Rising, ByHash, HashAt, OnceRecorded, DataKey;
      DataDoesNotDisturb(db, chain, address, key, value);
      db := db[DataKey(address, key) := value];
    }

    method StoreAccepted(b: Block)
      requires Valid() && Storable(b) && Accepts(chain, b)
      modifies `db, `chain, `latestBlock, `latestHeight, `blockHeightMap, `blockCache
      ensures Valid() && chain == old(chain) + [b] && db == StoreBlock(old(db), b)
    {
      hide Matches, Storable, StoreBlock, ByHash, HashAt, OnceRecorded, Accepts, ClippedBlock;
      hide AllStorable, DistinctHashes, Rising;
      GrowsStored(db, chain, b);
      latestBlock, latestHeight := Some(b), b.header.height;
      WriteBlockCache(b);
      var keys, values := Entries(b);
      BatchInsert(keys, values);
      chain := chain + [b];
      assert Stored();
      assert Sized(chain) by { MatchesSized(db, chain); }
      assert CachesOk() by {
        forall h ensures ByHash(chain, h) == if h == b.Hash() then Some(b) else ByHash(old(chain), h) {
          GrowsByHash(old(chain), b, h);
        }
        forall n: int ensures HashAt(chain, n) == if n == b.Height() then Some(b.Hash()) else HashAt(old(chain), n) {
          GrowsHashAt(old(chain), b, n);
        }
        forall h | h in txCache ensures OnceRecorded(chain, h, txCache[h]) {
          GrowsRecorded(old(chain), b, h, txCache[h]);
        }
      }
    }
  }
}
