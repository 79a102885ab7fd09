/** Entities shared by every component: hashes, transactions and blocks, with the fields and
    widths of the karmem schema (karmem/core.km, common/common_km.go). */
module Types {

  datatype Option<+T> = None | Some(value: T)

  newtype byte = x: int | 0 <= x < 256

  type Bytes = seq<byte>

  type int64 = x: int | -0x8000_0000_0000_0000 <= x < 0x8000_0000_0000_0000

  /** `n` zero bytes: a zeroed Go array or a fresh allocation. */
  function Zeros(n: nat): (r: Bytes)
    ensures |r| == n
  {
    seq(n, _ => 0 as byte)
  }

  lemma ZerosAreZero(n: nat, i: nat)
    requires i < n
    ensures Zeros(n)[i] == 0
  {
  }

  type Bytes32 = b: Bytes | |b| == 32 witness Zeros(32)
  type Bytes20 = b: Bytes | |b| == 20 witness Zeros(20)
  type Bytes33 = b: Bytes | |b| == 33 witness Zeros(33)

  /** A 32-byte hash (common.Hash). */
  datatype Hash = Hash(bytes: Bytes32)

  const ZERO_HASH := Hash(Zeros(32))

  datatype TransactionBody = TransactionBody(
    hash: Hash,
    address: Bytes20,
    receiver: Bytes20,
    gas: int64,
    nonce: int64,
    event: Bytes,
    opt: Bytes,
    state: Bytes,
    data: Bytes,
    expire: int64,
    height: int64,
    index: int64,
    blockHash: Hash,
    timestamp: int64,
    public: Bytes33,
    signature: Bytes)

  datatype Transaction = Transaction(body: TransactionBody)

  datatype BlockHeader = BlockHeader(
    timestamp: int64,
    prevBlockHash: Hash,
    blockHash: Hash,
    merkleRoot: Hash,
    height: int64,
    publicKey: Bytes33,
    params: Bytes,
    gasLimit: int64)

  datatype Block = Block(header: BlockHeader, transactions: seq<Transaction>) {

    /** common/block.go compares hex strings of the hashes; hex encoding is injective, so the
        model compares the hashes themselves. */
    function Hash(): Hash { header.blockHash }

    function Prev(): Hash { header.prevBlockHash }

    function Height(): int { header.height }

    predicate IsGenesis() { header.prevBlockHash == ZERO_HASH }
  }

  /** The assumption under which forks are compared: a hash names one block, and a block sits one
      above the block it names as its predecessor (the header PackageNewBlock builds). */
  ghost predicate HashTree(u: set<Block>) {
    && (forall b, c :: b in u && c in u && b.Hash() == c.Hash() ==> b == c)
    && (forall b, c :: b in u && c in u && c.Prev() == b.Hash() ==> c.Height() == b.Height() + 1)
  }
}
