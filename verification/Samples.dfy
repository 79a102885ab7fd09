/** Concrete blocks, for the runs that show where a property of the code ends. */
module Samples {
  import opened Types

  function SampleHash(i: nat): Hash
    requires i < 255
  {
    Hash(seq(32, _ => (i + 1) as byte))
  }

  lemma SampleHashes(i: nat, j: nat)
    requires i < 255 && j < 255
    ensures SampleHash(i) == SampleHash(j) <==> i == j
    ensures SampleHash(i) != ZERO_HASH
  {
    assert SampleHash(i).bytes[0] == (i + 1) as byte && SampleHash(j).bytes[0] == (j + 1) as byte;
    assert ZERO_HASH.bytes[0] == 0;
  }

  function SampleHeader(height: int64, prev: Hash, hash: Hash): BlockHeader {
    BlockHeader(0, prev, hash, ZERO_HASH, height, Zeros(33), [], 0)
  }

  /** Block `i` of a chain that starts with a genesis block. */
  function SampleBlock(i: nat, txs: seq<Transaction>): Block
    requires i < 255
  {
    Block(SampleHeader(i, if i == 0 then ZERO_HASH else SampleHash(i - 1), SampleHash(i)), txs)
  }

  const SAMPLE_TRANSACTION := Transaction(TransactionBody(
    SampleHash(0), Zeros(20), Zeros(20), 0, 0, [], [], [], [], 0, 0, 0, ZERO_HASH, 0, Zeros(33), []))
}
