/** The re-serialisation at the heart of common/transaction.go: what bytes a transaction's hash and
    signature are checked against. */
module TransactionVerify {
  import opened Types
  import opened Karmem
  import opened Codec
  import opened CodecRead
  import opened CodecObjects

  lemma RootBodyReadsBack(x: TransactionBody)
    requires |EncodeBody(x, 0)| < TWO32
    ensures DecodeBody(EncodeBody(x, 0), 0) == Some(Clipped(x))
  {
    hide *;
    var d := EncodeBody(x, 0);
    var none: Bytes := [];
    assert d == none + EncodeBody(x, |none|) + none;
    BodyRoundTrip(d, none, x, none);
  }

  lemma EncodedLength(x: TransactionBody, at: nat)
    ensures |EncodeBody(x, at)| == BODY_SIZE + |x.event| + |x.opt| + |x.state| + |x.data| + |x.signature|
  {
    hide BodyParts, BodyTail;
    var p, t := BodyParts(x, at + BODY_SIZE), BodyTail(x);
    FlatOfBody(x, at + BODY_SIZE, p);
    TailStarts(x);
    FlatLength(t);
  }

  /** Write, read into a fresh copy, blank hash and signature, reset the writer, write again. The
      bytes that come out are those of the body with zero hash and empty signature, however long the
      signature was: cutting it at 73 bytes on the way does no harm. */
  method Preimage(tx: Transaction) returns (bytes: Bytes)
    requires |EncodeBody(tx.body, 0)| < TWO32
    ensures bytes == EncodeBody(tx.body.(hash := Hash(Zeros(32)), signature := []), 0)
  {
    hide EncodeBody, DecodeBody;
    var writer := new Writer();
    WriteBodyAsRoot(tx.body, writer);
    var copy := new TransactionBodyObject();
    RootBodyReadsBack(tx.body);
    copy.Read(writer.data, 0);
    copy.hash := Zeros(32);
    copy.signature := GoSlice([], 0);
    writer.Reset();
    WriteBodyAsRoot(copy.Value(), writer);
    bytes := writer.data;
  }

  /** Verify, with SHA-256 and ECDSA as parameters. */
  method Verify(tx: Transaction, sha256: Bytes -> Bytes32, ecdsa: (Bytes33, Bytes, Bytes) -> bool) returns (ok: bool)
    requires |EncodeBody(tx.body, 0)| < TWO32
    ensures var digest := sha256(EncodeBody(tx.body.(hash := Hash(Zeros(32)), signature := []), 0));
      ok <==> digest == tx.body.hash.bytes && ecdsa(tx.body.public, digest, tx.body.signature)
  {
    var bytes := Preimage(tx);
    var digest := sha256(bytes);
    if digest != tx.body.hash.bytes {
      return false;
    }
    ok := ecdsa(tx.body.public, digest, tx.body.signature);
  }

  /** buildTransaction: hash the body written without hash and signature, sign, fill both in. */
  method Build(x: TransactionBody, sha256: Bytes -> Bytes32, sign: Bytes -> Bytes) returns (tx: Transaction)
    requires x.hash == Hash(Zeros(32)) && x.signature == []
    ensures var digest := sha256(EncodeBody(x, 0));
      tx == Transaction(x.(hash := Hash(digest), signature := sign(digest)))
  {
    var writer := new Writer();
    WriteBodyAsRoot(x, writer);
    var digest := sha256(writer.data);
    tx := Transaction(x.(hash := Hash(digest), signature := sign(digest)));
  }

  /** Whatever Build signs, Verify accepts, when the key pair fits. */
  method BuildThenVerify(x: TransactionBody, sha256: Bytes -> Bytes32, sign: Bytes -> Bytes,
        ecdsa: (Bytes33, Bytes, Bytes) -> bool)
    returns (ok: bool)
    requires x.hash == Hash(Zeros(32)) && x.signature == []
    requires forall m :: ecdsa(x.public, m, sign(m))
    requires |EncodeBody(x, 0)| + |sign(sha256(EncodeBody(x, 0)))| < TWO32
    ensures ok
  {
    hide EncodeBody;
    var tx := Build(x, sha256, sign);
    ghost var digest := sha256(EncodeBody(x, 0));
    assert ecdsa(x.public, digest, sign(digest));
    assert tx.body.(hash := Hash(Zeros(32)), signature := []) == x;
    EncodedLength(x, 0);
    EncodedLength(tx.body, 0);
    ok := Verify(tx, sha256, ecdsa);
  }

  /** Two bodies are hashed as the same bytes exactly if they agree on everything but hash and signature:
      the preimage leaves no signed field out and packs no two contents alike. */
  lemma PreimageDeterminesContent(x: TransactionBody, y: TransactionBody)
    requires |EncodeBody(x.(hash := Hash(Zeros(32)), signature := []), 0)| < TWO32
    ensures EncodeBody(x.(hash := Hash(Zeros(32)), signature := []), 0)
         == EncodeBody(y.(hash := Hash(Zeros(32)), signature := []), 0)
      <==> x.(hash := y.hash, signature := y.signature) == y
  {
    hide EncodeBody, DecodeBody;
    var x0, y0 := x.(hash := Hash(Zeros(32)), signature := []), y.(hash := Hash(Zeros(32)), signature := []);
    if EncodeBody(x0, 0) == EncodeBody(y0, 0) {
      RootBodyReadsBack(x0);
      RootBodyReadsBack(y0);
      assert x0 == y0;
    }
    if x.(hash := y.hash, signature := y.signature) == y { assert x0 == y0; }
  }
}
