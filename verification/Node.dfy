/** The components together: synchroniser, buffer and chain store of one node. Genesis blocks go
    straight to the store, other blocks to the buffer, and what the buffer pops goes to the store
    (AppendBlockTask and BlockProcessRoutine in core/blockchain.go). */
module Node {
  import opened Types
  import opened BufferView
  import opened BufferRuns
  import opened BufferSafety
  import opened BufferDelivery
  import opened ChainStore
  import opened BlockChainStore
  import BS = BlockSync

  /** What inserting `blocks` one by one leaves of a stored chain. */
  function StoreEach(chain: seq<Block>, blocks: seq<Block>): seq<Block> {
    if blocks == [] then chain
    else
      var front, b := StoreEach(chain, blocks[..|blocks| - 1]), blocks[|blocks| - 1];
      if Accepts(front, b) then front + [b] else front
  }

  /** The stored chain ends in `root`, comes from the same block universe, and is linear. */
  ghost predicate StoredUpTo(chain: seq<Block>, root: Block, u: set<Block>) {
    && chain != [] && Linear(chain) && Last(chain) == root
    && (forall b :: b in chain ==> b in u)
    && forall b :: b in u && b.IsGenesis() ==> b.Height() == 0
  }

  lemma PoppedAreKnownBlocks(root: Block, acts: seq<Action>, u: set<Block>)
    requires HashTree(u) && root in u && DeliversFrom(acts, u)
    ensures forall b :: b in Run(InitSys(root), acts).popped ==> b in u
  {
    RunKeepsInv(root, acts, u);
  }

  /** The store takes the next block of a climb. */
  lemma NextIsStored(chain: seq<Block>, b: Block, u: set<Block>)
    requires chain != [] && HashTree(u) && StoredUpTo(chain, Last(chain), u) && b in u
    requires b.Height() == Last(chain).Height() + 1 && b.Prev() == Last(chain).Hash()
    ensures Accepts(chain, b) && StoredUpTo(chain + [b], b, u)
  {
    forall i | 0 <= i < |chain| ensures chain[i].Hash() != b.Hash() {
      assert chain[i] in u && chain[i].Height() < b.Height();
    }
    LinearExactly(chain, b);
  }

  // ---------- what arrives on the channel of the store ----------

  /** bufferChan has two senders: the buffer with what it pops, and InsertBlock with blocks of height 0.
      A merge says who sends next: Some is such a block, None the next popped one if there is one. */
  type Merge = seq<Option<Block>>

  predicate GroundBlocks(merge: Merge) {
    forall i :: 0 <= i < |merge| && merge[i].Some? ==> merge[i].value.Height() == 0
  }

  /** How many popped blocks a merge has taken. */
  function Taken(popped: seq<Block>, merge: Merge): (n: nat)
    ensures n <= |popped|
  {
    if merge == [] then 0
    else
      var n := Taken(popped, merge[..|merge| - 1]);
      if merge[|merge| - 1].None? && n < |popped| then n + 1 else n
  }

  function Next(popped: seq<Block>, n: nat, from: Option<Block>): seq<Block> {
    if from.Some? then [from.value] else if n < |popped| then [popped[n]] else []
  }

  function Received(popped: seq<Block>, merge: Merge): seq<Block> {
    if merge == [] then []
    else
      var front := merge[..|merge| - 1];
      Received(popped, front) + Next(popped, Taken(popped, front), merge[|merge| - 1])
  }

  /** Nothing at height 0 gets on top of a stored chain. */
  lemma GroundIsRefused(chain: seq<Block>, root: Block, b: Block, u: set<Block>)
    requires StoredUpTo(chain, root, u) && b.Height() == 0
    ensures !Accepts(chain, b)
  {
  }

  lemma {:induction false} StoreEachAppends(chain: seq<Block>, a: seq<Block>, b: Block)
    ensures var front := StoreEach(chain, a);
      StoreEach(chain, a + [b]) == if Accepts(front, b) then front + [b] else front
  {
    assert (a + [b])[..|a|] == a;
  }

  /** The stored chain after `n` popped blocks. */
  ghost predicate Holds(chain: seq<Block>, root: Block, popped: seq<Block>, u: set<Block>, n: nat)
    requires n <= |popped|
  {
    StoredUpTo(chain + popped[..n], if n == 0 then root else popped[n - 1], u)
  }

  lemma NextPoppedIsStored(chain: seq<Block>, root: Block, popped: seq<Block>, u: set<Block>, n: nat)
    requires HashTree(u) && ClimbsFrom(root, popped) && n < |popped| && popped[n] in u
    requires Holds(chain, root, popped, u, n)
    ensures Accepts(chain + popped[..n], popped[n]) && Holds(chain, root, popped, u, n + 1)
    ensures chain + popped[..n] + [popped[n]] == chain + popped[..n + 1]
  {
    hide HashTree, StoredUpTo, Accepts;
    var front, b := chain + popped[..n], popped[n];
    assert front + [b] == chain + popped[..n + 1];
    StoredNotEmpty(front, if n == 0 then root else popped[n - 1], u);
    assert b.Prev() == Below(root, popped, n).Hash();
    NextIsStored(front, b, u);
  }

  /** A received block of height 0 changes nothing, a popped one is stored. */
  lemma GroundReceived(chain: seq<Block>, root: Block, popped: seq<Block>, u: set<Block>, got: seq<Block>,
          n: nat, b: Block)
    requires n <= |popped| && Holds(chain, root, popped, u, n) && StoreEach(chain, got) == chain + popped[..n]
    requires b.Height() == 0
    ensures StoreEach(chain, got + [b]) == chain + popped[..n]
  {
    hide *;
    StoreEachAppends(chain, got, b);
    HoldsRefuses(chain, root, popped, u, n, b);
  }

  lemma PoppedReceived(chain: seq<Block>, root: Block, popped: seq<Block>, u: set<Block>, got: seq<Block>, n: nat)
    requires HashTree(u) && ClimbsFrom(root, popped) && n < |popped| && popped[n] in u
    requires Holds(chain, root, popped, u, n) && StoreEach(chain, got) == chain + popped[..n]
    ensures StoreEach(chain, got + [popped[n]]) == chain + popped[..n + 1] && Holds(chain, root, popped, u, n + 1)
  {
    hide *;
    StoreEachAppends(chain, got, popped[n]);
    NextPoppedIsStored(chain, root, popped, u, n);
  }

  lemma {:induction false} ReceivedIsStored(chain: seq<Block>, root: Block, popped: seq<Block>, u: set<Block>,
          merge: Merge)
    requires HashTree(u) && StoredUpTo(chain, root, u) && ClimbsFrom(root, popped) && GroundBlocks(merge)
    requires forall i :: 0 <= i < |popped| ==> popped[i] in u
    ensures StoreEach(chain, Received(popped, merge)) == chain + popped[..Taken(popped, merge)]
    ensures Holds(chain, root, popped, u, Taken(popped, merge))
  {
    hide *;
    UnfoldMerge(popped, merge);
    if merge == [] {
      StoreNothing(chain);
      HoldsNothing(chain, root, popped, u);
    } else {
      var front, from := merge[..|merge| - 1], merge[|merge| - 1];
      GroundBlocksBefore(merge);
      ReceivedIsStored(chain, root, popped, u, front);
      var n, got := Taken(popped, front), Received(popped, front);
      if from.Some? {
        GroundReceived(chain, root, popped, u, got, n, from.value);
      } else if n < |popped| {
        PoppedReceived(chain, root, popped, u, got, n);
      }
    }
  }

  lemma GroundBlocksBefore(merge: Merge)
    requires merge != [] && GroundBlocks(merge)
    ensures GroundBlocks(merge[..|merge| - 1])
    ensures merge[|merge| - 1].Some? ==> merge[|merge| - 1].value.Height() == 0
  {
  }

  lemma UnfoldMerge(popped: seq<Block>, merge: Merge)
    ensures merge == [] ==> Taken(popped, merge) == 0 && Received(popped, merge) == []
    ensures merge != [] ==>
      var front, from := merge[..|merge| - 1], merge[|merge| - 1];
      var n, got := Taken(popped, front), Received(popped, front);
      && (from.Some? ==> Taken(popped, merge) == n && Received(popped, merge) == got + [from.value])
      && (from.None? && n < |popped| ==> Taken(popped, merge) == n + 1 && Received(popped, merge) == got + [popped[n]])
      && (from.None? && n == |popped| ==> Taken(popped, merge) == n && Received(popped, merge) == got)
  {
  }

  function Turns(merge: Merge): nat {
    if merge == [] then 0 else Turns(merge[..|merge| - 1]) + if merge[|merge| - 1].None? then 1 else 0
  }

  /** Each turn of the buffer takes the next popped block while there is one, and every block of height 0
      is received besides. */
  lemma {:induction false} ReceivedExactly(popped: seq<Block>, merge: Merge)
    ensures Taken(popped, merge) == if Turns(merge) <= |popped| then Turns(merge) else |popped|
    ensures forall b :: Some(b) in merge ==> b in Received(popped, merge)
    ensures |Received(popped, merge)| == Taken(popped, merge) + |merge| - Turns(merge)
  {
    if merge != [] {
      ReceivedExactly(popped, merge[..|merge| - 1]);
      assert merge == merge[..|merge| - 1] + [merge[|merge| - 1]];
    }
  }

  lemma StoreNothing(chain: seq<Block>)
    ensures StoreEach(chain, []) == chain
  {
  }

  lemma HoldsNothing(chain: seq<Block>, root: Block, popped: seq<Block>, u: set<Block>)
    requires StoredUpTo(chain, root, u)
    ensures Holds(chain, root, popped, u, 0) && chain + popped[..0] == chain
  {
    assert chain + popped[..0] == chain;
  }

  lemma HoldsRefuses(chain: seq<Block>, root: Block, popped: seq<Block>, u: set<Block>, n: nat, b: Block)
    requires n <= |popped| && Holds(chain, root, popped, u, n) && b.Height() == 0
    ensures !Accepts(chain + popped[..n], b)
  {
    GroundIsRefused(chain + popped[..n], if n == 0 then root else popped[n - 1], b, u);
  }

  lemma StoredNotEmpty(chain: seq<Block>, root: Block, u: set<Block>)
    requires StoredUpTo(chain, root, u)
    ensures chain != [] && Last(chain) == root
  {
  }

  /** Whatever the interleaving of the buffer's goroutines, however far the store has got with popChan
      and whatever blocks of height 0 came in between: the store never rejects a popped block, and what
      it holds is its old chain followed by the popped blocks, linked from height 0. */
  lemma PoppedAreStored(chain: seq<Block>, root: Block, acts: seq<Action>, u: set<Block>, merge: Merge)
    requires HashTree(u) && root in u && DeliversFrom(acts, u) && StoredUpTo(chain, root, u) && GroundBlocks(merge)
    ensures var popped := Run(InitSys(root), acts).popped; var stored := chain + popped[..Taken(popped, merge)];
      StoreEach(chain, Received(popped, merge)) == stored && stored != [] && Linear(stored)
      && (Taken(popped, merge) == |popped| ==> Last(stored) == Run(InitSys(root), acts).view.latest)
  {
    hide *;
    var s := Run(InitSys(root), acts);
    PoppedBlocksClimb(root, acts, u);
    PoppedAreKnownBlocks(root, acts, u);
    ReceivedIsStored(chain, root, s.popped, u, merge);
    HoldsIs(chain, root, s.popped, u, Taken(s.popped, merge));
  }

  lemma HoldsIs(chain: seq<Block>, root: Block, popped: seq<Block>, u: set<Block>, n: nat)
    requires n <= |popped| && Holds(chain, root, popped, u, n)
    ensures chain + popped[..n] != [] && Linear(chain + popped[..n])
    ensures n == |popped| ==> Last(chain + popped[..n]) == TopOf(root, popped)
  {
    hide Linear;
  }

  /** BlockProcessRoutine on the store object. */
  method Consume(store: BlockChain, popped: seq<Block>, merge: Merge)
    requires store.Valid() && forall b :: b in popped || Some(b) in merge ==> Storable(b)
    modifies store
    ensures store.Valid() && store.chain == StoreEach(old(store.chain), Received(popped, merge))
  {
    hide Storable, Accepts, Matches, StoreEach, Received, Taken;
    var n := 0;
    StoreNothing(store.chain);
    UnfoldMerge(popped, []);
    for i := 0 to |merge|
      invariant n == Taken(popped, merge[..i])
      invariant store.Valid() && store.chain == StoreEach(old(store.chain), Received(popped, merge[..i]))
    {
      assert merge[..i + 1][..i] == merge[..i];
      UnfoldMerge(popped, merge[..i + 1]);
      if merge[i].Some? {
        StoreEachAppends(old(store.chain), Received(popped, merge[..i]), merge[i].value);
        assert Some(merge[i].value) in merge;
        store.InsertBlock(merge[i].value);
      } else if n < |popped| {
        StoreEachAppends(old(store.chain), Received(popped, merge[..i]), popped[n]);
        store.InsertBlock(popped[n]);
        n := n + 1;
      }
    }
    assert merge[..|merge|] == merge;
  }

  /** The two objects together, from a database that ends in the block the buffer starts on: any
      schedule of the buffer, then any part of popChan consumed, with any blocks of height 0 in
      between. Once popChan is empty the latest stored block is the buffer's latest one. */
  method BufferThenStore(store: BlockChain, root: Block, acts: seq<Action>, merge: Merge, ghost u: set<Block>)
    requires store.Valid() && HashTree(u) && root in u && DeliversFrom(acts, u) && StoredUpTo(store.chain, root, u)
    requires GroundBlocks(merge) && forall b :: b in u || Some(b) in merge ==> Storable(b)
    modifies store
    ensures store.Valid() && store.chain != [] && Linear(store.chain)
    ensures var popped := Run(InitSys(root), acts).popped;
      && store.chain == old(store.chain) + popped[..Taken(popped, merge)]
      && (Taken(popped, merge) == |popped| ==> Last(store.chain) == Run(InitSys(root), acts).view.latest)
  {
    hide *;
    var popped := RunBuffer(root, acts);
    PoppedAreKnownBlocks(root, acts, u);
    PoppedAreStored(store.chain, root, acts, u, merge);
    Consume(store, popped, merge);
  }

  method RunBuffer(root: Block, acts: seq<Action>) returns (popped: seq<Block>)
    ensures popped == Run(InitSys(root), acts).popped
  {
    hide Run, InitSys;
    var buffer, _, _, _ := Execute(root, acts);
    popped := buffer.popChan;
  }

  /** The blocks a schedule delivers, in order. */
  function Delivered(acts: seq<Action>): seq<Block> {
    if acts == [] then []
    else
      var front, a := Delivered(acts[..|acts| - 1]), acts[|acts| - 1];
      if a.Deliver? then front + [a.block] else front
  }

  lemma {:induction false} DeliveredIs(acts: seq<Action>)
    ensures forall b :: b in Delivered(acts) <==> Deliver(b) in acts
  {
    if acts != [] {
      DeliveredIs(acts[..|acts| - 1]);
      assert acts == acts[..|acts| - 1] + [acts[|acts| - 1]];
    }
  }

  /** End to end on a fresh node: whatever order the peers' blocks arrived in, if what the
      synchroniser handed over is a hash-linked chain, then, once the buffer is idle and popChan is
      consumed, the store holds exactly blocks 0 to max(0, k - 12) and the buffer reaches k. */
  lemma FreshNodeStoresTheChain(syncActs: seq<BS.Action>, acts: seq<Action>)
    requires var c := BS.Run(syncActs).handed;
      && c != [] && IsChain(c) && (forall i :: 0 <= i < |c| ==> (c[i].IsGenesis() <==> i == 0))
      && Delivered(acts) == c[1..] && AllPass(acts) && Quiescent(Run(InitSys(c[0]), acts))
    ensures var c := BS.Run(syncActs).handed; var k := BS.Run(syncActs).known; var s := Run(InitSys(c[0]), acts);
      && k == |c| - 1
      && StoreEach([], [c[0]] + s.popped) == c[..if k > 12 then k - 11 else 1]
      && !s.panicked && s.view.buffered == k
  {
    hide Run, InitSys, BS.Run, IsChain, Accepts;
    BS.HandedInOrder(syncActs);
    var c, k := BS.Run(syncActs).handed, BS.Run(syncActs).known;
    LinearOf(c);
    DeliveredIs(acts);
    AllAreDelivered(c, acts);
    QuiescentRunIsDetermined(c, acts);
    ChainIsStored(c, Popped(k));
    assert [c[0]] + c[1..Popped(k) + 1] == c[..Popped(k) + 1];
  }

  lemma LinearOf(c: seq<Block>)
    requires IsChain(c) && (forall i :: 0 <= i < |c| ==> c[i].Height() == i && (c[i].IsGenesis() <==> i == 0))
    ensures Linear(c)
  {
  }

  lemma AllAreDelivered(c: seq<Block>, acts: seq<Action>)
    requires IsChain(c) && (forall b :: b in c[1..] <==> Deliver(b) in acts)
    ensures DeliversAbove(acts, c) && AllDelivered(acts, c)
  {
    assert forall i :: 1 <= i < |c| ==> c[i] == c[1..][i - 1];
  }

  lemma NextOfChain(c: seq<Block>, m: nat)
    requires m < |c| && IsChain(c) && Linear(c)
    ensures Accepts(c[..m], c[m]) && c[..m] + [c[m]] == c[..m + 1]
  {
    if m > 0 { assert Last(c[..m]) == c[m - 1]; }
  }

  /** A linear chain is stored as it is. */
  lemma {:induction false} ChainIsStored(c: seq<Block>, m: nat)
    requires m < |c| && IsChain(c) && Linear(c)
    ensures StoreEach([], c[..m + 1]) == c[..m + 1]
  {
    hide *;
    NextOfChain(c, m);
    StoreEachAppends([], c[..m], c[m]);
    if m == 0 {
      StoreNothing([]);
    } else {
      ChainIsStored(c, m - 1);
    }
  }
}
