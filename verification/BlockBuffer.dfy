/** The block buffer of core/buffer.go as an object: two work queues, the queue of popped blocks,
    and the view both goroutines update under one lock. One iteration of a goroutine is split in
    two calls, because its height test runs before the lock is taken. */
module BlockBuffer {
  import opened Types
  import opened BufferView

  class BlockBuffer {
    var blockChan: seq<Block>
    var secondChan: seq<Block>
    var popChan: seq<Block>

    var selectedBlock: map<int, Block>
    var knownBlocks: set<Hash>
    var processedBlocks: set<Hash>

    var latestBlockHash: Hash
    var latestBlockHeight: int
    var latestBlock: Block
    var bufferedHeight: int
    var bufferFull: bool

    ghost predicate Valid()
      reads this
    {
      && latestBlockHash == latestBlock.Hash()
      && latestBlockHeight == latestBlock.Height()
      && Keyed(AsView())
    }

    ghost function AsView(): View
      reads this
    {
      View(latestBlock, selectedBlock, processedBlocks, bufferedHeight, bufferFull)
    }

    constructor (latest: Block)
      ensures Valid() && AsView() == InitView(latest)
      ensures blockChan == secondChan == popChan == [] && knownBlocks == {}
    {
      blockChan, secondChan, popChan := [], [], [];
      selectedBlock, knownBlocks, processedBlocks := map[], {}, {};
      latestBlockHeight, latestBlockHash, latestBlock := latest.Height(), latest.Hash(), latest;
      bufferedHeight, bufferFull := latest.Height(), false;
    }

    method AppendBlock(block: Block)
      modifies this`blockChan
      ensures blockChan == old(blockChan) + [block]
    {
      blockChan := blockChan + [block];
    }

    /** Process up to the lock: a block that is too low or already known goes no further. */
    method ProcessTake() returns (taken: Option<Block>)
      requires Valid() && blockChan != []
      modifies this`blockChan, this`knownBlocks
      ensures blockChan == old(blockChan)[1..]
      ensures var b := old(blockChan)[0];
        if b.Height() <= latestBlock.Height() || b.Hash() in old(knownBlocks)
        then taken == None && knownBlocks == old(knownBlocks)
        else taken == Some(b) && knownBlocks == old(knownBlocks) + {b.Hash()}
    {
      var block := blockChan[0];
      blockChan := blockChan[1..];
      if block.Height() <= latestBlockHeight { return None; }
      if block.Hash() in knownBlocks { return None; }
      knownBlocks := knownBlocks + {block.Hash()};
      return Some(block);
    }

    /** secondProcess up to the lock. */
    method SecondTake() returns (taken: Option<Block>)
      requires Valid() && secondChan != []
      modifies this`secondChan
      ensures secondChan == old(secondChan)[1..]
      ensures taken == if old(secondChan)[0].Height() <= latestBlock.Height() then None
                       else Some(old(secondChan)[0])
    {
      var block := secondChan[0];
      secondChan := secondChan[1..];
      if block.Height() <= latestBlockHeight { return None; }
      return Some(block);
    }

    /** The locked half of either goroutine. */
    method LockedBody(block: Block, vdfOk: bool) returns (outcome: Outcome)
      requires Valid()
      modifies this`secondChan, this`popChan, this`selectedBlock, this`processedBlocks,
               this`latestBlockHash, this`latestBlockHeight, this`latestBlock,
               this`bufferedHeight, this`bufferFull
      ensures Valid()
      ensures (AsView(), outcome) == Locked(old(AsView()), block, vdfOk)
      ensures secondChan == old(secondChan) + if outcome.Parked? then [block] else []
      ensures popChan == old(popChan) + Sent(outcome)
    {
      var blockHeight := block.Height();
      var prevReady := blockHeight - 1 in selectedBlock
                       && block.Prev() == selectedBlock[blockHeight - 1].Hash();
      var hit := block.Prev() in processedBlocks;
      if block.Prev() != latestBlock.Hash() && !prevReady {
        if !hit {
          secondChan := secondChan + [block];
          return Parked;
        }
        processedBlocks := processedBlocks + {block.Hash()};
        return Discarded;
      }
      processedBlocks := processedBlocks + {block.Hash()};
      if !vdfOk {
        return VdfFailed;
      }
      outcome := AdmitBlock(block);
    }

    /** The rest of the locked half, once VerifyBlockVDF has accepted the block. */
    method AdmitBlock(block: Block) returns (outcome: Outcome)
      requires Valid()
      modifies this`popChan, this`selectedBlock, this`latestBlockHash, this`latestBlockHeight,
               this`latestBlock, this`bufferedHeight, this`bufferFull
      ensures Valid()
      ensures (AsView(), outcome) == Admit(old(AsView()), block)
      ensures popChan == old(popChan) + Sent(outcome)
    {
      var blockHeight := block.Height();
      var replaced := false;
      if blockHeight !in selectedBlock {
        selectedBlock := selectedBlock[blockHeight := block];
        replaced := true;
      } else {
        var (winner, wins) := CompareBlock(selectedBlock[blockHeight], block);
        selectedBlock, replaced := selectedBlock[blockHeight := winner], wins;
      }
      if replaced {
        UpdateTreeView(blockHeight);
      }
      outcome := Accepted(None);
      if block.Height() - latestBlockHeight > MAX_BUFFER_SIZE {
        var popped := PopSelectedBlock();
        if popped == None {
          return Panicked;
        }
        popChan := popChan + [popped.value];
        bufferFull := true;
        outcome := Accepted(popped);
      }
    }

    /** None stands for the nil dereference that would stop the process. */
    method PopSelectedBlock() returns (popped: Option<Block>)
      requires Valid()
      modifies this`selectedBlock, this`latestBlockHash, this`latestBlockHeight, this`latestBlock
      ensures Valid()
      ensures popped == None <==> old(latestBlock).Height() + 1 !in old(selectedBlock)
      ensures popped == None ==> AsView() == old(AsView())
      ensures popped != None ==> AsView() == Pop(old(AsView())) && popped == Some(latestBlock)
    {
      var height := latestBlockHeight + 1;
      if height !in selectedBlock { return None; }
      var selected := selectedBlock[height];
      latestBlockHash, latestBlockHeight, latestBlock := selected.Hash(), height, selected;
      selectedBlock := selectedBlock - {height - 1};
      return Some(selected);
    }

    method UpdateTreeView(start: int)
      modifies this`selectedBlock, this`bufferedHeight
      ensures AsView() == UpdateTree(old(AsView()), start)
    {
      var height := start;
      bufferedHeight := height;
      while height <= bufferedHeight
        invariant start <= height <= start + 1 && bufferedHeight == start
        invariant selectedBlock == if height == start then old(selectedBlock)
                                   else old(selectedBlock) - {start + 1}
      {
        height := height + 1;
        selectedBlock := selectedBlock - {height};
      }
    }

    /** The highest selected block below `nowHeight`, or the latest stored block. */
    method GetPriorityLeaf(nowHeight: int) returns (leaf: Block)
      requires Valid()
      ensures IsPriorityLeaf(AsView(), nowHeight, leaf)
      ensures forall k :: k in selectedBlock && latestBlockHeight < k <= bufferedHeight && k < nowHeight ==>
        exists top ::
          top in selectedBlock && k <= top <= bufferedHeight && top < nowHeight && leaf == selectedBlock[top]
      ensures leaf == latestBlock ||
        exists top :: top in selectedBlock && latestBlockHeight < top && leaf == selectedBlock[top]
    {
      var height := bufferedHeight;
      while height > latestBlockHeight
        invariant height <= bufferedHeight
        invariant forall k :: k > height ==> !LeafCandidate(AsView(), nowHeight, k)
        invariant forall k :: k in selectedBlock && height < k <= bufferedHeight ==> k >= nowHeight
      {
        if height in selectedBlock && height < nowHeight {
          assert LeafCandidate(AsView(), nowHeight, height);
          return selectedBlock[height];
        }
        height := height - 1;
      }
      return latestBlock;
    }

    /** None for the empty list. Over siblings the result is a member that no member beats. */
    method SelectBlockFromList(list: seq<Block>) returns (result: Option<Block>)
      ensures result == None <==> list == []
      ensures result.Some? ==> result.value == BestOf(list)
    {
      result := None;
      for idx := 0 to |list|
        invariant idx == 0 <==> result == None
        invariant idx > 0 ==> result == Some(BestOf(list[..idx]))
      {
        assert list[..idx + 1][..idx] == list[..idx];
        if idx == 0 {
          result := Some(list[0]);
        } else {
          var (winner, _) := CompareBlock(result.value, list[idx]);
          result := Some(winner);
        }
      }
      assert list[..|list|] == list;
    }
  }
}
