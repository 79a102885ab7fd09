/** The buffer's shared view as a value: what the locked body of one iteration of Process or
    secondProcess (core/buffer.go) does to it. A nil entry of the selectedBlock map and a missing
    one read the same in Go, so the map here holds exactly the non-nil entries. */
module BufferView {
  import opened Types

  const MAX_BUFFER_SIZE := 12

  datatype View = View(
    latest: Block,
    selected: map<int, Block>,
    processed: set<Hash>,
    buffered: int,
    full: bool)

  function InitView(latest: Block): View {
    View(latest, map[], {}, latest.Height(), false)
  }

  /** `a` has strictly higher priority than `b`: more transactions, or as many and stamped earlier. */
  predicate Beats(a: Block, b: Block) {
    || |a.transactions| > |b.transactions|
    || (|a.transactions| == |b.transactions| && a.header.timestamp < b.header.timestamp)
  }

  /** compareBlock: which of the two stays, and whether that is the newcomer. */
  function CompareBlock(origin: Block, block: Block): (Block, bool) {
    if block.Prev() != origin.Prev() then (origin, false)
    else if |origin.transactions| == |block.transactions| then
      if origin.header.timestamp < block.header.timestamp then (origin, false) else (block, true)
    else if |origin.transactions| > |block.transactions| then (origin, false)
    else (block, true)
  }

  /** The newcomer wins exactly against a sibling that does not strictly beat it. */
  lemma CompareBlockByPriority(origin: Block, block: Block)
    ensures CompareBlock(origin, block).1 <==> origin.Prev() == block.Prev() && !Beats(origin, block)
    ensures CompareBlock(origin, block).0 == if CompareBlock(origin, block).1 then block else origin
    ensures origin.Prev() == block.Prev() ==>
              var winner := CompareBlock(origin, block).0;
              !Beats(origin, winner) && !Beats(block, winner)
  {
  }

  lemma BeatsIsStrictWeakOrder(a: Block, b: Block, c: Block)
    ensures !Beats(a, a)
    ensures Beats(a, b) ==> !Beats(b, a)
    ensures Beats(a, b) && Beats(b, c) ==> Beats(a, c)
    ensures !Beats(a, b) && !Beats(b, c) ==> !Beats(a, c)
  {
  }

  /** `b` extends the latest stored block or the block selected one height below it. */
  predicate ParentReady(v: View, b: Block) {
    || b.Prev() == v.latest.Hash()
    || (b.Height() - 1 in v.selected && b.Prev() == v.selected[b.Height() - 1].Hash())
  }

  /** updateTreeView(start): lowers the buffered height first, so only one successor is cleared. */
  function UpdateTree(v: View, start: int): View {
    v.(buffered := start, selected := v.selected - {start + 1})
  }

  function Select(v: View, b: Block): View {
    var h := b.Height();
    if h !in v.selected then UpdateTree(v.(selected := v.selected[h := b]), h)
    else
      var (winner, replaced) := CompareBlock(v.selected[h], b);
      var v' := v.(selected := v.selected[h := winner]);
      if replaced then UpdateTree(v', h) else v'
  }

  /** PopSelectedBlock, when the head of the view is filled. */
  function Pop(v: View): View
    requires v.latest.Height() + 1 in v.selected
  {
    var head := v.selected[v.latest.Height() + 1];
    v.(latest := head, selected := v.selected - {v.latest.Height()})
  }

  datatype Outcome =
    | Parked                        // parent unknown: back to the second queue
    | Discarded                     // parent known but not selected
    | VdfFailed
    | Accepted(popped: Option<Block>)
    | Panicked                      // PopSelectedBlock dereferences a nil entry

  /** What the locked body puts on popChan. */
  function Sent(outcome: Outcome): seq<Block> {
    if outcome.Accepted? && outcome.popped.Some? then [outcome.popped.value] else []
  }

  /** The locked body from the VDF check on. */
  function Admit(v: View, b: Block): (View, Outcome) {
    var w := Select(v, b);
    if b.Height() - w.latest.Height() <= MAX_BUFFER_SIZE then (w, Accepted(None))
    else if w.latest.Height() + 1 !in w.selected then (w, Panicked)
    else (Pop(w).(full := true), Accepted(Some(w.selected[w.latest.Height() + 1])))
  }

  /** The body both goroutines run under updateLock; `ok` is the answer of VerifyBlockVDF. */
  function Locked(v: View, b: Block, ok: bool): (View, Outcome) {
    if !ParentReady(v, b) then
      if b.Prev() !in v.processed then (v, Parked)
      else (v.(processed := v.processed + {b.Hash()}), Discarded)
    else
      var v1 := v.(processed := v.processed + {b.Hash()});
      if ok then Admit(v1, b) else (v1, VdfFailed)
  }

  /** Every selected block sits under its own height. */
  ghost predicate Keyed(v: View) {
    forall k :: k in v.selected ==> v.selected[k].Height() == k
  }

  predicate LeafCandidate(v: View, now: int, k: int) {
    k in v.selected && v.latest.Height() < k <= v.buffered && k < now
  }

  /** The highest candidate leaf, or the latest stored block when there is none. */
  ghost predicate IsPriorityLeaf(v: View, now: int, leaf: Block) {
    || (leaf == v.latest && forall k :: !LeafCandidate(v, now, k))
    || exists k :: LeafCandidate(v, now, k) && leaf == v.selected[k]
                   && forall j :: LeafCandidate(v, now, j) ==> j <= k
  }

  /** selectBlockFromList as a fold of compareBlock. */
  function BestOf(list: seq<Block>): Block
    requires list != []
  {
    if |list| == 1 then list[0]
    else CompareBlock(BestOf(list[..|list| - 1]), list[|list| - 1]).0
  }

  // ---------- the locked body, told without its parts ----------

  /** What becomes of a block, by what its predecessor is: the latest block or the one selected a height
      below, one processed before, or neither. */
  lemma OutcomeExactly(v: View, b: Block, ok: bool)
    ensures var outcome, h := Locked(v, b, ok).1, b.Height();
      var ready := b.Prev() == v.latest.Hash() || (h - 1 in v.selected && b.Prev() == v.selected[h - 1].Hash());
      && (outcome == Parked <==> !ready && b.Prev() !in v.processed)
      && (outcome == Discarded <==> !ready && b.Prev() in v.processed)
      && (outcome == VdfFailed <==> ready && !ok)
      && (outcome.Accepted? || outcome == Panicked <==> ready && ok)
  {
  }

  /** A block that is not admitted, for whatever reason, leaves the selection as it was; parked it is not
      even marked as processed. */
  lemma RefusedChangesNothing(v: View, b: Block, ok: bool)
    ensures var (w, outcome) := Locked(v, b, ok);
      outcome in {Parked, Discarded, VdfFailed} ==>
        && w.latest == v.latest && w.selected == v.selected && w.buffered == v.buffered && w.full == v.full
        && w.processed == (if outcome == Parked then v.processed else v.processed + {b.Hash()})
        && Sent(outcome) == []
    ensures !ok ==> Locked(v, b, ok).1 in {Parked, Discarded, VdfFailed}
  {
  }

  /** Among siblings the one with more transactions stays, among equals the newcomer unless the other is
      earlier. */
  lemma WinnerIs(origin: Block, block: Block)
    requires origin.Prev() == block.Prev()
    ensures var m, n := |origin.transactions|, |block.transactions|;
      CompareBlock(origin, block) ==
      if n > m || (n == m && block.header.timestamp <= origin.header.timestamp) then (block, true) else (origin, false)
    ensures var m, n := |origin.transactions|, |block.transactions|;
      Beats(origin, block) <==> m > n || (m == n && origin.header.timestamp < block.header.timestamp)
  {
  }

  /** An admitted block, while the window has room: it takes its height if that is free or its holder
      loses to it, the entry above then goes and the buffered height is its own; nothing else changes. */
  lemma AdmittedExactly(v: View, b: Block)
    requires Keyed(v) && ParentReady(v, b) && b.Height() <= v.latest.Height() + 12
    requires b.Height() in v.selected ==> v.selected[b.Height()].Prev() == b.Prev()
    ensures var (w, outcome), h := Locked(v, b, true), b.Height();
      var wins := h in v.selected ==>
        var held := v.selected[h];
        |b.transactions| > |held.transactions|
        || (|b.transactions| == |held.transactions| && b.header.timestamp <= held.header.timestamp);
      && outcome == Accepted(None) && w.latest == v.latest && w.full == v.full
      && w.processed == v.processed + {b.Hash()}
      && w.selected == (if wins then v.selected[h := b] - {h + 1} else v.selected)
      && w.buffered == (if wins then h else v.buffered)
  {
    var h := b.Height();
    if h in v.selected {
      WinnerIs(v.selected[h], b);
      assert v.selected[h := v.selected[h]] == v.selected;
    }
  }

  /** One block past the window: the head goes to popChan and becomes the latest block, its own entry stays
      for the links above it, the entry of the former latest block goes, and the buffer is full. */
  lemma PoppedExactly(v: View, b: Block)
    requires Keyed(v) && ParentReady(v, b) && b.Height() > v.latest.Height() + 12
    requires b.Height() !in v.selected && v.latest.Height() + 1 in v.selected
    ensures var (w, outcome), h, low := Locked(v, b, true), b.Height(), v.latest.Height();
      && outcome == Accepted(Some(v.selected[low + 1])) && Sent(outcome) == [v.selected[low + 1]]
      && w.latest == v.selected[low + 1] && w.full
      && w.processed == v.processed + {b.Hash()}
      && w.selected == v.selected[h := b] - {h + 1} - {low} && w.buffered == h
  {
  }
}
