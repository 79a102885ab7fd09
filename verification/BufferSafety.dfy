/** What holds in every state of every interleaving of the buffer's goroutines. */
module BufferSafety {
  import opened Types
  import opened BufferView
  import opened BufferRuns

  // ---------- conservation ----------

  function Bit(b: bool): nat { if b then 1 else 0 }

  /** How often hash `h` occurs in a queue. */
  function Occurrences(q: seq<Block>, h: Hash): nat {
    if q == [] then 0 else Bit(q[0].Hash() == h) + Occurrences(q[1..], h)
  }

  /** How many places hold hash `h`: the second queue, the two hands, processed, dropped. */
  function Places(s: Sys, h: Hash): nat {
    Occurrences(s.secondChan, h)
    + Bit(s.hand1.Some? && s.hand1.value.Hash() == h) + Bit(s.hand2.Some? && s.hand2.value.Hash() == h)
    + Bit(h in s.view.processed) + Bit(h in s.dropped)
  }

  lemma {:induction false} OccurrencesSnoc(q: seq<Block>, b: Block, h: Hash)
    ensures Occurrences(q + [b], h) == Occurrences(q, h) + Bit(b.Hash() == h)
  {
    if q == [] {
    } else {
      assert (q + [b])[1..] == q[1..] + [b];
      OccurrencesSnoc(q[1..], b, h);
    }
  }

  lemma LockedProcessed(v: View, b: Block, ok: bool)
    ensures Locked(v, b, ok).0.processed == v.processed + if Locked(v, b, ok).1.Parked? then {} else {b.Hash()}
  {
  }

  lemma FinishKeepsPlaces(s: Sys, b: Block, v: View, outcome: Outcome, h: Hash)
    requires Places(s, h) + Bit(b.Hash() == h) == Bit(h in s.known)
    requires v.processed == s.view.processed + if outcome.Parked? then {} else {b.Hash()}
    ensures Places(Finish(s, b, v, outcome), h) == Bit(h in s.known)
  {
    OccurrencesSnoc(s.secondChan, b, h);
    assert s.secondChan + [] == s.secondChan;
  }

  lemma BodyKeepsPlaces(s: Sys, b: Block, ok: bool, h: Hash)
    requires Places(s, h) + Bit(b.Hash() == h) == Bit(h in s.known)
    ensures Places(Body(s, b, ok), h) == Bit(h in s.known)
    ensures Body(s, b, ok).known == s.known
  {
    LockedProcessed(s.view, b, ok);
    FinishKeepsPlaces(s, b, Locked(s.view, b, ok).0, Locked(s.view, b, ok).1, h);
  }

  lemma StepKeepsPlaces(s: Sys, a: Action, h: Hash)
    requires Places(s, h) == Bit(h in s.known)
    ensures Places(Step(s, a), h) == Bit(h in Step(s, a).known)
  {
    hide Locked;
    if s.panicked { return; }
    match a
    case Deliver(b) =>
    case Take1 =>
    case Take2 =>
    case Body1(ok) => if s.hand1.Some? { BodyKeepsPlaces(s.(hand1 := None), s.hand1.value, ok, h); }
    case Body2(ok) => if s.hand2.Some? { BodyKeepsPlaces(s.(hand2 := None), s.hand2.value, ok, h); }
  }

  /** Every hash the knownBlocks filter admitted is, at all times and exactly once, parked in the
      second queue, in a goroutine's hand, processed, or dropped as too low; nothing else is. */
  lemma {:induction false} BlocksAreConserved(root: Block, acts: seq<Action>, h: Hash)
    ensures Places(Run(InitSys(root), acts), h) == Bit(h in Run(InitSys(root), acts).known)
  {
    if acts == [] {
    } else {
      BlocksAreConserved(root, acts[..|acts| - 1], h);
      StepKeepsPlaces(Run(InitSys(root), acts[..|acts| - 1]), acts[|acts| - 1], h);
    }
  }

  // ---------- the view ----------

  /** Selected heights and the buffered height lie in the window [latest, top], and selected
      neighbours are hash-linked, down to the latest stored block. */
  ghost predicate LinkedUpTo(v: View, top: int) {
    && Keyed(v)
    && (forall k :: k in v.selected ==> v.latest.Height() <= k <= top)
    && v.latest.Height() <= v.buffered <= top
    && (v.latest.Height() in v.selected ==> v.selected[v.latest.Height()] == v.latest)
    && (v.latest.Height() + 1 in v.selected ==> v.selected[v.latest.Height() + 1].Prev() == v.latest.Hash())
    && (forall j, k :: j in v.selected && k in v.selected && k == j + 1 ==>
          v.selected[k].Prev() == v.selected[j].Hash())
  }

  ghost predicate Linked(v: View) {
    LinkedUpTo(v, v.latest.Height() + MAX_BUFFER_SIZE)
  }

  ghost predicate ViewIn(v: View, u: set<Block>) {
    v.latest in u && forall k :: k in v.selected ==> v.selected[k] in u
  }

  /** `b` may be selected: it sits just above the latest block or a selected block, and is linked
      to it. */
  ghost predicate Fits(v: View, b: Block) {
    && v.latest.Height() < b.Height()
    && (b.Height() == v.latest.Height() + 1 ==> b.Prev() == v.latest.Hash())
    && (b.Height() > v.latest.Height() + 1 ==> b.Height() - 1 in v.selected)
    && (b.Height() - 1 in v.selected ==> b.Prev() == v.selected[b.Height() - 1].Hash())
  }

  /** Whatever the unlocked height test let through, the lock admits only blocks that fit. */
  lemma ReadyFits(v: View, b: Block, u: set<Block>)
    requires HashTree(u) && ViewIn(v, u) && b in u && Linked(v)
    ensures ParentReady(v, b) <==> Fits(v, b)
    ensures ParentReady(v, b) ==> b.Height() <= v.latest.Height() + MAX_BUFFER_SIZE + 1
  {
  }

  lemma RivalsAreSiblings(v: View, b: Block)
    requires Linked(v) && Fits(v, b) && b.Height() in v.selected
    ensures v.selected[b.Height()].Prev() == b.Prev()
  {
  }

  /** Putting `b` at its height and clearing the one above keeps every link. */
  lemma PuttingKeepsLinks(v: View, b: Block, top: int)
    requires LinkedUpTo(v, top) && Fits(v, b) && top <= v.latest.Height() + MAX_BUFFER_SIZE && b.Height() <= top + 1
    ensures var w := UpdateTree(v.(selected := v.selected[b.Height() := b]), b.Height());
      LinkedUpTo(w, if b.Height() <= top then top else b.Height())
  {
    var w := UpdateTree(v.(selected := v.selected[b.Height() := b]), b.Height());
    forall j, k | j in w.selected && k in w.selected && k == j + 1
      ensures w.selected[k].Prev() == w.selected[j].Hash()
    {
      PuttingKeepsLink(v, b, top, j, k);
    }
    hide UpdateTree;
    PuttingKeepsWindow(v, b, top);
  }

  lemma PuttingKeepsLink(v: View, b: Block, top: int, j: int, k: int)
    requires LinkedUpTo(v, top) && Fits(v, b) && k == j + 1
    requires var w := UpdateTree(v.(selected := v.selected[b.Height() := b]), b.Height());
      j in w.selected && k in w.selected
    ensures var w := UpdateTree(v.(selected := v.selected[b.Height() := b]), b.Height());
      w.selected[k].Prev() == w.selected[j].Hash()
  {
  }

  lemma PuttingKeepsWindow(v: View, b: Block, top: int)
    requires LinkedUpTo(v, top) && Fits(v, b) && top <= v.latest.Height() + MAX_BUFFER_SIZE && b.Height() <= top + 1
    ensures var w := UpdateTree(v.(selected := v.selected[b.Height() := b]), b.Height());
      var end := if b.Height() <= top then top else b.Height();
      && Keyed(w) && w.latest == v.latest && w.latest.Height() <= w.buffered <= end
      && (forall k :: k in w.selected ==> w.latest.Height() <= k <= end)
      && (w.latest.Height() in w.selected ==> w.selected[w.latest.Height()] == w.latest)
      && (w.latest.Height() + 1 in w.selected ==> w.selected[w.latest.Height() + 1].Prev() == w.latest.Hash())
  {
  }

  /** Select by cases: kept out, or put at its height. */
  lemma SelectCases(v: View, b: Block)
    requires Keyed(v)
    ensures var h := b.Height(); var put := UpdateTree(v.(selected := v.selected[h := b]), h);
      Select(v, b) == if h in v.selected && !CompareBlock(v.selected[h], b).1 then v else put
  {
    var h := b.Height();
    if h in v.selected {
      CompareBlockByPriority(v.selected[h], b);
      assert v.selected[h := v.selected[h]] == v.selected;
    }
  }

  lemma SelectKeepsLinks(v: View, b: Block)
    requires Linked(v) && Fits(v, b)
    ensures Select(v, b).latest == v.latest
    ensures b.Height() <= v.latest.Height() + MAX_BUFFER_SIZE ==> Linked(Select(v, b))
    ensures b.Height() == v.latest.Height() + MAX_BUFFER_SIZE + 1 ==>
              LinkedUpTo(Select(v, b), b.Height()) && Select(v, b).buffered == b.Height()
  {
    hide Select;
    SelectCases(v, b);
    var top := v.latest.Height() + MAX_BUFFER_SIZE;
    assert LinkedUpTo(v, top);
    if b.Height() <= top + 1 { PuttingKeepsLinks(v, b, top); }
    if b.Height() == top + 1 { assert b.Height() !in v.selected; }
  }

  lemma PopKeepsLinks(v: View)
    requires LinkedUpTo(v, v.latest.Height() + MAX_BUFFER_SIZE + 1)
    requires v.latest.Height() + 1 in v.selected && v.latest.Height() < v.buffered
    ensures Linked(Pop(v))
  {
  }

  lemma AdmitKeepsLinks(v: View, b: Block)
    requires Linked(v) && Fits(v, b) && b.Height() <= v.latest.Height() + MAX_BUFFER_SIZE + 1
    ensures !Admit(v, b).1.Panicked? ==> Linked(Admit(v, b).0)
  {
    SelectKeepsLinks(v, b);
    var w := Select(v, b);
    if b.Height() > v.latest.Height() + MAX_BUFFER_SIZE && w.latest.Height() + 1 in w.selected {
      PopKeepsLinks(w);
    }
  }

  lemma AdmitStaysIn(v: View, b: Block, u: set<Block>)
    requires ViewIn(v, u) && b in u
    ensures ViewIn(Admit(v, b).0, u)
  {
  }

  // ---------- best sibling ----------

  /** `a` extends the view, and then the block selected at its height is a sibling it cannot beat. */
  ghost predicate BestFor(v: View, a: Block) {
    ParentReady(v, a) ==>
      && a.Height() in v.selected
      && v.selected[a.Height()].Prev() == a.Prev()
      && !Beats(a, v.selected[a.Height()])
  }

  /** `b` sits one above `p` if it names it. */
  ghost predicate Tied(p: Block, b: Block) {
    b.Prev() == p.Hash() ==> b.Height() == p.Height() + 1
  }

  lemma SelectKeepsBest(v: View, b: Block, a: Block)
    requires Linked(v) && Fits(v, b) && Tied(v.latest, a)
    requires a.Prev() != b.Hash() && (a == b || BestFor(v, a))
    ensures BestFor(Select(v, b), a)
  {
    var w := Select(v, b);
    if b.Height() in v.selected {
      RivalsAreSiblings(v, b);
      var rival := v.selected[b.Height()];
      CompareBlockByPriority(rival, b);
      BeatsIsStrictWeakOrder(a, rival, w.selected[b.Height()]);
    }
    if ParentReady(w, a) && a.Height() != b.Height() {
      assert ParentReady(v, a);
    }
  }

  lemma PopKeepsBest(v: View, a: Block)
    requires LinkedUpTo(v, v.latest.Height() + MAX_BUFFER_SIZE + 1) && v.latest.Height() + 1 in v.selected
    requires Tied(v.selected[v.latest.Height() + 1], a) && BestFor(v, a)
    ensures BestFor(Pop(v), a)
  {
    if ParentReady(Pop(v), a) {
      assert ParentReady(v, a);
    }
  }

  lemma AdmitKeepsBest(v: View, b: Block, a: Block, u: set<Block>)
    requires HashTree(u) && ViewIn(v, u) && a in u && b in u && Linked(v) && Fits(v, b)
    requires b.Height() <= v.latest.Height() + MAX_BUFFER_SIZE + 1
    requires a.Prev() != b.Hash() && (a == b || BestFor(v, a))
    ensures !Admit(v, b).1.Panicked? ==> BestFor(Admit(v, b).0, a)
  {
    SelectKeepsBest(v, b, a);
    SelectKeepsLinks(v, b);
    AdmitFollowsSelect(v, b, a);
  }

  lemma AdmitFollowsSelect(v: View, b: Block, a: Block)
    requires v.latest.Height() + 1 in v.selected ==> Tied(v.selected[v.latest.Height() + 1], a)
    requires Fits(v, b) && Select(v, b).latest == v.latest
    requires b.Height() <= v.latest.Height() + MAX_BUFFER_SIZE + 1
    requires b.Height() == v.latest.Height() + MAX_BUFFER_SIZE + 1 ==> LinkedUpTo(Select(v, b), b.Height())
    requires BestFor(Select(v, b), a)
    ensures !Admit(v, b).1.Panicked? ==> BestFor(Admit(v, b).0, a)
  {
    var w, head := Select(v, b), v.latest.Height() + 1;
    if b.Height() > v.latest.Height() + MAX_BUFFER_SIZE && head in w.selected {
      assert head in v.selected && w.selected[head] == v.selected[head];
      PopKeepsBest(w, a);
      assert Admit(v, b).0 == Pop(w).(full := true);
    }
  }

  // ---------- the invariant ----------

  ghost predicate BlocksIn(s: Sys, u: set<Block>) {
    && ViewIn(s.view, u) && s.accepted <= u
    && (forall b :: b in s.blockChan ==> b in u) && (forall b :: b in s.secondChan ==> b in u)
    && (s.hand1.Some? ==> s.hand1.value in u) && (s.hand2.Some? ==> s.hand2.value in u)
  }

  function Below(root: Block, popped: seq<Block>, i: nat): Block
    requires i < |popped|
  {
    if i == 0 then root else popped[i - 1]
  }

  /** `popped` climbs from `root` one height and one hash link at a time. */
  ghost predicate ClimbsFrom(root: Block, popped: seq<Block>) {
    && (forall i :: 0 <= i < |popped| ==> popped[i].Height() == root.Height() + 1 + i)
    && (forall i :: 0 <= i < |popped| ==> popped[i].Prev() == Below(root, popped, i).Hash())
  }

  function TopOf(root: Block, popped: seq<Block>): Block {
    if popped == [] then root else popped[|popped| - 1]
  }

  /** A block was accepted after its parent, or sits on the root. */
  ghost predicate AfterParent(a: Block, root: Block, accepted: set<Block>) {
    a.Prev() == root.Hash() || exists p :: p in accepted && p.Hash() == a.Prev()
  }

  ghost predicate HistoryOk(v: View, accepted: set<Block>, popped: seq<Block>, root: Block) {
    && (forall a :: a in accepted ==> a.Hash() in v.processed && AfterParent(a, root, accepted))
    && (forall k :: k in v.selected ==> v.selected[k] in accepted)
    && ClimbsFrom(root, popped) && v.latest == TopOf(root, popped)
    && (forall i :: 0 <= i < |popped| ==> popped[i] in accepted)
  }

  ghost predicate ViewOk(v: View, accepted: set<Block>) {
    && Linked(v)
    && (forall a :: a in accepted ==> BestFor(v, a))
    && (v.buffered in v.selected || v.selected == map[])
  }

  ghost predicate Inv(s: Sys, root: Block, u: set<Block>) {
    && root in u && BlocksIn(s, u)
    && HistoryOk(s.view, s.accepted, s.popped, root)
    && (!s.panicked ==> ViewOk(s.view, s.accepted))
  }

  lemma LatestClimbed(v: View, accepted: set<Block>, popped: seq<Block>, root: Block)
    requires HistoryOk(v, accepted, popped, root)
    ensures v.latest.Height() == root.Height() + |popped|
    ensures v.latest == root || v.latest in accepted
  {
  }

  /** A block not yet processed was never accepted, so nothing accepted sits on it. */
  lemma NoChildYet(v: View, accepted: set<Block>, popped: seq<Block>, root: Block, u: set<Block>, b: Block)
    requires HashTree(u) && root in u && b in u && accepted <= u && HistoryOk(v, accepted, popped, root)
    requires b.Hash() !in v.processed && b.Height() > root.Height()
    ensures forall a :: a in accepted ==> a.Prev() != b.Hash()
  {
    forall a | a in accepted
      ensures a.Prev() != b.Hash()
    {
      assert AfterParent(a, root, accepted);
    }
  }

  /** What admitting `b` does besides keeping links and siblings. */
  ghost predicate AdmitEffect(v: View, b: Block, w: View, outcome: Outcome) {
    && (outcome.Accepted? || outcome.Panicked?)
    && w.processed == v.processed
    && (forall k :: k in w.selected ==> w.selected[k] == b || (k in v.selected && w.selected[k] == v.selected[k]))
    && (outcome.Accepted? ==> w.buffered in w.selected)
    && if Sent(outcome) == [] then w.latest == v.latest
       else
         && Sent(outcome) == [w.latest] && w.latest.Height() == v.latest.Height() + 1
         && w.latest.Prev() == v.latest.Hash()
         && w.latest.Height() in w.selected && w.selected[w.latest.Height()] == w.latest
  }

  lemma AdmitHasEffect(v: View, b: Block)
    requires Linked(v) && Fits(v, b) && b.Height() <= v.latest.Height() + MAX_BUFFER_SIZE + 1
    requires v.buffered in v.selected || v.selected == map[]
    ensures AdmitEffect(v, b, Admit(v, b).0, Admit(v, b).1)
  {
    hide Select;
    SelectKeepsLinks(v, b);
    SelectEffect(v, b);
    var w := Select(v, b);
    if b.Height() > v.latest.Height() + MAX_BUFFER_SIZE && w.latest.Height() + 1 in w.selected {
      PopEffect(w);
    }
  }

  lemma SelectEffect(v: View, b: Block)
    requires Keyed(v) && (v.buffered in v.selected || v.selected == map[])
    ensures var w := Select(v, b);
      && w.processed == v.processed && w.latest == v.latest && w.buffered in w.selected
      && forall k :: k in w.selected ==> w.selected[k] == b || (k in v.selected && w.selected[k] == v.selected[k])
  {
  }

  lemma PopEffect(w: View)
    requires Keyed(w) && w.latest.Height() + 1 in w.selected
    ensures var w' := Pop(w);
      && w'.processed == w.processed && w'.buffered == w.buffered
      && w'.latest.Height() == w.latest.Height() + 1 && w'.latest == w.selected[w.latest.Height() + 1]
      && w'.latest.Height() in w'.selected && w'.selected[w'.latest.Height()] == w'.latest
      && forall k :: k in w'.selected ==> k in w.selected && w'.selected[k] == w.selected[k]
  {
  }

  lemma AdmitKeepsHistory(v: View, b: Block, w: View, outcome: Outcome, accepted: set<Block>, popped: seq<Block>,
          root: Block)
    requires HistoryOk(v, accepted, popped, root)
    requires ParentReady(v, b)
    requires AdmitEffect(v.(processed := v.processed + {b.Hash()}), b, w, outcome)
    ensures HistoryOk(w, accepted + {b}, popped + Sent(outcome), root)
  {
    hide ClimbsFrom, AfterParent;
    ClimbGoesOn(v, b, w, outcome, popped, root);
    ParentsStay(v, b, accepted, popped, root);
  }

  lemma ClimbGoesOn(v: View, b: Block, w: View, outcome: Outcome, popped: seq<Block>, root: Block)
    requires ClimbsFrom(root, popped) && v.latest == TopOf(root, popped)
    requires AdmitEffect(v.(processed := v.processed + {b.Hash()}), b, w, outcome)
    ensures ClimbsFrom(root, popped + Sent(outcome)) && w.latest == TopOf(root, popped + Sent(outcome))
  {
    var grown := popped + Sent(outcome);
    assert forall i :: 0 <= i < |popped| ==> grown[i] == popped[i] && Below(root, grown, i) == Below(root, popped, i);
    if Sent(outcome) == [] {
      assert grown == popped;
    } else {
      assert Below(root, grown, |popped|) == v.latest;
    }
  }

  lemma ParentsStay(v: View, b: Block, accepted: set<Block>, popped: seq<Block>, root: Block)
    requires HistoryOk(v, accepted, popped, root) && ParentReady(v, b)
    ensures forall a :: a in accepted + {b} ==> AfterParent(a, root, accepted + {b})
  {
    hide ClimbsFrom;
    assert v.latest == root || v.latest in accepted by { LatestClimbed(v, accepted, popped, root); }
    assert AfterParent(b, root, accepted + {b});
    forall a | a in accepted
      ensures AfterParent(a, root, accepted + {b})
    {
      assert AfterParent(a, root, accepted);
    }
  }

  lemma ProcessedIsNotSeen(v: View, p: set<Hash>, accepted: set<Block>)
    requires ViewOk(v, accepted)
    ensures ViewOk(v.(processed := p), accepted)
  {
    forall a | a in accepted
      ensures BestFor(v.(processed := p), a)
    {
      assert BestFor(v, a);
    }
  }

  lemma AdmitKeepsView(v: View, v1: View, b: Block, accepted: set<Block>, popped: seq<Block>, root: Block,
          u: set<Block>)
    requires HashTree(u) && ViewIn(v, u) && accepted <= u && b in u && root in u
    requires HistoryOk(v, accepted, popped, root) && ParentReady(v, b) && b.Hash() !in v.processed
    requires v1 == v.(processed := v.processed + {b.Hash()}) && ViewOk(v1, accepted)
    ensures !Admit(v1, b).1.Panicked? ==> ViewOk(Admit(v1, b).0, accepted + {b})
    ensures AdmitEffect(v1, b, Admit(v1, b).0, Admit(v1, b).1)
  {
    hide Admit, BestFor, HistoryOk;
    ReadyFits(v1, b, u);
    AdmitHasEffect(v1, b);
    AdmitKeepsLinks(v1, b);
    LatestClimbed(v, accepted, popped, root);
    NoChildYet(v, accepted, popped, root, u, b);
    forall a | a in accepted + {b}
      ensures !Admit(v1, b).1.Panicked? ==> BestFor(Admit(v1, b).0, a)
    {
      assert a.Prev() != b.Hash();
      AdmitKeepsBest(v1, b, a, u);
    }
  }

  lemma AcceptKeepsInv(s: Sys, b: Block, v1: View, w: View, outcome: Outcome, root: Block, u: set<Block>)
    requires HashTree(u) && Inv(s, root, u) && !s.panicked && b in u && b.Hash() !in s.view.processed
    requires ParentReady(s.view, b) && v1 == s.view.(processed := s.view.processed + {b.Hash()})
    requires (w, outcome) == Admit(v1, b)
    ensures Inv(Finish(s, b, w, outcome), root, u)
  {
    hide Admit, HistoryOk, Linked, BestFor;
    ProcessedIsNotSeen(s.view, v1.processed, s.accepted);
    AdmitStaysIn(v1, b, u);
    AdmitKeepsView(s.view, v1, b, s.accepted, s.popped, root, u);
    AdmitKeepsHistory(s.view, b, w, outcome, s.accepted, s.popped, root);
  }

  lemma RefusalKeepsInv(s: Sys, b: Block, p: set<Hash>, outcome: Outcome, root: Block, u: set<Block>)
    requires Inv(s, root, u) && !s.panicked && b in u
    requires s.view.processed <= p && outcome in {Parked, Discarded, VdfFailed}
    ensures Inv(Finish(s, b, s.view.(processed := p), outcome), root, u)
  {
    ProcessedIsNotSeen(s.view, p, s.accepted);
    assert s.accepted + {} == s.accepted && s.popped + [] == s.popped;
  }

  lemma BodyKeepsInv(s: Sys, b: Block, ok: bool, root: Block, u: set<Block>)
    requires HashTree(u) && Inv(s, root, u) && !s.panicked && b in u && b.Hash() !in s.view.processed
    ensures Inv(Body(s, b, ok), root, u)
  {
    var (v, outcome) := Locked(s.view, b, ok);
    if ParentReady(s.view, b) && ok {
      AcceptKeepsInv(s, b, s.view.(processed := s.view.processed + {b.Hash()}), v, outcome, root, u);
    } else {
      assert v == s.view.(processed := v.processed);
      RefusalKeepsInv(s, b, v.processed, outcome, root, u);
    }
  }

  ghost predicate DeliversFrom(acts: seq<Action>, u: set<Block>) {
    forall i :: 0 <= i < |acts| && acts[i].Deliver? ==> acts[i].block in u
  }

  lemma StepKeepsInv(s: Sys, a: Action, root: Block, u: set<Block>)
    requires HashTree(u) && Inv(s, root, u) && (a.Deliver? ==> a.block in u)
    requires forall h :: Places(s, h) == Bit(h in s.known)
    ensures Inv(Step(s, a), root, u)
  {
    hide Body, HistoryOk, ViewOk;
    if s.panicked { return; }
    match a
    case Deliver(b) =>
    case Take1 =>
    case Take2 =>
    case Body1(ok) =>
      if s.hand1.Some? {
        assert Places(s, s.hand1.value.Hash()) <= 1;
        BodyKeepsInv(s.(hand1 := None), s.hand1.value, ok, root, u);
      }
    case Body2(ok) =>
      if s.hand2.Some? {
        assert Places(s, s.hand2.value.Hash()) <= 1;
        BodyKeepsInv(s.(hand2 := None), s.hand2.value, ok, root, u);
      }
  }

  lemma {:induction false} RunKeepsInv(root: Block, acts: seq<Action>, u: set<Block>)
    requires HashTree(u) && root in u && DeliversFrom(acts, u)
    ensures Inv(Run(InitSys(root), acts), root, u)
  {
    if acts == [] {
    } else {
      var before := acts[..|acts| - 1];
      RunKeepsInv(root, before, u);
      forall h
        ensures Places(Run(InitSys(root), before), h) == Bit(h in Run(InitSys(root), before).known)
      {
        BlocksAreConserved(root, before, h);
      }
      StepKeepsInv(Run(InitSys(root), before), acts[|acts| - 1], root, u);
    }
  }

  // ---------- the main results, spelled out ----------

  /** Under every interleaving, until a panic: selected blocks are linked to their selected
      neighbours and down to the latest stored block, nothing at or below the latest height is
      selected except that block itself, and the window is never wider than twelve blocks. */
  lemma SelectedViewIsLinked(root: Block, acts: seq<Action>, u: set<Block>)
    requires HashTree(u) && root in u && DeliversFrom(acts, u) && !Run(InitSys(root), acts).panicked
    ensures var v := Run(InitSys(root), acts).view;
      && v.latest.Height() <= v.buffered <= v.latest.Height() + 12
      && (v.selected == map[] || v.buffered in v.selected)
      && forall k :: k in v.selected ==> PlaceOk(v, k)
  {
    hide Run, InitSys, HashTree;
    RunKeepsInv(root, acts, u);
    PlacesAreOk(Run(InitSys(root), acts).view);
  }

  /** What is selected at height `k` sits inside the window and is linked to what is below. */
  ghost predicate PlaceOk(v: View, k: int)
    requires k in v.selected
  {
    && v.latest.Height() <= k <= v.latest.Height() + 12 && v.selected[k].Height() == k
    && (k == v.latest.Height() ==> v.selected[k] == v.latest)
    && (k == v.latest.Height() + 1 ==> v.selected[k].Prev() == v.latest.Hash())
    && (k - 1 in v.selected ==> v.selected[k].Prev() == v.selected[k - 1].Hash())
  }

  lemma PlacesAreOk(v: View)
    requires Linked(v)
    ensures forall k :: k in v.selected ==> PlaceOk(v, k)
  {
  }

  /** Every comparison compareBlock is asked for, in any run, is between blocks with one parent. */
  lemma ComparesOnlySiblings(root: Block, acts: seq<Action>, u: set<Block>, b: Block)
    requires HashTree(u) && root in u && DeliversFrom(acts, u) && b in u
    requires !Run(InitSys(root), acts).panicked && ParentReady(Run(InitSys(root), acts).view, b)
    ensures var v := Run(InitSys(root), acts).view;
      b.Height() in v.selected ==> v.selected[b.Height()].Prev() == b.Prev()
  {
    RunKeepsInv(root, acts, u);
    var v := Run(InitSys(root), acts).view;
    hide Run, InitSys;
    ReadyFits(v, b, u);
    if b.Height() in v.selected { RivalsAreSiblings(v, b); }
  }

  /** Every accepted block whose parent is the latest block or still selected has a selected
      sibling (or itself) that it does not strictly beat. */
  lemma SelectedSiblingIsBest(root: Block, acts: seq<Action>, u: set<Block>, a: Block)
    requires HashTree(u) && root in u && DeliversFrom(acts, u)
    requires !Run(InitSys(root), acts).panicked && a in Run(InitSys(root), acts).accepted
    requires ParentReady(Run(InitSys(root), acts).view, a)
    ensures var v := Run(InitSys(root), acts).view;
      && a.Height() > v.latest.Height() && a.Height() in v.selected
      && v.selected[a.Height()].Prev() == a.Prev()
      && !Beats(a, v.selected[a.Height()])
      && var best, m, n := v.selected[a.Height()], |v.selected[a.Height()].transactions|, |a.transactions|;
         m > n || (m == n && best.header.timestamp <= a.header.timestamp)
  {
    RunKeepsInv(root, acts, u);
    var s := Run(InitSys(root), acts);
    assert BestFor(s.view, a);
    ReadyFits(s.view, a, u);
  }

  /** What popChan received, in any run, climbs from the root block by block to the latest one. */
  lemma PoppedBlocksClimb(root: Block, acts: seq<Action>, u: set<Block>)
    requires HashTree(u) && root in u && DeliversFrom(acts, u)
    ensures var s := Run(InitSys(root), acts);
      ClimbsFrom(root, s.popped) && s.view.latest == TopOf(root, s.popped)
  {
    RunKeepsInv(root, acts, u);
  }

  lemma AdmitPopsAtTop(v: View, b: Block)
    requires Linked(v) && Fits(v, b) && b.Height() <= v.latest.Height() + MAX_BUFFER_SIZE + 1
    ensures var outcome := Admit(v, b).1;
      var atTop := b.Height() == v.latest.Height() + MAX_BUFFER_SIZE + 1;
      && (Sent(outcome) == if atTop && v.latest.Height() + 1 in v.selected
                           then [v.selected[v.latest.Height() + 1]] else [])
      && (outcome.Panicked? <==> atTop && v.latest.Height() + 1 !in v.selected)
  {
    var w := Select(v, b);
    if b.Height() == v.latest.Height() + MAX_BUFFER_SIZE + 1 {
      assert v.latest.Height() + 1 in w.selected <==> v.latest.Height() + 1 in v.selected;
    }
  }

  /** When a locked body pops and when it panics, in any reachable view. */
  lemma PopAndPanicExactly(root: Block, acts: seq<Action>, u: set<Block>, b: Block, ok: bool)
    requires HashTree(u) && root in u && DeliversFrom(acts, u) && b in u
    requires !Run(InitSys(root), acts).panicked
    ensures var v := Run(InitSys(root), acts).view; var outcome := Locked(v, b, ok).1;
      var atTop := ok && ParentReady(v, b) && b.Height() == v.latest.Height() + 13;
      && (Sent(outcome) == if atTop && v.latest.Height() + 1 in v.selected
                           then [v.selected[v.latest.Height() + 1]] else [])
      && (outcome.Panicked? <==> atTop && v.latest.Height() + 1 !in v.selected)
  {
    RunKeepsInv(root, acts, u);
    var v := Run(InitSys(root), acts).view;
    LockedPopsAtTop(v, b, ok, u);
  }

  lemma LockedPopsAtTop(v: View, b: Block, ok: bool, u: set<Block>)
    requires HashTree(u) && ViewIn(v, u) && b in u && Linked(v)
    ensures var outcome := Locked(v, b, ok).1;
      var atTop := ok && ParentReady(v, b) && b.Height() == v.latest.Height() + 13;
      && (Sent(outcome) == if atTop && v.latest.Height() + 1 in v.selected
                           then [v.selected[v.latest.Height() + 1]] else [])
      && (outcome.Panicked? <==> atTop && v.latest.Height() + 1 !in v.selected)
  {
    if ParentReady(v, b) && ok {
      ReadyFits(v, b, u);
      AdmitPopsAtTop(v.(processed := v.processed + {b.Hash()}), b);
    }
  }

  /** A block built on the priority leaf is admitted by the view it was built on. */
  lemma LeafChildIsAdmitted(v: View, now: int, leaf: Block, b: Block, ok: bool)
    requires Keyed(v) && IsPriorityLeaf(v, now, leaf)
    requires b.Prev() == leaf.Hash() && b.Height() == leaf.Height() + 1
    ensures Locked(v, b, ok).1 !in {Parked, Discarded}
  {
    assert ParentReady(v, b);
  }

  // ---------- gaps ----------

  ghost predicate GapFree(v: View) {
    forall j, k :: j in v.selected && v.latest.Height() < k < j ==> k in v.selected
  }

  /** `b` replaces a sibling while the block two heights above is selected: the block in between is
      cleared, the one above stays. */
  predicate Buries(v: View, b: Block) {
    && b.Height() in v.selected && CompareBlock(v.selected[b.Height()], b).1
    && b.Height() + 2 in v.selected
  }

  /** Selecting a block opens a gap exactly when it buries a selected block. */
  lemma GapsComeFromBurying(v: View, b: Block)
    requires Linked(v) && Fits(v, b) && GapFree(v)
    ensures GapFree(Select(v, b)) <==> !Buries(v, b)
  {
    var w := Select(v, b);
    if Buries(v, b) {
      assert b.Height() + 2 in w.selected && b.Height() + 1 !in w.selected;
    } else {
      assert b.Height() !in v.selected ==> forall j :: j in v.selected ==> j < b.Height();
    }
  }

  lemma GapFreeAdmit(v: View, b: Block)
    requires Linked(v) && Fits(v, b) && b.Height() <= v.latest.Height() + MAX_BUFFER_SIZE + 1 && GapFree(v)
    ensures !Admit(v, b).1.Panicked?
    ensures GapFree(Admit(v, b).0) <==> !Buries(v, b)
  {
    GapsComeFromBurying(v, b);
    AdmitPopsAtTop(v, b);
    if b.Height() > v.latest.Height() + MAX_BUFFER_SIZE {
      assert b.Height() - 1 in v.selected;
      assert v.latest.Height() + 1 in v.selected;
    }
  }

  lemma SameGaps(v: View, p: set<Hash>, b: Block)
    ensures var w := v.(processed := p); (GapFree(w) <==> GapFree(v)) && (Buries(w, b) <==> Buries(v, b))
  {
    hide CompareBlock;
  }

  lemma SameLinks(v: View, p: set<Hash>, b: Block)
    ensures var w := v.(processed := p); (Linked(w) <==> Linked(v)) && (Fits(w, b) <==> Fits(v, b))
  {
  }

  /** In a gap-free view no block makes the buffer panic, and it stays gap-free unless one buries. */
  lemma GapFreeBodies(v: View, b: Block, ok: bool, u: set<Block>)
    requires HashTree(u) && ViewIn(v, u) && b in u && Linked(v) && GapFree(v)
    ensures !Locked(v, b, ok).1.Panicked?
    ensures GapFree(Locked(v, b, ok).0) <==> !(ok && ParentReady(v, b) && Buries(v, b))
  {
    hide GapFree, Buries, Admit, Linked, HashTree, ViewIn, Fits;
    SameGaps(v, v.processed + {b.Hash()}, b);
    SameLinks(v, v.processed + {b.Hash()}, b);
    if ParentReady(v, b) && ok {
      ReadyFits(v, b, u);
      GapFreeAdmit(v.(processed := v.processed + {b.Hash()}), b);
    }
  }

  /** No body action of the run buries a selected block. */
  ghost predicate NeverBuries(root: Block, acts: seq<Action>) {
    forall i :: 0 <= i < |acts| ==> !BuriesIn(Run(InitSys(root), acts[..i]), acts[i])
  }

  predicate BuriesIn(s: Sys, a: Action) {
    match a
    case Body1(ok) => ok && s.hand1.Some? && ParentReady(s.view, s.hand1.value) && Buries(s.view, s.hand1.value)
    case Body2(ok) => ok && s.hand2.Some? && ParentReady(s.view, s.hand2.value) && Buries(s.view, s.hand2.value)
    case _ => false
  }

  lemma GapFreeStep(s: Sys, a: Action, root: Block, u: set<Block>)
    requires HashTree(u) && Inv(s, root, u) && !s.panicked && GapFree(s.view)
    ensures !Step(s, a).panicked && (GapFree(Step(s, a).view) <==> !BuriesIn(s, a))
  {
    hide GapFree, Buries, Locked, ParentReady, HistoryOk, BestFor, Linked, ViewIn, HashTree;
    match a
    case Body1(ok) => if s.hand1.Some? { GapFreeBodies(s.view, s.hand1.value, ok, u); }
    case Body2(ok) => if s.hand2.Some? { GapFreeBodies(s.view, s.hand2.value, ok, u); }
    case _ =>
  }

  /** A run in which nothing is buried never panics. */
  lemma {:induction false} NoBuryingNoPanic(root: Block, acts: seq<Action>, u: set<Block>)
    requires HashTree(u) && root in u && DeliversFrom(acts, u) && NeverBuries(root, acts)
    ensures !Run(InitSys(root), acts).panicked && GapFree(Run(InitSys(root), acts).view)
  {
    if acts == [] {
    } else {
      var before, a := acts[..|acts| - 1], acts[|acts| - 1];
      forall i | 0 <= i < |before|
        ensures !BuriesIn(Run(InitSys(root), before[..i]), before[i])
      {
        assert before[..i] == acts[..i];
      }
      NoBuryingNoPanic(root, before, u);
      RunKeepsInv(root, before, u);
      assert !BuriesIn(Run(InitSys(root), acts[..|acts| - 1]), a);
      GapFreeStep(Run(InitSys(root), before), a, root, u);
    }
  }

  ghost predicate StaysGapFree(root: Block, acts: seq<Action>) {
    forall n :: 0 <= n <= |acts| ==> GapFree(Run(InitSys(root), acts[..n]).view)
  }

  lemma StaysGapFreeBefore(root: Block, acts: seq<Action>, n: nat)
    requires n <= |acts| && StaysGapFree(root, acts)
    ensures StaysGapFree(root, acts[..n]) && GapFree(Run(InitSys(root), acts[..n]).view)
  {
    hide GapFree, Run, InitSys;
    forall m | 0 <= m <= n ensures GapFree(Run(InitSys(root), acts[..n][..m]).view) {
      assert acts[..n][..m] == acts[..m];
    }
  }

  lemma NeverBuriesNext(root: Block, acts: seq<Action>, a: Action)
    requires NeverBuries(root, acts) && !BuriesIn(Run(InitSys(root), acts), a)
    ensures NeverBuries(root, acts + [a])
  {
    hide BuriesIn, Run, InitSys;
    var all := acts + [a];
    forall i | 0 <= i < |all| ensures !BuriesIn(Run(InitSys(root), all[..i]), all[i]) {
      assert all[..i] == acts[..i];
      if i == |acts| { assert acts[..i] == acts; }
    }
  }

  lemma {:induction false} StayingGapFreeNeedsNoBurying(root: Block, acts: seq<Action>, u: set<Block>)
    requires HashTree(u) && root in u && DeliversFrom(acts, u) && StaysGapFree(root, acts)
    ensures NeverBuries(root, acts)
  {
    hide GapFree, BuriesIn, HashTree, Step, InitSys, StaysGapFree, NeverBuries, Inv;
    if acts == [] {
      assert NeverBuries(root, acts) by { NothingBuries(root); }
    } else {
      var n := |acts| - 1;
      var before, a := acts[..n], acts[n];
      StaysGapFreeBefore(root, acts, n);
      StaysGapFreeBefore(root, acts, n + 1);
      assert acts[..n + 1] == acts && before + [a] == acts;
      StayingGapFreeNeedsNoBurying(root, before, u);
      NoBuryingNoPanic(root, before, u);
      RunKeepsInv(root, before, u);
      GapFreeStep(Run(InitSys(root), before), a, root, u);
      NeverBuriesNext(root, before, a);
    }
  }

  lemma NothingBuries(root: Block)
    ensures NeverBuries(root, [])
  {
  }

  /** A run has no gap below any selected block, ever, exactly when it never buries one; and such a run
      never panics. */
  lemma GapFreeExactly(root: Block, acts: seq<Action>, u: set<Block>)
    requires HashTree(u) && root in u && DeliversFrom(acts, u)
    ensures StaysGapFree(root, acts) <==> NeverBuries(root, acts)
    ensures NeverBuries(root, acts) ==> !Run(InitSys(root), acts).panicked
  {
    hide GapFree, BuriesIn, HashTree, Run, InitSys;
    if NeverBuries(root, acts) {
      NoBuryingNoPanic(root, acts, u);
      forall n | 0 <= n <= |acts| ensures GapFree(Run(InitSys(root), acts[..n]).view) {
        forall i | 0 <= i < n ensures !BuriesIn(Run(InitSys(root), acts[..n][..i]), acts[..n][i]) {
          assert acts[..n][..i] == acts[..i];
        }
        NoBuryingNoPanic(root, acts[..n], u);
      }
    }
    if StaysGapFree(root, acts) { StayingGapFreeNeedsNoBurying(root, acts, u); }
  }

  // ---------- the buffered height ----------

  /** Nothing selected lies above the buffered height. */
  ghost predicate Covered(v: View) {
    forall k :: k in v.selected ==> k <= v.buffered
  }

  lemma CoveredSelect(v: View, b: Block)
    requires Linked(v) && Fits(v, b) && GapFree(v) && Covered(v)
    ensures Covered(Select(v, b)) <==> !Buries(v, b)
  {
    hide Select;
    SelectCases(v, b);
    var h, w := b.Height(), Select(v, b);
    if Buries(v, b) { assert h + 2 in w.selected && w.buffered == h; }
  }

  lemma CoveredAdmit(v: View, b: Block)
    requires Linked(v) && Fits(v, b) && b.Height() <= v.latest.Height() + MAX_BUFFER_SIZE + 1 && GapFree(v)
    requires Covered(v)
    ensures Covered(Admit(v, b).0) <==> !Buries(v, b)
  {
    hide Select;
    CoveredSelect(v, b);
    SelectKeepsLinks(v, b);
  }

  lemma CoveredBodies(v: View, b: Block, ok: bool, u: set<Block>)
    requires HashTree(u) && ViewIn(v, u) && b in u && Linked(v) && GapFree(v) && Covered(v)
    ensures Covered(Locked(v, b, ok).0) <==> !(ok && ParentReady(v, b) && Buries(v, b))
  {
    hide GapFree, Buries, Admit, Linked, HashTree, ViewIn, Fits, Covered;
    var v1 := v.(processed := v.processed + {b.Hash()});
    SameGaps(v, v1.processed, b);
    SameLinks(v, v1.processed, b);
    assert Covered(v1) by { SameCover(v, v1.processed); }
    if ParentReady(v, b) && ok {
      ReadyFits(v, b, u);
      CoveredAdmit(v1, b);
    }
  }

  lemma SameCover(v: View, p: set<Hash>)
    ensures Covered(v.(processed := p)) <==> Covered(v)
  {
  }

  lemma CoveredStep(s: Sys, a: Action, root: Block, u: set<Block>)
    requires HashTree(u) && Inv(s, root, u) && !s.panicked && GapFree(s.view) && Covered(s.view)
    ensures Covered(Step(s, a).view) <==> !BuriesIn(s, a)
  {
    hide GapFree, Covered, Buries, Locked, ParentReady, HistoryOk, BestFor, Linked, ViewIn, HashTree;
    match a
    case Body1(ok) => if s.hand1.Some? { CoveredBodies(s.view, s.hand1.value, ok, u); }
    case Body2(ok) => if s.hand2.Some? { CoveredBodies(s.view, s.hand2.value, ok, u); }
    case _ =>
  }

  ghost predicate StaysCovered(root: Block, acts: seq<Action>) {
    forall n :: 0 <= n <= |acts| ==> Covered(Run(InitSys(root), acts[..n]).view)
  }

  lemma StaysCoveredBefore(root: Block, acts: seq<Action>, n: nat)
    requires n <= |acts| && StaysCovered(root, acts)
    ensures StaysCovered(root, acts[..n]) && Covered(Run(InitSys(root), acts[..n]).view)
  {
    hide Covered, Run, InitSys;
    forall m | 0 <= m <= n ensures Covered(Run(InitSys(root), acts[..n][..m]).view) {
      assert acts[..n][..m] == acts[..m];
    }
  }

  lemma {:induction false} StayingCoveredNeedsNoBurying(root: Block, acts: seq<Action>, u: set<Block>)
    requires HashTree(u) && root in u && DeliversFrom(acts, u) && StaysCovered(root, acts)
    ensures NeverBuries(root, acts)
  {
    hide GapFree, Covered, BuriesIn, HashTree, Step, InitSys, StaysCovered, NeverBuries, Inv;
    if acts == [] {
      NothingBuries(root);
    } else {
      var n := |acts| - 1;
      var before, a := acts[..n], acts[n];
      StaysCoveredBefore(root, acts, n);
      StaysCoveredBefore(root, acts, n + 1);
      assert acts[..n + 1] == acts && before + [a] == acts;
      StayingCoveredNeedsNoBurying(root, before, u);
      NoBuryingNoPanic(root, before, u);
      RunKeepsInv(root, before, u);
      CoveredStep(Run(InitSys(root), before), a, root, u);
      NeverBuriesNext(root, before, a);
    }
  }

  lemma NeverBuriesBefore(root: Block, acts: seq<Action>, n: nat)
    requires n <= |acts| && NeverBuries(root, acts)
    ensures NeverBuries(root, acts[..n])
    ensures n < |acts| ==> !BuriesIn(Run(InitSys(root), acts[..n]), acts[n])
  {
    hide BuriesIn, Run, InitSys;
    forall i | 0 <= i < n ensures !BuriesIn(Run(InitSys(root), acts[..n][..i]), acts[..n][i]) {
      assert acts[..n][..i] == acts[..i];
    }
  }

  lemma NothingIsCovered(root: Block)
    ensures Covered(Run(InitSys(root), []).view)
  {
  }

  lemma {:induction false} NoBuryingCovered(root: Block, acts: seq<Action>, n: nat, u: set<Block>)
    requires n <= |acts| && HashTree(u) && root in u && DeliversFrom(acts, u) && NeverBuries(root, acts)
    ensures Covered(Run(InitSys(root), acts[..n]).view)
  {
    hide GapFree, Covered, BuriesIn, HashTree, Step, InitSys, NeverBuries, Inv;
    if n == 0 {
      assert acts[..0] == [];
      NothingIsCovered(root);
    } else {
      var before, a := acts[..n - 1], acts[n - 1];
      NoBuryingCovered(root, acts, n - 1, u);
      NeverBuriesBefore(root, acts, n - 1);
      NoBuryingNoPanic(root, before, u);
      RunKeepsInv(root, before, u);
      CoveredStep(Run(InitSys(root), before), a, root, u);
      assert acts[..n][..n - 1] == before;
    }
  }

  /** The buffered height is the highest selected one, in every state of a run, exactly when the run
      never buries a selected block. */
  lemma CoveredExactly(root: Block, acts: seq<Action>, u: set<Block>)
    requires HashTree(u) && root in u && DeliversFrom(acts, u)
    ensures StaysCovered(root, acts) <==> NeverBuries(root, acts)
  {
    hide Covered, NeverBuries, HashTree, Run, InitSys;
    if NeverBuries(root, acts) {
      forall n | 0 <= n <= |acts| ensures Covered(Run(InitSys(root), acts[..n]).view) {
        NoBuryingCovered(root, acts, n, u);
      }
    }
    if StaysCovered(root, acts) { StayingCoveredNeedsNoBurying(root, acts, u); }
  }
}
