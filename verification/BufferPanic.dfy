/** The run that ends in a nil dereference: replacing the first block above the latest one leaves a
    hole two heights up that later arrivals run past. */
module BufferPanic {
  import opened Types
  import opened BufferView
  import opened BufferRuns
  import opened BufferSafety
  import opened BufferDelivery
  import opened Samples

  /** A block arrives on an idle first queue and is processed at once. */
  function Arrival(b: Block): seq<Action> {
    [Deliver(b), Take1, Body1(true)]
  }

  ghost predicate Idle(s: Sys) {
    s.blockChan == [] && s.hand1 == None && !s.panicked
  }

  lemma RunArrival(s: Sys, acts: seq<Action>, b: Block)
    requires var r := Run(s, acts); Idle(r) && b.Height() > r.view.latest.Height() && b.Hash() !in r.known
    ensures var r := Run(s, acts); Run(s, acts + Arrival(b)) == Body(r.(known := r.known + {b.Hash()}), b, true)
  {
    hide Body;
    var r := Run(s, acts);
    RunConcat(s, acts, Arrival(b));
    assert Arrival(b)[..2] == [Deliver(b), Take1] && [Deliver(b), Take1][..1] == [Deliver(b)];
    assert [Deliver(b)][..0] == [];
    assert Run(r, [Deliver(b)]) == r.(blockChan := [b]);
    assert Run(r, [Deliver(b), Take1]) == Step(Run(r, [Deliver(b)]), Take1);
    assert r.(blockChan := [b]).blockChan[1..] == [];
    assert Run(r, [Deliver(b), Take1]) == r.(hand1 := Some(b), known := r.known + {b.Hash()});
    assert Run(r, Arrival(b)) == Step(Run(r, [Deliver(b), Take1]), Body1(true));
  }

  lemma BodyView(s: Sys, b: Block)
    ensures var s', l := Body(s, b, true), Locked(s.view, b, true);
      s'.view == l.0 && s'.panicked == l.1.Panicked? && s'.known == s.known
      && s'.blockChan == s.blockChan && s'.hand1 == s.hand1
  {
    hide Locked;
  }

  /** An arrival in an idle, unpanicked run, told by its view alone. */
  lemma ArrivalView(init: Sys, acts: seq<Action>, b: Block)
    requires var s := Run(init, acts);
      Idle(s) && b.Height() > s.view.latest.Height() && b.Hash() !in s.known
    ensures var s, s', l := Run(init, acts), Run(init, acts + Arrival(b)), Locked(Run(init, acts).view, b, true);
      && s'.view == l.0 && s'.panicked == l.1.Panicked? && s'.known == s.known + {b.Hash()}
      && (!s'.panicked ==> Idle(s'))
  {
    hide Locked, Body, Run;
    var s := Run(init, acts);
    RunArrival(init, acts, b);
    BodyView(s.(known := s.known + {b.Hash()}), b);
  }

  /** The blocks above `c[0]`, up to `c[j]`, arriving in order. */
  function InOrder(c: seq<Block>, j: nat): seq<Action>
    requires j < |c|
  {
    if j == 0 then [] else InOrder(c, j - 1) + Arrival(c[j])
  }

  lemma StartView(c: seq<Block>)
    requires c != []
    ensures InitView(c[0]) == ViewAfter(c, 0)
  {
    assert SelectedAfter(c, 1, 0) == map[];
  }

  lemma NewOnChain(c: seq<Block>, j: nat, m: nat)
    requires IsChain(c) && m < j < |c|
    ensures c[j].Hash() !in ProcessedAfter(c, m) && c[j].Height() > ViewAfter(c, m).latest.Height()
  {
    ProcessedIsPrefix(c, m, j);
  }

  /** After its first `j` blocks in order the buffer is idle and shows exactly those. */
  ghost predicate InStep(c: seq<Block>, j: nat, s: Sys)
    requires j < |c|
  {
    Idle(s) && s.view == ViewAfter(c, j) && s.known == ProcessedAfter(c, j)
  }

  lemma InOrderNext(c: seq<Block>, acts: seq<Action>, j: nat)
    requires IsChain(c) && j + 1 < |c| && InStep(c, j, Run(InitSys(c[0]), acts))
    ensures InStep(c, j + 1, Run(InitSys(c[0]), acts + Arrival(c[j + 1])))
  {
    hide IsChain, ViewAfter, ProcessedAfter, Locked, Run, InitSys, InitView, Arrival;
    NewOnChain(c, j + 1, j);
    ArrivalView(InitSys(c[0]), acts, c[j + 1]);
    NextIsAdmitted(c, j);
    ProcessedNext(c, j);
  }

  lemma {:induction false} InOrderRun(c: seq<Block>, j: nat)
    requires IsChain(c) && j < |c|
    ensures InStep(c, j, Run(InitSys(c[0]), InOrder(c, j)))
  {
    hide IsChain, ViewAfter, ProcessedAfter, Run, InitSys, InitView, Arrival;
    if j == 0 {
      StartView(c);
      RunNothing(c);
    } else {
      InOrderRun(c, j - 1);
      InOrderNext(c, InOrder(c, j - 1), j - 1);
    }
  }

  lemma RunNothing(c: seq<Block>)
    requires c != []
    ensures var s := Run(InitSys(c[0]), []);
      Idle(s) && s.view == InitView(c[0]) && s.known == ProcessedAfter(c, 0)
  {
  }

  lemma ProcessedNext(c: seq<Block>, m: nat)
    requires m + 1 < |c|
    ensures ProcessedAfter(c, m) + {c[m + 1].Hash()} == ProcessedAfter(c, m + 1)
  {
  }

  /** `t` competes with `c[1]` and is not beaten by it. */
  ghost predicate Usurps(c: seq<Block>, t: Block)
    requires |c| > 1
  {
    && t.Height() == c[1].Height() && t.Prev() == c[1].Prev() && !Beats(c[1], t)
    && forall i :: 0 <= i < |c| ==> c[i].Hash() != t.Hash()
  }

  const TOP := MAX_BUFFER_SIZE

  /** Blocks 1 to 12 in order, then the usurper of block 1, then blocks 13 and 14. */
  function FatalRun(c: seq<Block>, t: Block): seq<Action>
    requires |c| == TOP + 3
  {
    InOrder(c, TOP) + Arrival(t) + Arrival(c[TOP + 1]) + Arrival(c[TOP + 2])
  }

  /** The view with the hole: `t` selected in place of `c[1]`, and nothing at the height of `c[2]`. */
  ghost predicate Holed(c: seq<Block>, t: Block, v: View)
    requires |c| == TOP + 3
  {
    && v.latest == c[0] && t.Height() in v.selected && v.selected[t.Height()] == t
    && t.Height() + 1 !in v.selected
    && c[TOP].Height() in v.selected && v.selected[c[TOP].Height()] == c[TOP]
    && c[TOP].Height() + 1 !in v.selected
  }

  lemma UsurperDigsHole(c: seq<Block>, t: Block, v: View)
    requires |c| == TOP + 3 && IsChain(c) && Usurps(c, t) && v == ViewAfter(c, TOP)
    ensures Locked(v, t, true).1 == Accepted(None) && Holed(c, t, Locked(v, t, true).0)
  {
    CompareBlockByPriority(c[1], t);
    assert BlockAt(c, t.Height()) == c[1] && BlockAt(c, c[TOP].Height()) == c[TOP];
  }

  lemma NextRunsPastHole(c: seq<Block>, t: Block, v: View)
    requires |c| == TOP + 3 && Ladder(c) && c[TOP + 1].Prev() == c[TOP].Hash()
    requires t.Height() == c[1].Height() && Holed(c, t, v)
    ensures var (w, outcome) := Locked(v, c[TOP + 1], true);
      && outcome == Accepted(Some(t)) && w.latest == t
      && t.Height() + 1 !in w.selected
      && c[TOP + 1].Height() in w.selected && w.selected[c[TOP + 1].Height()] == c[TOP + 1]
  {
  }

  lemma LastHitsHole(c: seq<Block>, t: Block, v: View)
    requires |c| == TOP + 3 && Ladder(c) && c[TOP + 2].Prev() == c[TOP + 1].Hash()
    requires t.Height() == c[1].Height() && v.latest == t && t.Height() + 1 !in v.selected
    requires c[TOP + 1].Height() in v.selected && v.selected[c[TOP + 1].Height()] == c[TOP + 1]
    ensures Locked(v, c[TOP + 2], true).1 == Panicked
  {
  }

  lemma FatalHashesAreNew(c: seq<Block>, t: Block)
    requires |c| == TOP + 3 && IsChain(c) && Usurps(c, t)
    ensures t.Hash() !in ProcessedAfter(c, TOP)
    ensures c[TOP + 1].Hash() !in ProcessedAfter(c, TOP) + {t.Hash()}
    ensures c[TOP + 2].Hash() !in ProcessedAfter(c, TOP) + {t.Hash()} + {c[TOP + 1].Hash()}
    ensures ViewAfter(c, TOP).latest == c[0]
  {
    NewOnChain(c, TOP + 1, TOP);
    NewOnChain(c, TOP + 2, TOP + 1);
    ProcessedNext(c, TOP);
  }

  /** For every chain of 14 blocks and every usurper of its first block, that run panics. */
  lemma StaleSuccessorPanics(c: seq<Block>, t: Block)
    requires |c| == TOP + 3 && IsChain(c) && Usurps(c, t)
    ensures Run(InitSys(c[0]), FatalRun(c, t)).panicked
  {
    var init, a0 := InitSys(c[0]), InOrder(c, TOP);
    var a1 := a0 + Arrival(t);
    var a2 := a1 + Arrival(c[TOP + 1]);
    assert c[TOP + 1].Prev() == c[TOP].Hash() && c[TOP + 2].Prev() == c[TOP + 1].Hash();
    assert t.Height() == c[1].Height() == c[0].Height() + 1 && Ladder(c);
    assert c[TOP + 1].Height() > t.Height() && c[TOP + 2].Height() > t.Height();
    FatalHashesAreNew(c, t);
    InOrderRun(c, TOP);
    UsurperDigsHole(c, t, Run(init, a0).view);
    hide Run, Locked, ViewAfter, ProcessedAfter, IsChain, Usurps, Ladder, InOrder;
    ArrivalView(init, a0, t);
    NextRunsPastHole(c, t, Run(init, a1).view);
    ArrivalView(init, a1, c[TOP + 1]);
    LastHitsHole(c, t, Run(init, a2).view);
    ArrivalView(init, a2, c[TOP + 2]);
  }

  // ---------- the panic is reachable ----------

  function SampleChain(): (c: seq<Block>)
    ensures |c| == TOP + 3 && forall i :: 0 <= i < |c| ==> c[i] == SampleBlock(i, [])
  {
    seq(TOP + 3, i requires 0 <= i < TOP + 3 => SampleBlock(i, []))
  }

  const USURPER := Block(SampleHeader(1, SampleHash(0), SampleHash(100)), [])

  function SampleSet(): (u: set<Block>)
    ensures forall b :: b in u <==> b in SampleChain() || b == USURPER
  {
    (set b | b in SampleChain()) + {USURPER}
  }

  lemma {:induction false} InOrderDelivers(c: seq<Block>, j: nat, u: set<Block>)
    requires j < |c| && forall i :: 0 <= i < |c| ==> c[i] in u
    ensures DeliversFrom(InOrder(c, j), u)
  {
    if j > 0 { InOrderDelivers(c, j - 1, u); }
  }

  lemma SampleLinks(i: nat, j: nat)
    requires i < TOP + 3 && j < TOP + 3
    ensures var b, c := SampleBlock(i, []), SampleBlock(j, []);
      && (b.Hash() == c.Hash() <==> i == j) && (b.Prev() == c.Hash() <==> i == j + 1)
      && b.Hash() != USURPER.Hash() && b.Prev() != USURPER.Hash() && (USURPER.Prev() == b.Hash() <==> i == 0)
  {
    hide SampleHash, ZERO_HASH;
    SampleHashes(i, j);
    SampleHashes(i, 100);
    SampleHashes(0, i);
    SampleHashes(j, 0);
    SampleHashes(0, 100);
    SampleHashes(100, 0);
    if i > 0 {
      SampleHashes(i - 1, 100);
      SampleHashes(i - 1, j);
    }
  }

  lemma SamplesAreChain()
    ensures IsChain(SampleChain()) && Usurps(SampleChain(), USURPER)
  {
    hide SampleHash, ZERO_HASH, SampleChain;
    var c := SampleChain();
    forall i, j | 0 <= i < |c| && 0 <= j < |c|
      ensures (c[i].Hash() == c[j].Hash() <==> i == j) && c[i].Hash() != USURPER.Hash()
      ensures i == j + 1 ==> c[i].Prev() == c[j].Hash()
    {
      SampleLinks(i, j);
    }
  }

  lemma SamplesAreTree()
    ensures HashTree(SampleSet())
  {
    hide SampleHash, ZERO_HASH, SampleChain, SampleSet, SampleBlock, USURPER;
    var u := SampleSet();
    forall b, c | b in u && c in u
      ensures b.Hash() == c.Hash() ==> b == c
      ensures c.Prev() == b.Hash() ==> c.Height() == b.Height() + 1
    {
      PairIsTied(b, c);
    }
  }

  lemma PairIsTied(b: Block, c: Block)
    requires b in SampleSet() && c in SampleSet()
    ensures b.Hash() == c.Hash() ==> b == c
    ensures c.Prev() == b.Hash() ==> c.Height() == b.Height() + 1
  {
    hide SampleHash, ZERO_HASH, SampleChain, SampleSet;
    var s := SampleChain();
    SampleHashes(0, 100);
    if b != USURPER && c != USURPER {
      var i :| 0 <= i < |s| && s[i] == b;
      var j :| 0 <= j < |s| && s[j] == c;
      SampleLinks(j, i);
    } else if b != USURPER || c != USURPER {
      var k :| 0 <= k < |s| && s[k] == if b != USURPER then b else c;
      SampleLinks(k, 0);
    }
  }

  /** Such chains and usurpers exist: well-formed blocks that all pass the VDF check take a fresh
      buffer to the nil dereference. */
  lemma PanicIsReachable()
    ensures exists root: Block, acts: seq<Action>, u: set<Block> ::
      HashTree(u) && root in u && DeliversFrom(acts, u) && Run(InitSys(root), acts).panicked
  {
    hide HashTree, Run, SampleChain, SampleSet, SampleBlock, USURPER, InOrder;
    var c, u := SampleChain(), SampleSet();
    SamplesAreChain();
    SamplesAreTree();
    StaleSuccessorPanics(c, USURPER);
    InOrderDelivers(c, TOP, u);
    assert DeliversFrom(FatalRun(c, USURPER), u);
    assert c[0] in u;
  }

  /** Nothing compares a block's height with its parent's, so without the height assumption one
      block is enough: any valid child of the latest block that claims a height beyond the window,
      while nothing is selected above the latest. */
  lemma UncheckedHeightPanics(v: View, b: Block)
    requires b.Prev() == v.latest.Hash() && b.Height() > v.latest.Height() + MAX_BUFFER_SIZE
    ensures Locked(v, b, true).1 == Panicked <==> v.latest.Height() + 1 !in v.selected
  {
  }
}
