/** Fork-free delivery: the blocks of one chain, in any order, with duplicates, under every
    interleaving, leave the buffer in the state the chain alone determines. */
module BufferDelivery {
  import opened Types
  import opened BufferView
  import opened BufferRuns
  import opened BufferSafety

  /** `c[0]` is the latest stored block; the rest extends it without forks. A hash names one block. */
  ghost predicate IsChain(c: seq<Block>) {
    && Ladder(c)
    && (forall i :: 1 <= i < |c| ==> c[i].Prev() == c[i - 1].Hash())
    && forall i, j :: 0 <= i < j < |c| ==> c[i].Hash() != c[j].Hash()
  }

  ghost predicate Ladder(c: seq<Block>) {
    c != [] && forall i :: 0 <= i < |c| ==> c[i].Height() == c[0].Height() + i
  }

  lemma ChainHashesDiffer(c: seq<Block>, i: nat, j: nat)
    requires IsChain(c) && i < |c| && j < |c| && c[i].Hash() == c[j].Hash()
    ensures i == j
  {
  }

  function Popped(m: nat): nat { if m > MAX_BUFFER_SIZE then m - MAX_BUFFER_SIZE else 0 }

  function Lowest(m: nat): nat { if Popped(m) > 0 then Popped(m) else 1 }

  /** The block of the chain at height `k`. */
  function BlockAt(c: seq<Block>, k: int): Block
    requires c != [] && 0 <= k - c[0].Height() < |c|
  {
    c[k - c[0].Height()]
  }

  ghost function SelectedAfter(c: seq<Block>, from: nat, to: nat): map<int, Block>
    requires to < |c|
  {
    map k | c[0].Height() + from <= k <= c[0].Height() + to :: BlockAt(c, k)
  }

  ghost function ProcessedAfter(c: seq<Block>, m: nat): set<Hash>
    requires m < |c|
  {
    set i | 1 <= i <= m :: c[i].Hash()
  }

  lemma ProcessedIsPrefix(c: seq<Block>, m: nat, j: nat)
    requires IsChain(c) && m < |c| && j < |c|
    ensures c[j].Hash() in ProcessedAfter(c, m) <==> 1 <= j <= m
  {
  }

  /** The view after the first `m` blocks above `c[0]`. */
  ghost function ViewAfter(c: seq<Block>, m: nat): View
    requires m < |c|
  {
    View(c[Popped(m)], SelectedAfter(c, Lowest(m), m), ProcessedAfter(c, m), c[0].Height() + m, Popped(m) > 0)
  }

  /** That is: up to twelve blocks stay selected, and with them, once something was popped, the latest. */
  lemma ViewAfterExactly(c: seq<Block>, m: nat, k: int)
    requires m < |c| && Ladder(c)
    ensures var v, low := ViewAfter(c, m), c[0].Height();
      && v.latest == c[if m > 12 then m - 12 else 0] && v.buffered == low + m && v.full == (m > 12)
      && (k in v.selected <==> low < k <= low + m && k >= low + m - 12)
      && (k in v.selected ==> v.selected[k] == c[k - low])
      && v.processed == set i | 1 <= i <= m :: c[i].Hash()
  {
  }

  lemma SelectNext(c: seq<Block>, from: nat, m: nat, v: View)
    requires Ladder(c) && m + 1 < |c| && from <= m + 1
    requires v.selected == SelectedAfter(c, from, m)
    ensures Select(v, c[m + 1]) == v.(selected := SelectedAfter(c, from, m + 1), buffered := c[0].Height() + m + 1)
  {
    assert c[m + 1].Height() == c[0].Height() + m + 1;
    assert v.selected[c[m + 1].Height() := c[m + 1]] - {c[m + 1].Height() + 1} == SelectedAfter(c, from, m + 1);
  }

  lemma NextIsReady(c: seq<Block>, m: nat)
    requires IsChain(c) && m + 1 < |c|
    ensures ParentReady(ViewAfter(c, m), c[m + 1])
  {
    if m > 0 {
      assert BlockAt(c, c[0].Height() + m) == c[m];
    }
  }

  lemma PopNext(c: seq<Block>, m: nat, v: View)
    requires Ladder(c) && m + 1 < |c| && m + 1 > MAX_BUFFER_SIZE
    requires v.latest == c[Popped(m)] && v.selected == SelectedAfter(c, Lowest(m), m + 1)
    ensures v.latest.Height() + 1 in v.selected
    ensures Pop(v) == v.(latest := c[Popped(m + 1)], selected := SelectedAfter(c, Lowest(m + 1), m + 1))
  {
    assert BlockAt(c, v.latest.Height() + 1) == c[Popped(m + 1)];
    assert SelectedAfter(c, Lowest(m), m + 1) - {v.latest.Height()} == SelectedAfter(c, Lowest(m + 1), m + 1);
  }

  lemma AdmitNext(c: seq<Block>, m: nat, v: View)
    requires Ladder(c) && m + 1 < |c|
    requires v == ViewAfter(c, m).(processed := ProcessedAfter(c, m + 1))
    ensures Admit(v, c[m + 1])
         == (ViewAfter(c, m + 1), Accepted(if m + 1 > MAX_BUFFER_SIZE then Some(c[Popped(m + 1)]) else None))
  {
    SelectNext(c, Lowest(m), m, v);
    if m + 1 > MAX_BUFFER_SIZE {
      PopNext(c, m, Select(v, c[m + 1]));
    }
  }

  lemma NextIsAdmitted(c: seq<Block>, m: nat)
    requires IsChain(c) && m + 1 < |c|
    ensures Locked(ViewAfter(c, m), c[m + 1], true)
         == (ViewAfter(c, m + 1), Accepted(if m + 1 > MAX_BUFFER_SIZE then Some(c[Popped(m + 1)]) else None))
  {
    NextIsReady(c, m);
    ReadyNextIsAdmitted(c, m);
  }

  lemma ReadyNextIsAdmitted(c: seq<Block>, m: nat)
    requires Ladder(c) && m + 1 < |c| && ParentReady(ViewAfter(c, m), c[m + 1])
    ensures Locked(ViewAfter(c, m), c[m + 1], true)
         == (ViewAfter(c, m + 1), Accepted(if m + 1 > MAX_BUFFER_SIZE then Some(c[Popped(m + 1)]) else None))
  {
    var v1 := ViewAfter(c, m).(processed := ProcessedAfter(c, m + 1));
    assert ProcessedAfter(c, m) + {c[m + 1].Hash()} == ProcessedAfter(c, m + 1);
    AdmitNext(c, m, v1);
    assert Locked(ViewAfter(c, m), c[m + 1], true) == Admit(v1, c[m + 1]);
  }

  lemma LaterIsParked(c: seq<Block>, m: nat, j: nat)
    requires IsChain(c) && m + 1 < j < |c|
    ensures Locked(ViewAfter(c, m), c[j], true) == (ViewAfter(c, m), Parked)
  {
    var v, b := ViewAfter(c, m), c[j];
    if b.Prev() == v.latest.Hash() { ChainHashesDiffer(c, j - 1, Popped(m)); }
    ProcessedIsPrefix(c, m, j - 1);
  }

  // ---------- the invariant of fork-free runs ----------

  /** `b` is a block of the chain above `c[m]`. */
  predicate Above(c: seq<Block>, m: nat, b: Block)
    requires c != []
  {
    var i := b.Height() - c[0].Height();
    m < i < |c| && c[i] == b
  }

  ghost predicate After(c: seq<Block>, m: nat, s: Sys) {
    && m < |c| && !s.panicked
    && s.view == ViewAfter(c, m)
    && s.popped == c[1..Popped(m) + 1]
    && s.dropped == {}
    && (forall b :: b in s.blockChan ==> Above(c, 0, b))
    && (forall b :: b in s.secondChan ==> Above(c, m, b))
    && (s.hand1.Some? ==> Above(c, m, s.hand1.value))
    && (s.hand2.Some? ==> Above(c, m, s.hand2.value))
  }

  ghost predicate Placed(s: Sys) {
    forall h :: Places(s, h) == Bit(h in s.known)
  }

  lemma {:induction false} ParkedHashIsCounted(q: seq<Block>, b: Block)
    requires b in q
    ensures Occurrences(q, b.Hash()) >= 1
  {
    if q[0] != b { ParkedHashIsCounted(q[1..], b); }
  }

  /** Nothing else in the system has the hash of `b`. */
  ghost predicate Alone(s: Sys, b: Block) {
    && (s.hand1.Some? ==> s.hand1.value.Hash() != b.Hash())
    && (s.hand2.Some? ==> s.hand2.value.Hash() != b.Hash())
    && forall x :: x in s.secondChan ==> x.Hash() != b.Hash()
  }

  lemma StillAbove(c: seq<Block>, m: nat, x: Block)
    requires m + 1 < |c| && Above(c, m, x) && x.Hash() != c[m + 1].Hash()
    ensures Above(c, m + 1, x)
  {
  }

  lemma AfterNext(c: seq<Block>, m: nat, s: Sys, v: View, outcome: Outcome)
    requires m + 1 < |c| && After(c, m, s) && Alone(s, c[m + 1])
    requires v == ViewAfter(c, m + 1)
    requires outcome == Accepted(if m + 1 > MAX_BUFFER_SIZE then Some(c[Popped(m + 1)]) else None)
    ensures After(c, m + 1, Finish(s, c[m + 1], v, outcome))
    ensures Finish(s, c[m + 1], v, outcome).secondChan == s.secondChan
  {
    assert s.popped + Sent(outcome) == c[1..Popped(m + 1) + 1];
    assert s.secondChan + [] == s.secondChan;
    forall x | Above(c, m, x) && x.Hash() != c[m + 1].Hash() { StillAbove(c, m, x); }
  }

  /** A goroutine holding `b` finishes its locked body. */
  lemma BodyStaysOnChain(c: seq<Block>, m: nat, s: Sys, b: Block)
    requires IsChain(c) && After(c, m, s) && Above(c, m, b) && Alone(s, b)
    ensures b == c[m + 1] ==> After(c, m + 1, Body(s, b, true)) && Body(s, b, true).secondChan == s.secondChan
    ensures b != c[m + 1] ==> Body(s, b, true) == s.(secondChan := s.secondChan + [b])
  {
    hide IsChain, ViewAfter, Body, Locked;
    if b == c[m + 1] {
      NextIsAdmitted(c, m);
      FinishNext(c, m, s);
    } else {
      LaterIsParked(c, m, b.Height() - c[0].Height());
      FinishParked(c, m, s, b);
    }
  }

  lemma FinishNext(c: seq<Block>, m: nat, s: Sys)
    requires m + 1 < |c| && After(c, m, s) && Alone(s, c[m + 1])
    requires Locked(s.view, c[m + 1], true)
          == (ViewAfter(c, m + 1), Accepted(if m + 1 > MAX_BUFFER_SIZE then Some(c[Popped(m + 1)]) else None))
    ensures After(c, m + 1, Body(s, c[m + 1], true)) && Body(s, c[m + 1], true).secondChan == s.secondChan
  {
    AfterNext(c, m, s, Locked(s.view, c[m + 1], true).0, Locked(s.view, c[m + 1], true).1);
  }

  lemma FinishParked(c: seq<Block>, m: nat, s: Sys, b: Block)
    requires After(c, m, s) && Locked(s.view, b, true) == (s.view, Parked)
    ensures Body(s, b, true) == s.(secondChan := s.secondChan + [b])
  {
    assert s.popped + [] == s.popped && s.accepted + {} == s.accepted;
  }

  ghost predicate AllPass(acts: seq<Action>) {
    forall i :: 0 <= i < |acts| ==> acts[i] != Body1(false) && acts[i] != Body2(false)
  }

  ghost predicate DeliversAbove(acts: seq<Action>, c: seq<Block>)
    requires c != []
  {
    forall i :: 0 <= i < |acts| && acts[i].Deliver? ==> Above(c, 0, acts[i].block)
  }

  lemma TakeStaysOnChain(c: seq<Block>, m: nat, s: Sys)
    requires Ladder(c) && After(c, m, s) && Placed(s)
    ensures After(c, m, Step(s, Take1)) && After(c, m, Step(s, Take2))
  {
    if s.blockChan != [] {
      var b := s.blockChan[0];
      assert Above(c, 0, b);
      if b.Height() - c[0].Height() <= m {
        assert b.Hash() in s.view.processed;
        assert Places(s, b.Hash()) == Bit(b.Hash() in s.known);
      }
    }
    if s.secondChan != [] { assert Above(c, m, s.secondChan[0]); }
  }

  lemma HeldBodyStaysOnChain(c: seq<Block>, m: nat, s: Sys, b: Block) returns (m': nat)
    requires IsChain(c) && After(c, m, s) && Above(c, m, b) && Alone(s, b)
    ensures m <= m' && After(c, m', Body(s, b, true))
  {
    hide IsChain, ViewAfter, Body;
    BodyStaysOnChain(c, m, s, b);
    if b == c[m + 1] {
      m' := m + 1;
    } else {
      m' := m;
      assert forall x :: x in s.secondChan + [b] ==> Above(c, m, x);
    }
  }

  /** One more step of either goroutine, or one more delivery. */
  lemma StepStaysOnChain(c: seq<Block>, m: nat, s: Sys, a: Action) returns (m': nat)
    requires IsChain(c) && After(c, m, s) && Placed(s)
    requires a != Body1(false) && a != Body2(false) && (a.Deliver? ==> Above(c, 0, a.block))
    ensures m <= m' && After(c, m', Step(s, a))
  {
    hide ViewAfter, Body, Alone;
    m' := m;
    match a
    case Deliver(b) =>
    case Take1 => TakeStaysOnChain(c, m, s);
    case Take2 => TakeStaysOnChain(c, m, s);
    case Body1(ok) =>
      if s.hand1.Some? {
        HandIsAlone(s, s.hand1.value);
        m' := HeldBodyStaysOnChain(c, m, s.(hand1 := None), s.hand1.value);
      }
    case Body2(ok) =>
      if s.hand2.Some? {
        HandIsAlone(s, s.hand2.value);
        m' := HeldBodyStaysOnChain(c, m, s.(hand2 := None), s.hand2.value);
      }
  }

  /** A hash in hand is in no other place. */
  lemma HandIsAlone(s: Sys, b: Block)
    requires Placed(s)
    ensures s.hand1 == Some(b) ==> Alone(s.(hand1 := None), b)
    ensures s.hand2 == Some(b) ==> Alone(s.(hand2 := None), b)
  {
    assert Places(s, b.Hash()) == Bit(b.Hash() in s.known) <= 1;
    if s.hand1 == Some(b) || s.hand2 == Some(b) {
      forall x | x in s.secondChan
        ensures x.Hash() != b.Hash()
      {
        ParkedHashIsCounted(s.secondChan, x);
      }
    }
  }

  lemma RunIsPlaced(root: Block, acts: seq<Action>)
    ensures Placed(Run(InitSys(root), acts))
  {
    forall h { BlocksAreConserved(root, acts, h); }
  }

  lemma {:induction false} RunStaysOnChain(c: seq<Block>, acts: seq<Action>) returns (m: nat)
    requires IsChain(c) && AllPass(acts) && DeliversAbove(acts, c)
    ensures After(c, m, Run(InitSys(c[0]), acts))
  {
    if acts == [] {
      m := 0;
      assert SelectedAfter(c, 1, 0) == map[];
    } else {
      var before := acts[..|acts| - 1];
      m := RunStaysOnChain(c, before);
      RunIsPlaced(c[0], before);
      m := StepStaysOnChain(c, m, Run(InitSys(c[0]), before), acts[|acts| - 1]);
    }
  }

  // ---------- nothing delivered is lost ----------

  /** Block `j` of the chain is waiting somewhere, or is among the blocks the view went through. */
  ghost predicate Somewhere(c: seq<Block>, s: Sys, j: nat)
    requires j < |c|
  {
    || c[j] in s.blockChan || c[j] in s.secondChan || s.hand1 == Some(c[j]) || s.hand2 == Some(c[j])
    || j <= s.view.buffered - c[0].Height()
  }

  lemma {:induction false} CountedHashIsParked(q: seq<Block>, h: Hash)
    requires Occurrences(q, h) >= 1
    ensures exists x :: x in q && x.Hash() == h
  {
    if q[0].Hash() != h { CountedHashIsParked(q[1..], h); }
  }

  lemma SameHashAbove(c: seq<Block>, m: nat, x: Block, j: nat)
    requires IsChain(c) && j < |c| && Above(c, m, x) && x.Hash() == c[j].Hash()
    ensures x == c[j]
  {
    ChainHashesDiffer(c, x.Height() - c[0].Height(), j);
  }

  lemma KnownIsSomewhere(c: seq<Block>, m: nat, s: Sys, j: nat)
    requires IsChain(c) && After(c, m, s) && Placed(s) && j < |c| && c[j].Hash() in s.known
    ensures Somewhere(c, s, j)
  {
    var h := c[j].Hash();
    assert Places(s, h) == 1;
    if s.hand1.Some? && s.hand1.value.Hash() == h { SameHashAbove(c, m, s.hand1.value, j); }
    if s.hand2.Some? && s.hand2.value.Hash() == h { SameHashAbove(c, m, s.hand2.value, j); }
    if Occurrences(s.secondChan, h) >= 1 {
      CountedHashIsParked(s.secondChan, h);
      var x :| x in s.secondChan && x.Hash() == h;
      SameHashAbove(c, m, x, j);
    }
    ProcessedIsPrefix(c, m, j);
  }

  lemma BodyKeepsQueues(s: Sys, b: Block, ok: bool)
    ensures var s' := Body(s, b, ok);
      s'.blockChan == s.blockChan && s'.hand1 == s.hand1 && s'.hand2 == s.hand2 && s'.known == s.known
  {
  }

  lemma AfterMark(c: seq<Block>, m: nat, s: Sys)
    requires After(c, m, s)
    ensures s.view.buffered == c[0].Height() + m
  {
  }

  lemma BodyKeepsSomewhere(c: seq<Block>, m: nat, s: Sys, b: Block, j: nat)
    requires IsChain(c) && After(c, m, s) && Above(c, m, b) && Alone(s, b) && j < |c|
    requires Somewhere(c, s, j) || b == c[j]
    ensures Somewhere(c, Body(s, b, true), j)
  {
    BodyStaysOnChain(c, m, s, b);
    BodyKeepsQueues(s, b, true);
    AfterMark(c, m, s);
    if b == c[m + 1] {
      AfterMark(c, m + 1, Body(s, b, true));
      if b == c[j] { ChainHashesDiffer(c, m + 1, j); }
    }
    hide Body, Alone, After, IsChain, Above;
  }

  lemma StepKeepsSomewhere(c: seq<Block>, m: nat, s: Sys, a: Action, j: nat)
    requires IsChain(c) && After(c, m, s) && Placed(s) && 1 <= j < |c|
    requires a != Body1(false) && a != Body2(false) && (a.Deliver? ==> Above(c, 0, a.block))
    requires Somewhere(c, s, j) || a == Deliver(c[j])
    ensures Somewhere(c, Step(s, a), j)
  {
    hide Body, ViewAfter, Alone, Places;
    match a
    case Deliver(b) =>
    case Take1 => TakeKeepsSomewhere(c, m, s, j);
    case Take2 => assert s.secondChan != [] ==> Above(c, m, s.secondChan[0]); AfterLatest(c, m, s);
    case Body1(ok) =>
      if s.hand1.Some? {
        HandIsAlone(s, s.hand1.value);
        BodyKeepsSomewhere(c, m, s.(hand1 := None), s.hand1.value, j);
      }
    case Body2(ok) =>
      if s.hand2.Some? {
        HandIsAlone(s, s.hand2.value);
        BodyKeepsSomewhere(c, m, s.(hand2 := None), s.hand2.value, j);
      }
  }

  lemma AfterLatest(c: seq<Block>, m: nat, s: Sys)
    requires Ladder(c) && After(c, m, s)
    ensures c[0].Height() <= s.view.latest.Height() <= c[0].Height() + m == s.view.buffered
  {
  }

  lemma TakeKeepsSomewhere(c: seq<Block>, m: nat, s: Sys, j: nat)
    requires IsChain(c) && After(c, m, s) && Placed(s) && 1 <= j < |c| && Somewhere(c, s, j)
    ensures Somewhere(c, Step(s, Take1), j)
  {
    AfterLatest(c, m, s);
    if s.hand1.None? && s.blockChan != [] && s.blockChan[0] == c[j] {
      if c[j].Hash() in s.known {
        var s' := s.(blockChan := s.blockChan[1..]);
        assert forall h :: Places(s', h) == Places(s, h);
        KnownIsSomewhere(c, m, s', j);
      }
    }
  }

  /** Every delivered block of the chain is waiting somewhere or already in the view's past. */
  lemma {:induction false} DeliveredIsSomewhere(c: seq<Block>, acts: seq<Action>, j: nat)
    requires IsChain(c) && AllPass(acts) && DeliversAbove(acts, c) && 1 <= j < |c|
    requires Deliver(c[j]) in acts
    ensures Somewhere(c, Run(InitSys(c[0]), acts), j)
  {
    hide IsChain, After, Somewhere, Placed, Step;
    var before, a := acts[..|acts| - 1], acts[|acts| - 1];
    if a != Deliver(c[j]) {
      assert Deliver(c[j]) in before;
      DeliveredIsSomewhere(c, before, j);
    }
    var m := RunStaysOnChain(c, before);
    RunIsPlaced(c[0], before);
    StepKeepsSomewhere(c, m, Run(InitSys(c[0]), before), a, j);
  }

  ghost predicate AllDelivered(acts: seq<Action>, c: seq<Block>) {
    forall j :: 1 <= j < |c| ==> Deliver(c[j]) in acts
  }

  ghost predicate Quiescent(s: Sys) {
    s.blockChan == [] && s.secondChan == [] && s.hand1 == None && s.hand2 == None
  }

  /** Whatever the order, the duplicates and the interleaving: once nothing is waiting, the buffer
      has popped the first blocks in order and selected the rest. */
  lemma QuiescentRunIsDetermined(c: seq<Block>, acts: seq<Action>)
    requires IsChain(c) && AllPass(acts) && DeliversAbove(acts, c) && AllDelivered(acts, c)
    requires Quiescent(Run(InitSys(c[0]), acts))
    ensures var n := |c| - 1; var s := Run(InitSys(c[0]), acts);
      && !s.panicked
      && s.popped == c[1..if n > 12 then n - 11 else 1]
      && s.view == ViewAfter(c, n)
  {
    hide IsChain, ViewAfter, Run;
    var m := RunStaysOnChain(c, acts);
    AfterMark(c, m, Run(InitSys(c[0]), acts));
    if |c| > 1 {
      DeliveredIsSomewhere(c, acts, |c| - 1);
    }
  }

  // ---------- the second queue drains ----------

  /** `k` iterations of secondProcess. */
  function SecondRounds(k: nat): seq<Action> {
    if k == 0 then [] else [Take2, Body2(true)] + SecondRounds(k - 1)
  }

  lemma {:induction false} RunConcat(s: Sys, a: seq<Action>, b: seq<Action>)
    ensures Run(s, a + b) == Run(Run(s, a), b)
  {
    hide Step;
    if b == [] {
      assert a + b == a;
    } else {
      assert (a + b)[..|a + b| - 1] == a + b[..|b| - 1];
      RunConcat(s, a, b[..|b| - 1]);
    }
  }

  function Round(s: Sys): Sys {
    Step(Step(s, Take2), Body2(true))
  }

  lemma RunRound(s: Sys, k: nat)
    requires k > 0
    ensures Run(s, SecondRounds(k)) == Run(Round(s), SecondRounds(k - 1))
  {
    hide Step;
    var two := [Take2, Body2(true)];
    RunConcat(s, two, SecondRounds(k - 1));
    assert two[..1] == [Take2] && [Take2][..0] == [];
    assert Run(s, [Take2]) == Step(Run(s, []), Take2);
    assert Run(s, two) == Step(Run(s, two[..1]), Body2(true));
  }

  /** Only the second queue holds blocks, and every block of the chain still missing is in it. */
  ghost predicate Waiting(c: seq<Block>, m: nat, s: Sys) {
    && After(c, m, s) && Placed(s)
    && s.blockChan == [] && s.hand1 == None && s.hand2 == None
    && forall j :: m < j < |c| ==> c[j] in s.secondChan
  }

  lemma RoundIsPlaced(s: Sys)
    requires Placed(s)
    ensures Placed(Round(s))
  {
    hide Step, Places;
    forall h
      ensures Places(Round(s), h) == Bit(h in Round(s).known)
    {
      StepKeepsPlaces(s, Take2, h);
      StepKeepsPlaces(Step(s, Take2), Body2(true), h);
    }
  }

  lemma TakeSecond(c: seq<Block>, m: nat, s: Sys)
    requires Ladder(c) && Waiting(c, m, s) && s.secondChan != []
    ensures Step(s, Take2) == s.(secondChan := s.secondChan[1..], hand2 := Some(s.secondChan[0]))
    ensures Above(c, m, s.secondChan[0]) && After(c, m, s.(secondChan := s.secondChan[1..]))
    ensures Alone(s.(secondChan := s.secondChan[1..]), s.secondChan[0])
  {
    var b := s.secondChan[0];
    assert Above(c, m, b);
    AfterLatest(c, m, s);
    assert Places(s, b.Hash()) == Bit(b.Hash() in s.known) <= 1;
    forall x | x in s.secondChan[1..]
      ensures x.Hash() != b.Hash()
    {
      ParkedHashIsCounted(s.secondChan[1..], x);
    }
  }

  /** One iteration admits the head of the queue if it is next on the chain, and requeues it if not. */
  lemma RoundRotates(c: seq<Block>, m: nat, s: Sys)
    requires IsChain(c) && Waiting(c, m, s) && s.secondChan != []
    ensures var head, rest := s.secondChan[0], s.secondChan[1..];
      && m + 1 < |c|
      && (head == c[m + 1] ==> Waiting(c, m + 1, Round(s)) && Round(s).secondChan == rest)
      && (head != c[m + 1] ==> Waiting(c, m, Round(s)) && Round(s).secondChan == rest + [head])
  {
    hide Body, Places, ViewAfter, Alone;
    var b, s1 := s.secondChan[0], s.(secondChan := s.secondChan[1..]);
    TakeSecond(c, m, s);
    RoundIsPlaced(s);
    BodyStaysOnChain(c, m, s1, b);
    BodyKeepsQueues(s1, b, true);
    assert Round(s) == Body(s1, b, true);
    assert s.secondChan == [b] + s.secondChan[1..];
  }

  lemma IdleRounds(s: Sys, k: nat)
    requires s.secondChan == [] && s.hand2 == None
    ensures Run(s, SecondRounds(k)) == s
  {
    if k > 0 {
      RunRound(s, k);
      IdleRounds(s, k - 1);
    }
  }

  lemma SquareStep(l: nat, p: nat, p': nat, k: nat)
    requires 0 < l && k >= p + 1 + (l - 1) * l
    ensures k >= 1
    ensures p' + 1 < l ==> k - 1 >= p' + 1 + (l - 2) * (l - 1)
    ensures p > 0 ==> k - 1 >= (p - 1) + 1 + (l - 1) * l
  {
    assert (l - 1) * l == (l - 2) * (l - 1) + 2 * (l - 1);
  }

  /** `p` is the position of the next block in the queue. */
  lemma {:induction false} RoundsDrain(c: seq<Block>, m: nat, s: Sys, p: nat, k: nat)
    requires IsChain(c) && Waiting(c, m, s)
    requires p < |s.secondChan| && m + 1 < |c| && s.secondChan[p] == c[m + 1]
    requires k >= p + 1 + (|s.secondChan| - 1) * |s.secondChan|
    ensures Quiescent(Run(s, SecondRounds(k)))
    decreases k
  {
    hide IsChain, After, Placed, Step;
    var q := s.secondChan;
    RoundRotates(c, m, s);
    SquareStep(|q|, p, 0, k);
    RunRound(s, k);
    if q[0] == c[m + 1] {
      if |q| == 1 {
        IdleRounds(Round(s), k - 1);
      } else {
        RoundRotates(c, m + 1, Round(s));
        assert c[m + 2] in q[1..];
        var p' :| 0 <= p' < |q| - 1 && q[1..][p'] == c[m + 2];
        SquareStep(|q|, p, p', k);
        RoundsDrain(c, m + 1, Round(s), p', k - 1);
      }
    } else {
      assert (q[1..] + [q[0]])[p - 1] == c[m + 1];
      RoundsDrain(c, m, Round(s), p - 1, k - 1);
    }
  }

  lemma SquareBound(l: nat, p: nat)
    requires p < l
    ensures l * l >= p + 1 + (l - 1) * l
  {
  }

  lemma WaitingDrains(c: seq<Block>, m: nat, s: Sys, k: nat)
    requires IsChain(c) && Waiting(c, m, s) && k >= |s.secondChan| * |s.secondChan|
    ensures Quiescent(Run(s, SecondRounds(k)))
  {
    hide IsChain, After, Placed, Run;
    var l := |s.secondChan|;
    if l == 0 {
      IdleRounds(s, k);
    } else {
      RoundRotates(c, m, s);
      var p :| 0 <= p < l && s.secondChan[p] == c[m + 1];
      SquareBound(l, p);
      RoundsDrain(c, m, s, p, k);
    }
  }

  lemma IdleIsWaiting(c: seq<Block>, acts: seq<Action>) returns (m: nat)
    requires IsChain(c) && AllPass(acts) && DeliversAbove(acts, c) && AllDelivered(acts, c)
    requires var s := Run(InitSys(c[0]), acts); s.blockChan == [] && s.hand1 == None && s.hand2 == None
    ensures Waiting(c, m, Run(InitSys(c[0]), acts))
  {
    assert c != [];
    hide IsChain, Run, ViewAfter;
    var s := Run(InitSys(c[0]), acts);
    m := RunStaysOnChain(c, acts);
    RunIsPlaced(c[0], acts);
    AfterMark(c, m, s);
    forall j | m < j < |c|
      ensures c[j] in s.secondChan
    {
      DeliveredIsSomewhere(c, acts, j);
    }
  }

  lemma {:induction false} SecondRoundsAre(k: nat)
    ensures forall i :: 0 <= i < |SecondRounds(k)| ==> SecondRounds(k)[i] in {Take2, Body2(true)}
  {
    if k > 0 { SecondRoundsAre(k - 1); }
  }

  /** Steps of the two goroutines in which the VDF check passes. */
  ghost predicate Harmless(more: seq<Action>) {
    forall i :: 0 <= i < |more| ==> more[i] in {Take1, Body1(true), Take2, Body2(true)}
  }

  /** They deliver nothing and pass. */
  lemma HarmlessAdds(acts: seq<Action>, c: seq<Block>, more: seq<Action>)
    requires c != [] && AllPass(acts) && DeliversAbove(acts, c) && AllDelivered(acts, c) && Harmless(more)
    ensures var all := acts + more; AllPass(all) && DeliversAbove(all, c) && AllDelivered(all, c)
  {
    hide Above;
    var all := acts + more;
    forall i | 0 <= i < |all|
      ensures all[i] in {Take1, Body1(true), Take2, Body2(true)} || (i < |acts| && all[i] == acts[i])
    {
      if i >= |acts| { assert all[i] == more[i - |acts|]; }
    }
  }

  /** With the first queue and both hands empty and q blocks parked, q * q iterations of secondProcess
      empty the second queue. */
  lemma ParkedBlocksDrain(c: seq<Block>, acts: seq<Action>, k: nat)
    requires IsChain(c) && AllPass(acts) && DeliversAbove(acts, c) && AllDelivered(acts, c)
    requires var s := Run(InitSys(c[0]), acts);
      s.blockChan == [] && s.hand1 == None && s.hand2 == None && k >= |s.secondChan| * |s.secondChan|
    ensures AllPass(acts + SecondRounds(k)) && DeliversAbove(acts + SecondRounds(k), c)
    ensures AllDelivered(acts + SecondRounds(k), c)
    ensures Quiescent(Run(InitSys(c[0]), acts + SecondRounds(k)))
  {
    assert c != [];
    hide IsChain, AllPass, DeliversAbove, AllDelivered, Waiting, Run, InitSys, Harmless, SecondRounds;
    var m := IdleIsWaiting(c, acts);
    WaitingDrains(c, m, Run(InitSys(c[0]), acts), k);
    RunConcat(InitSys(c[0]), acts, SecondRounds(k));
    assert Harmless(SecondRounds(k)) by { SecondRoundsAreHarmless(k); }
    HarmlessAdds(acts, c, SecondRounds(k));
  }

  lemma SecondRoundsAreHarmless(k: nat)
    ensures Harmless(SecondRounds(k))
  {
    SecondRoundsAre(k);
  }

  // ---------- the first queue drains ----------

  /** `j` iterations of Process. */
  function FirstRounds(j: nat): seq<Action> {
    if j == 0 then [] else [Take1, Body1(true)] + FirstRounds(j - 1)
  }

  /** Both goroutines finish what they hold, then Process works off its queue. */
  function Settle(j: nat): seq<Action> {
    [Body1(true), Body2(true)] + FirstRounds(j)
  }

  lemma BodyParksOne(s: Sys, b: Block)
    ensures var s' := Body(s, b, true);
      s'.blockChan == s.blockChan && s'.hand1 == s.hand1 && s'.hand2 == s.hand2 && |s'.secondChan| <= |s.secondChan| + 1
  {
    hide Locked;
  }

  lemma TakeOnQueues(s: Sys)
    requires !s.panicked && s.hand1 == None
    ensures var s' := Step(s, Take1);
      && s'.hand2 == s.hand2 && s'.secondChan == s.secondChan
      && s'.blockChan == (if s.blockChan == [] then [] else s.blockChan[1..])
      && (s.blockChan == [] ==> s' == s)
  {
  }

  lemma BodiesOnQueues(s: Sys)
    requires !s.panicked
    ensures var s' := Step(s, Body1(true));
      && s'.hand1 == None && s'.hand2 == s.hand2 && s'.blockChan == s.blockChan
      && |s'.secondChan| <= |s.secondChan| + (if s.hand1.Some? then 1 else 0)
    ensures var s' := Step(s, Body2(true));
      && s'.hand2 == None && s'.hand1 == s.hand1 && s'.blockChan == s.blockChan
      && |s'.secondChan| <= |s.secondChan| + 1
  {
    hide Body;
    if s.hand1.Some? { BodyParksOne(s.(hand1 := None), s.hand1.value); }
    if s.hand2.Some? { BodyParksOne(s.(hand2 := None), s.hand2.value); }
  }

  /** The schedules the theorem is about. */
  ghost predicate OnChain(c: seq<Block>, acts: seq<Action>) {
    IsChain(c) && AllPass(acts) && DeliversAbove(acts, c) && AllDelivered(acts, c)
  }

  /** Such a run goes on without a panic. */
  lemma NextStep(c: seq<Block>, acts: seq<Action>, a: Action)
    requires OnChain(c, acts) && c != [] && a in {Take1, Body1(true), Take2, Body2(true)}
    ensures OnChain(c, acts + [a])
    ensures !Run(InitSys(c[0]), acts).panicked && Run(InitSys(c[0]), acts + [a]) == Step(Run(InitSys(c[0]), acts), a)
  {
    hide IsChain, AllPass, DeliversAbove, AllDelivered, Step, InitSys;
    var m := RunStaysOnChain(c, acts);
    assert !Run(InitSys(c[0]), acts).panicked by { AfterMark(c, m, Run(InitSys(c[0]), acts)); }
    assert (acts + [a])[..|acts|] == acts;
    HarmlessAdds(acts, c, [a]);
  }

  /** One iteration of Process. */
  lemma OneRound(c: seq<Block>, acts: seq<Action>)
    requires OnChain(c, acts) && c != []
    requires var s := Run(InitSys(c[0]), acts); s.hand1 == None && s.hand2 == None
    ensures OnChain(c, acts + [Take1] + [Body1(true)])
    ensures var s, s' := Run(InitSys(c[0]), acts), Run(InitSys(c[0]), acts + [Take1] + [Body1(true)]);
      && s'.hand1 == None && s'.hand2 == None
      && s'.blockChan == (if s.blockChan == [] then [] else s.blockChan[1..])
      && |s'.secondChan| <= |s.secondChan| + (if s.blockChan == [] then 0 else 1)
  {
    hide OnChain, Run, InitSys, Step;
    NextStep(c, acts, Take1);
    NextStep(c, acts + [Take1], Body1(true));
    TakeOnQueues(Run(InitSys(c[0]), acts));
    BodiesOnQueues(Run(InitSys(c[0]), acts + [Take1]));
  }

  lemma UnfoldRounds(acts: seq<Action>, j: nat)
    ensures acts + FirstRounds(0) == acts
    ensures j > 0 ==> acts + [Take1] + [Body1(true)] + FirstRounds(j - 1) == acts + FirstRounds(j)
    ensures acts + [Body1(true)] + [Body2(true)] + FirstRounds(j) == acts + Settle(j)
  {
  }

  lemma {:induction false} FirstQueueDrains(c: seq<Block>, acts: seq<Action>, j: nat)
    requires OnChain(c, acts) && c != []
    requires var s := Run(InitSys(c[0]), acts); s.hand1 == None && s.hand2 == None && |s.blockChan| <= j
    ensures OnChain(c, acts + FirstRounds(j))
    ensures var s, s' := Run(InitSys(c[0]), acts), Run(InitSys(c[0]), acts + FirstRounds(j));
      && s'.blockChan == [] && s'.hand1 == None && s'.hand2 == None
      && |s'.secondChan| <= |s.secondChan| + |s.blockChan|
    decreases j
  {
    hide OnChain, Run, InitSys, FirstRounds;
    UnfoldRounds(acts, j);
    if j > 0 {
      OneRound(c, acts);
      FirstQueueDrains(c, acts + [Take1] + [Body1(true)], j - 1);
    }
  }

  lemma Settles(c: seq<Block>, acts: seq<Action>, j: nat)
    requires OnChain(c, acts) && c != [] && |Run(InitSys(c[0]), acts).blockChan| <= j
    ensures OnChain(c, acts + Settle(j))
    ensures var s, s' := Run(InitSys(c[0]), acts), Run(InitSys(c[0]), acts + Settle(j));
      && s'.blockChan == [] && s'.hand1 == None && s'.hand2 == None
      && |s'.secondChan| <= |s.secondChan| + |s.blockChan| + 2
  {
    hide OnChain, Run, InitSys, Step, FirstRounds, Settle;
    var first := acts + [Body1(true)];
    NextStep(c, acts, Body1(true));
    NextStep(c, first, Body2(true));
    BodiesOnQueues(Run(InitSys(c[0]), acts));
    BodiesOnQueues(Run(InitSys(c[0]), first));
    FirstQueueDrains(c, first + [Body2(true)], j);
    UnfoldRounds(acts, j);
  }

  lemma SquareGrows(m: nat, n: nat)
    requires m <= n
    ensures m * m <= n * n
  {
  }

  /** Delivery-order independence. Take any state of any run in which the blocks above `c[0]` have been
      delivered in any order, with duplicates and under any interleaving. Let both goroutines finish
      what they hold, let Process work off its queue and let secondProcess run (q + 2)^2 times, where q
      blocks were queued or parked: then nothing waits any more, and the result is the one the chain
      alone determines, the first blocks popped in order and the rest selected. */
  lemma DeliveryOrderIsIrrelevant(c: seq<Block>, acts: seq<Action>, j: nat, k: nat)
    requires IsChain(c) && AllPass(acts) && DeliversAbove(acts, c) && AllDelivered(acts, c)
    requires var s := Run(InitSys(c[0]), acts); var q := |s.secondChan| + |s.blockChan|;
      j >= |s.blockChan| && k >= (q + 2) * (q + 2)
    ensures var n := |c| - 1; var s := Run(InitSys(c[0]), acts + Settle(j) + SecondRounds(k));
      && Quiescent(s) && !s.panicked
      && s.popped == c[1..if n > 12 then n - 11 else 1]
      && s.view == ViewAfter(c, n)
  {
    assert c != [];
    hide IsChain, AllPass, DeliversAbove, AllDelivered, Run, InitSys, Settle, SecondRounds, Quiescent;
    var s, s' := Run(InitSys(c[0]), acts), Run(InitSys(c[0]), acts + Settle(j));
    Settles(c, acts, j);
    SquareGrows(|s'.secondChan|, |s.secondChan| + |s.blockChan| + 2);
    ParkedBlocksDrain(c, acts + Settle(j), k);
    QuiescentRunIsDetermined(c, acts + Settle(j) + SecondRounds(k));
  }
}
