/** Every interleaving of Process and secondProcess over one buffer, as runs of a transition
    system, and what holds in all of their states. */
module BufferRuns {
  import opened Types
  import opened BufferView
  import BB = BlockBuffer

  /** `hand1` and `hand2` are the blocks the goroutines hold between their unlocked height test and
      the locked body. `accepted`, `dropped` and `popped` record history: the blocks that passed the
      VDF check, the admitted hashes secondProcess found too low, the blocks sent to popChan. */
  datatype Sys = Sys(
    view: View,
    blockChan: seq<Block>,
    hand1: Option<Block>,
    secondChan: seq<Block>,
    hand2: Option<Block>,
    known: set<Hash>,
    panicked: bool,
    accepted: set<Block>,
    dropped: set<Hash>,
    popped: seq<Block>)

  function InitSys(root: Block): Sys {
    Sys(InitView(root), [], None, [], None, {}, false, {}, {}, [])
  }

  /** Body actions carry the answer VerifyBlockVDF gives at that moment. */
  datatype Action = Deliver(block: Block) | Take1 | Body1(ok: bool) | Take2 | Body2(ok: bool)

  /** The system after a locked body that left view `v` and ended in `outcome`. */
  function Finish(s: Sys, b: Block, v: View, outcome: Outcome): Sys {
    s.(view := v,
       secondChan := s.secondChan + (if outcome.Parked? then [b] else []),
       panicked := outcome.Panicked?,
       accepted := s.accepted + (if outcome.Accepted? || outcome.Panicked? then {b} else {}),
       popped := s.popped + Sent(outcome))
  }

  function Body(s: Sys, b: Block, ok: bool): Sys {
    var (v, outcome) := Locked(s.view, b, ok);
    Finish(s, b, v, outcome)
  }

  /** One step; an action that is not enabled changes nothing, and nothing moves after a panic. */
  function Step(s: Sys, a: Action): Sys {
    if s.panicked then s else
    match a
    case Deliver(b) => s.(blockChan := s.blockChan + [b])
    case Take1 =>
      if s.hand1.Some? || s.blockChan == [] then s else
      var b, s' := s.blockChan[0], s.(blockChan := s.blockChan[1..]);
      if b.Height() <= s.view.latest.Height() || b.Hash() in s.known then s'
      else s'.(known := s.known + {b.Hash()}, hand1 := Some(b))
    case Body1(ok) => if s.hand1.None? then s else Body(s.(hand1 := None), s.hand1.value, ok)
    case Take2 =>
      if s.hand2.Some? || s.secondChan == [] then s else
      var b, s' := s.secondChan[0], s.(secondChan := s.secondChan[1..]);
      if b.Height() <= s.view.latest.Height() then s'.(dropped := s.dropped + {b.Hash()})
      else s'.(hand2 := Some(b))
    case Body2(ok) => if s.hand2.None? then s else Body(s.(hand2 := None), s.hand2.value, ok)
  }

  /** Each goroutine takes the head of its queue into its hand unless it is not above the latest block;
      Process also lets every hash in just once. Nothing else moves. */
  lemma TakesExactly(s: Sys)
    requires !s.panicked
    ensures s.hand1.None? && s.blockChan != [] ==>
      var b, t := s.blockChan[0], Step(s, Take1);
      var fits := b.Height() > s.view.latest.Height() && b.Hash() !in s.known;
      t == s.(blockChan := s.blockChan[1..], known := if fits then s.known + {b.Hash()} else s.known,
              hand1 := if fits then Some(b) else None)
    ensures s.hand2.None? && s.secondChan != [] ==>
      var b, t := s.secondChan[0], Step(s, Take2);
      var fits := b.Height() > s.view.latest.Height();
      t == s.(secondChan := s.secondChan[1..], hand2 := if fits then Some(b) else None,
              dropped := if fits then s.dropped else s.dropped + {b.Hash()})
  {
  }

  function Run(s: Sys, acts: seq<Action>): Sys {
    if acts == [] then s else Step(Run(s, acts[..|acts| - 1]), acts[|acts| - 1])
  }

  /** The object of core/buffer.go and the blocks its goroutines hold are in system state `s`. */
  ghost predicate Mirrors(s: Sys, buffer: BB.BlockBuffer, hand1: Option<Block>, hand2: Option<Block>, panicked: bool)
    reads buffer
  {
    && buffer.Valid()
    && panicked == s.panicked && hand1 == s.hand1 && hand2 == s.hand2
    && buffer.AsView() == s.view && buffer.knownBlocks == s.known
    && buffer.blockChan == s.blockChan && buffer.secondChan == s.secondChan
    && buffer.popChan == s.popped
  }

  method PerformBody(buffer: BB.BlockBuffer, b: Block, ok: bool, ghost s: Sys, ghost h1: Option<Block>,
          ghost h2: Option<Block>)
    returns (panicked: bool)
    requires Mirrors(s, buffer, h1, h2, false)
    modifies buffer
    ensures Mirrors(Body(s, b, ok), buffer, h1, h2, panicked)
  {
    var outcome := buffer.LockedBody(b, ok);
    panicked := outcome.Panicked?;
  }

  method Perform(buffer: BB.BlockBuffer, a: Action, h1: Option<Block>, h2: Option<Block>, ghost s: Sys)
    returns (hand1: Option<Block>, hand2: Option<Block>, panicked: bool)
    requires Mirrors(s, buffer, h1, h2, false)
    modifies buffer
    ensures Mirrors(Step(s, a), buffer, hand1, hand2, panicked)
  {
    hand1, hand2, panicked := h1, h2, false;
    match a
    case Deliver(b) => buffer.AppendBlock(b);
    case Take1 => if h1.None? && buffer.blockChan != [] { hand1 := buffer.ProcessTake(); }
    case Take2 => if h2.None? && buffer.secondChan != [] { hand2 := buffer.SecondTake(); }
    case Body1(ok) =>
      if h1.Some? {
        hand1 := None;
        panicked := PerformBody(buffer, h1.value, ok, s.(hand1 := None), None, h2);
      }
    case Body2(ok) =>
      if h2.Some? {
        hand2 := None;
        panicked := PerformBody(buffer, h2.value, ok, s.(hand2 := None), h1, None);
      }
  }

  /** Driven through any schedule, the object goes through the states of the run. */
  method Execute(root: Block, acts: seq<Action>)
    returns (buffer: BB.BlockBuffer, hand1: Option<Block>, hand2: Option<Block>, panicked: bool)
    ensures Mirrors(Run(InitSys(root), acts), buffer, hand1, hand2, panicked)
  {
    buffer := new BB.BlockBuffer(root);
    hand1, hand2, panicked := None, None, false;
    for i := 0 to |acts|
      invariant fresh(buffer)
      invariant Mirrors(Run(InitSys(root), acts[..i]), buffer, hand1, hand2, panicked)
    {
      assert acts[..i + 1][..i] == acts[..i];
      if !panicked {
        hand1, hand2, panicked := Perform(buffer, acts[i], hand1, hand2, Run(InitSys(root), acts[..i]));
      }
    }
    assert acts[..|acts|] == acts;
  }
}
