/** Nothing gets into the selection, on popChan or among the latest blocks without having passed the VDF
    check. */
module BufferVerified {
  import opened Types
  import opened BufferView
  import opened BufferRuns
  import opened BufferSafety

  /** Step `i` was a locked body in which block `b` passed the VDF check. */
  predicate PassesAt(root: Block, acts: seq<Action>, i: nat, b: Block)
    requires i < |acts|
  {
    var s := Run(InitSys(root), acts[..i]);
    (acts[i] == Body1(true) && s.hand1 == Some(b)) || (acts[i] == Body2(true) && s.hand2 == Some(b))
  }

  ghost predicate Passed(root: Block, acts: seq<Action>, b: Block) {
    exists i :: 0 <= i < |acts| && PassesAt(root, acts, i, b)
  }

  lemma PassedStays(root: Block, acts: seq<Action>, a: Action, b: Block)
    requires Passed(root, acts, b)
    ensures Passed(root, acts + [a], b)
  {
    var i :| 0 <= i < |acts| && PassesAt(root, acts, i, b);
    assert (acts + [a])[..i] == acts[..i];
    assert PassesAt(root, acts + [a], i, b);
  }

  lemma PassedNow(root: Block, acts: seq<Action>, a: Action, b: Block)
    requires var s := Run(InitSys(root), acts);
      (a == Body1(true) && s.hand1 == Some(b)) || (a == Body2(true) && s.hand2 == Some(b))
    ensures Passed(root, acts + [a], b)
  {
    assert (acts + [a])[..|acts|] == acts;
    assert PassesAt(root, acts + [a], |acts|, b);
  }

  /** Only a body that passed adds to the accepted blocks, and only its own block. */
  lemma AcceptedByStep(s: Sys, a: Action, b: Block)
    requires b in Step(s, a).accepted && b !in s.accepted
    ensures (a == Body1(true) && s.hand1 == Some(b)) || (a == Body2(true) && s.hand2 == Some(b))
  {
    match a
    case Body1(ok) => if s.hand1.Some? { OutcomeExactly(s.view, s.hand1.value, ok); }
    case Body2(ok) => if s.hand2.Some? { OutcomeExactly(s.view, s.hand2.value, ok); }
    case _ =>
  }

  lemma {:induction false} AcceptedHasPassed(root: Block, acts: seq<Action>, b: Block)
    requires b in Run(InitSys(root), acts).accepted
    ensures Passed(root, acts, b)
  {
    if acts == [] {
    } else {
      hide Step, Passed;
      var before, a := acts[..|acts| - 1], acts[|acts| - 1];
      assert before + [a] == acts;
      if b in Run(InitSys(root), before).accepted {
        AcceptedHasPassed(root, before, b);
        PassedStays(root, before, a, b);
      } else {
        AcceptedByStep(Run(InitSys(root), before), a, b);
        PassedNow(root, before, a, b);
      }
    }
  }

  /** In every run: an accepted block, a selected one, a popped one, and the latest one unless it is the
      root, each passed the VDF check in some body that held it. */
  lemma OnlyVerifiedBlocks(root: Block, acts: seq<Action>, u: set<Block>, b: Block)
    requires HashTree(u) && root in u && DeliversFrom(acts, u)
    requires var s := Run(InitSys(root), acts);
      b in s.accepted || b in s.popped || (b.Height() in s.view.selected && s.view.selected[b.Height()] == b)
      || (b == s.view.latest && b != root)
    ensures exists i :: 0 <= i < |acts| && PassesAt(root, acts, i, b)
  {
    RunKeepsInv(root, acts, u);
    var s := Run(InitSys(root), acts);
    hide Run, InitSys, PassesAt;
    LatestClimbed(s.view, s.accepted, s.popped, root);
    assert b in s.accepted;
    AcceptedHasPassed(root, acts, b);
  }
}
