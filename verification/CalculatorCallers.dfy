/** The runs of the calculator that the rest of the node can cause. AppendNewSeed has three callers:
    insertBlock appends the genesis seed with proof 0, and both bodies of the buffer append what
    VerifyBlockVDF passed earlier. */
module CalculatorCallers {
  import opened Vdf
  import opened CalculatorRuns

  /** VerifyBlockVDF passed the pair after the first `j` steps. */
  predicate PassedThen(acts: seq<Action>, j: nat, seed: nat, proof: nat, p: Params)
    requires ValidParams(p) && j <= |acts|
  {
    var s := Run(acts[..j], p);
    Passes(s.prevSeed, s.seed, seed, proof, p)
  }

  /** Step `i`, if it appends, appends what passed before. */
  ghost predicate GuardedAt(acts: seq<Action>, i: nat, p: Params)
    requires ValidParams(p) && i < |acts|
  {
    acts[i].Append? ==> exists j :: 0 <= j <= i && PassedThen(acts, j, acts[i].seed, acts[i].proof, p)
  }

  /** A run on a node that starts from a database: nobody appends the genesis seed. */
  ghost predicate RestartedRun(acts: seq<Action>, p: Params)
    requires ValidParams(p)
  {
    forall i :: 0 <= i < |acts| ==> GuardedAt(acts, i, p)
  }

  /** A run on a node that stores the genesis block itself, with seed `g`. */
  ghost predicate FreshRun(acts: seq<Action>, g: nat, p: Params)
    requires ValidParams(p)
  {
    forall i :: 0 <= i < |acts| ==> acts[i] == Append(g, 0) || GuardedAt(acts, i, p)
  }

  // ---------- before the first seed ----------

  lemma AppendedAfterStep(s: Calc, a: Action, p: Params)
    requires ValidParams(p)
    ensures s.appended <= Step(s, a, p).appended
    ensures !a.Append? ==> Step(s, a, p).appended == s.appended
    ensures a.Append? && Refuses(s.prevSeed, s.seed, a.seed, a.proof, p) ==> Step(s, a, p).appended == s.appended
  {
    hide Accepted, Output, Proof;
  }

  lemma {:induction false} AppendedOnlyGrows(acts: seq<Action>, j: nat, p: Params)
    requires ValidParams(p) && j <= |acts|
    ensures Run(acts[..j], p).appended <= Run(acts, p).appended
  {
    if j < |acts| {
      hide Step;
      var before := acts[..|acts| - 1];
      assert before[..j] == acts[..j];
      AppendedOnlyGrows(before, j, p);
      AppendedAfterStep(Run(before, p), acts[|acts| - 1], p);
    } else {
      assert acts[..j] == acts;
    }
  }

  lemma EmptyMeansZero(acts: seq<Action>, p: Params)
    requires ValidParams(p) && Run(acts, p).appended == []
    ensures Run(acts, p).seed == Run(acts, p).prevSeed == Run(acts, p).proof == 0 && Run(acts, p).Installs() == 0
  {
    hide OutputsOk, AppendedOk, ReadingsOk, Run;
    RunKeepsInv(acts, p);
  }

  /** While nothing is appended only seed 0 passes, and that is a repeat. */
  lemma GuardedIsRefused(acts: seq<Action>, i: nat, p: Params)
    requires ValidParams(p) && i < |acts| && GuardedAt(acts, i, p) && Run(acts[..i], p).appended == []
    ensures Run(acts[..i + 1], p).appended == []
  {
    var s, a := Run(acts[..i], p), acts[i];
    assert acts[..i + 1] == acts[..i] + [a];
    RunSnoc(acts[..i], a, p);
    EmptyMeansZero(acts[..i], p);
    hide Run, Step, Accepted;
    if a.Append? {
      var j :| 0 <= j <= i && PassedThen(acts, j, a.seed, a.proof, p);
      assert acts[..i][..j] == acts[..j];
      AppendedOnlyGrows(acts[..i], j, p);
      EmptyMeansZero(acts[..j], p);
    }
    AppendedAfterStep(s, a, p);
  }

  lemma {:induction false} NothingAppended(acts: seq<Action>, n: nat, p: Params)
    requires ValidParams(p) && n <= |acts| && RestartedRun(acts, p)
    ensures Run(acts[..n], p).appended == []
  {
    hide GuardedAt, Step, Run;
    if n == 0 {
      assert acts[..0] == [];
      NothingAtFirst(p);
    } else {
      NothingAppended(acts, n - 1, p);
      GuardedIsRefused(acts, n - 1, p);
    }
  }

  /** A node that starts from a database initialises its calculator without a seed, and never gets one:
      in every run the seed stays 0, and only blocks with VDF result 0 pass. */
  lemma NoFirstSeed(acts: seq<Action>, p: Params, seed: nat, proof: nat)
    requires ValidParams(p) && RestartedRun(acts, p)
    ensures var s := Run(acts, p);
      && s.appended == [] && s.seed == 0
      && (Passes(s.prevSeed, s.seed, seed, proof, p) <==> seed == 0)
  {
    hide Run, GuardedAt, Accepted;
    assert acts[..|acts|] == acts;
    NothingAppended(acts, |acts|, p);
    EmptyMeansZero(acts, p);
  }

  lemma {:induction false} GenesisFirst(acts: seq<Action>, n: nat, g: nat, p: Params)
    requires ValidParams(p) && n <= |acts| && FreshRun(acts, g, p)
    ensures var a := Run(acts[..n], p).appended; a != [] ==> a[0] == Entry(g, 0, 0)
  {
    hide Run, Step, GuardedAt;
    if n == 0 {
      assert acts[..0] == [];
      NothingAtFirst(p);
    } else {
      GenesisFirst(acts, n - 1, g, p);
      var before, a := acts[..n - 1], acts[n - 1];
      assert acts[..n] == before + [a];
      RunSnoc(before, a, p);
      AppendedAfterStep(Run(before, p), a, p);
      if Run(before, p).appended == [] {
        if a == Append(g, 0) {
          EmptyMeansZero(before, p);
          FirstAppend(Run(before, p), g, p);
        } else {
          GuardedIsRefused(acts, n - 1, p);
        }
      }
    }
  }

  lemma NothingAtFirst(p: Params)
    requires ValidParams(p)
    ensures Run([], p).appended == []
  {
  }

  lemma FirstAppend(s: Calc, g: nat, p: Params)
    requires ValidParams(p) && s.appended == [] && s.Installs() == 0
    ensures var a := Step(s, Append(g, 0), p).appended; a == [] || a == [Entry(g, 0, 0)]
  {
  }

  /** On a fresh node the first pair is the genesis seed with proof 0. */
  lemma FirstPairIsGenesis(acts: seq<Action>, g: nat, p: Params)
    requires ValidParams(p) && FreshRun(acts, g, p)
    ensures var a := Run(acts, p).appended; a != [] ==> a[0] == Entry(g, 0, 0)
  {
    hide Run, FreshRun;
    assert acts[..|acts|] == acts;
    GenesisFirst(acts, |acts|, g, p);
  }

  // ---------- runs of a fresh node that go wrong ----------

  /** The next step of such a run. */
  lemma Go(acts: seq<Action>, a: Action, g: nat, p: Params)
    requires ValidParams(p) && FreshRun(acts, g, p)
    requires var s := Run(acts, p);
      a.Append? ==> a == Append(g, 0) || Passes(s.prevSeed, s.seed, a.seed, a.proof, p)
    ensures FreshRun(acts + [a], g, p) && Run(acts + [a], p) == Step(Run(acts, p), a, p)
  {
    hide Run, Step, Accepted;
    RunSnoc(acts, a, p);
    var all := acts + [a];
    forall i | 0 <= i < |all|
      ensures all[i] == Append(g, 0) || GuardedAt(all, i, p)
    {
      if i < |acts| {
        if all[i].Append? && all[i] != Append(g, 0) {
          assert GuardedAt(acts, i, p);
          var j :| 0 <= j <= i && PassedThen(acts, j, acts[i].seed, acts[i].proof, p);
          assert all[..j] == acts[..j];
          assert PassedThen(all, j, all[i].seed, all[i].proof, p);
        }
      } else if all[i].Append? && a != Append(g, 0) {
        assert all[..i] == acts;
        assert PassedThen(all, i, all[i].seed, all[i].proof, p);
      }
    }
  }

  /** A seed other than the last two that passes while `g` is installed. */
  predicate NextSeed(g: nat, x: nat, pi: nat, p: Params)
    requires ValidParams(p)
  {
    x != 0 && x != g && Accepted(g, pi, x, p.l, p.n, p.t)
  }

  /** The genesis seed is installed and being worked on. */
  predicate Started(s: Calc, g: nat) {
    s == InitCalc().(seed := g, runner := Computing(0), appended := [Entry(g, 0, 0)], seedsTaken := 1, proofsTaken := 1)
  }

  lemma StartRun(g: nat, p: Params) returns (acts: seq<Action>)
    requires ValidParams(p) && g != 0
    ensures FreshRun(acts, g, p) && Started(Run(acts, p), g)
  {
    hide Accepted, Output, Proof;
    acts := [];
    Go(acts, Append(g, 0), g, p);
    acts := acts + [Append(g, 0)];
    Go(acts, SendSeed, g, p);
    acts := acts + [SendSeed];
    Go(acts, SendProof, g, p);
    acts := acts + [SendProof];
    acts := InstallRun(acts, g, p);
  }

  /** run takes the one queued seed and installs it. */
  lemma InstallRun(acts0: seq<Action>, g: nat, p: Params) returns (acts: seq<Action>)
    requires ValidParams(p) && FreshRun(acts0, g, p) && Run(acts0, p)
      == InitCalc().(changed := true, seedChan := [g], proofChan := [0], appended := [Entry(g, 0, 0)])
    ensures FreshRun(acts, g, p) && Started(Run(acts, p), g)
  {
    hide Run, FreshRun, Accepted, Output, Proof;
    acts := acts0;
    Go(acts, Take, g, p);
    acts := acts + [Take];
    Go(acts, Install, g, p);
    acts := acts + [Install];
    Go(acts, ReceiveProof, g, p);
    acts := acts + [ReceiveProof];
  }

  /** run holds `x`, which interrupted the work on `g`, and has not installed it yet. */
  predicate HoldsNext(s: Calc, g: nat, x: nat, pi: nat) {
    s == InitCalc().(changed := true, seed := g, runner := Holding(x), proofChan := [pi],
                     appended := [Entry(g, 0, 0), Entry(x, pi, 1)], seedsTaken := 2, proofsTaken := 1)
  }

  lemma NextRun(g: nat, x: nat, pi: nat, p: Params) returns (acts: seq<Action>)
    requires ValidParams(p) && g != 0 && NextSeed(g, x, pi, p)
    ensures FreshRun(acts, g, p) && HoldsNext(Run(acts, p), g, x, pi)
  {
    hide Run, FreshRun, Accepted, Output, Proof;
    acts := StartRun(g, p);
    Go(acts, Append(x, pi), g, p);
    acts := acts + [Append(x, pi)];
    Go(acts, SendSeed, g, p);
    acts := acts + [SendSeed];
    Go(acts, SendProof, g, p);
    acts := acts + [SendProof];
    Go(acts, Round, g, p);
    acts := acts + [Round];
    Go(acts, Take, g, p);
    acts := acts + [Take];
  }

  /** run installs under a read lock and GetSeedParams reads under another, so after any second seed of
      a fresh node a reader can see that seed with the old proof: a pair nobody appended. */
  lemma TornReadIsPossible(g: nat, x: nat, pi: nat, p: Params)
    requires ValidParams(p) && g != 0 && NextSeed(g, x, pi, p) && pi != 0
    ensures exists acts: seq<Action> :: var s := Run(acts, p);
      && FreshRun(acts, g, p) && Unrepeated(s.appended)
      && s.readings == [Reading(x, 0, 2, 1)] && !AppendedTogether(s.appended, x, 0)
  {
    hide Run, FreshRun, Accepted, Output, Proof;
    var acts := NextRun(g, x, pi, p);
    Go(acts, Install, g, p);
    acts := acts + [Install];
    Go(acts, ReadLock, g, p);
    acts := acts + [ReadLock];
    ReadOut(acts, p);
    Go(acts, ReadSeed, g, p);
    Go(acts + [ReadSeed], ReadProof, g, p);
    acts := acts + [ReadSeed] + [ReadProof];
    assert Run(acts, p).appended == [Entry(g, 0, 0), Entry(x, pi, 1)];
  }

  /** The converse of ChangedMeansPending fails: a seed appended while run holds an earlier one has its
      flag cleared by the install, so the calculation of the earlier seed is not interrupted. It takes
      two seeds that pass while the genesis seed is installed. */
  lemma PendingWithoutFlag(g: nat, x: nat, pi: nat, y: nat, rho: nat, p: Params)
    requires ValidParams(p) && g != 0 && NextSeed(g, x, pi, p) && NextSeed(g, y, rho, p)
    ensures exists acts: seq<Action> :: var s := Run(acts, p);
      && FreshRun(acts, g, p)
      && s.seedChan == [y] && !s.changed && s.runner == Computing(0) && s.seed == x
  {
    hide Run, FreshRun, Accepted, Output, Proof;
    var acts := NextRun(g, x, pi, p);
    Go(acts, Append(y, rho), g, p);
    acts := acts + [Append(y, rho)];
    Go(acts, SendSeed, g, p);
    acts := acts + [SendSeed];
    Go(acts, SendProof, g, p);
    acts := acts + [SendProof];
    Go(acts, Install, g, p);
    acts := acts + [Install];
    Go(acts, ReceiveProof, g, p);
    acts := acts + [ReceiveProof];
  }
}
