/** The Calculator object of crypto/calculator.go: each method is the code of one goroutine between
    two points where another may run, and driven by any schedule the object goes through the states
    of CalculatorRuns. */
module CalculatorObject {
  import opened Vdf
  import opened CalculatorRuns

  class Calculator {
    const params: Params
    var seedChannel: seq<nat>
    var prevProofChannel: seq<nat>
    var resultChannel: seq<nat>
    var proofChannel: seq<nat>
    var prevSeed: nat
    var seed: nat
    var proof: nat
    var changed: bool

    constructor (p: Params)
      requires ValidParams(p)
      ensures params == p && Shows(InitCalc())
    {
      params := p;
      seedChannel, prevProofChannel, resultChannel, proofChannel := [], [], [], [];
      prevSeed, seed, proof, changed := 0, 0, 0, false;
    }

    /** The fields hold what system state `s` says. */
    ghost predicate Shows(s: Calc)
      reads this
    {
      && ValidParams(params)
      && seedChannel == s.seedChan && prevProofChannel == s.proofChan
      && resultChannel == s.resultChan && proofChannel == s.piChan
      && prevSeed == s.prevSeed && seed == s.seed && proof == s.proof && changed == s.changed
    }

    /** A repeat of the last two seeds passes; so does the honest output of the current seed once
        there is one, and with the honest proof nothing else. */
    method VerifyBlockVDF(blockSeed: nat, blockProof: nat) returns (ok: bool)
      requires ValidParams(params)
      ensures ok == Passes(prevSeed, seed, blockSeed, blockProof, params)
      ensures var repeat := blockSeed == prevSeed || blockSeed == seed;
        repeat <==> ok && Refuses(prevSeed, seed, blockSeed, blockProof, params)
      ensures blockProof == Proof(seed, params.l, params.n, params.t) ==>
        (ok <==> blockSeed in {prevSeed, seed} || (seed != 0 && blockSeed == Output(seed, params.n, params.t)))
    {
      PassesExactly(prevSeed, seed, blockSeed, blockProof, params);
      if prevSeed == blockSeed || seed == blockSeed {
        return true;
      }
      if seed == 0 {
        return false;
      }
      ok := Verify(seed, blockProof, blockSeed, params.l, params.n, params.t);
    }

    /** AppendNewSeed up to the flag. */
    method BeginAppend(newSeed: nat, newProof: nat) returns (ok: bool)
      requires ValidParams(params)
      modifies `changed
      ensures ok <==> !Refuses(prevSeed, seed, newSeed, newProof, params)
      ensures changed == (old(changed) || ok)
    {
      if prevSeed == newSeed || seed == newSeed {
        return false;
      }
      if seed != 0 {
        ok := Verify(seed, newProof, newSeed, params.l, params.n, params.t);
        if !ok {
          return;
        }
      }
      changed := true;
      ok := true;
    }

    /** AppendNewSeed, when nothing runs in between. */
    method AppendNewSeed(newSeed: nat, newProof: nat)
      requires ValidParams(params)
      modifies `changed, `seedChannel, `prevProofChannel
      ensures var ok := !Refuses(prevSeed, seed, newSeed, newProof, params);
        && changed == (old(changed) || ok)
        && seedChannel == old(seedChannel) + (if ok then [newSeed] else [])
        && prevProofChannel == old(prevProofChannel) + (if ok then [newProof] else [])
    {
      var ok := BeginAppend(newSeed, newProof);
      if !ok {
        return;
      }
      seedChannel := seedChannel + [newSeed];
      prevProofChannel := prevProofChannel + [newProof];
    }

    method Install(newSeed: nat)
      modifies `changed, `prevSeed, `seed
      ensures !changed && prevSeed == old(seed) && seed == newSeed
    {
      changed := false;
      prevSeed := seed;
      seed := newSeed;
    }

    /** What run computed when no round read the flag set. */
    method Compute() returns (result: nat, pi: nat)
      requires ValidParams(params)
      ensures result == Output(seed, params.n, params.t) && pi == Proof(seed, params.l, params.n, params.t)
    {
      var r := Calculate(seed, params.l, params.n, params.t, _ => false);
      return r.value.0, r.value.1;
    }
  }

  /** One node's calculation at another node that has the same seed installed: the block made from it
      passes, and its result is queued there as the next seed unless it repeats the last two. */
  method Propose(c: Calculator, peer: Calculator) returns (ok: bool)
    requires ValidParams(c.params) && peer.params == c.params && peer.seed == c.seed != 0
    modifies peer`changed, peer`seedChannel, peer`prevProofChannel
    ensures ok
    ensures var p := c.params; var result, pi := Output(c.seed, p.n, p.t), Proof(c.seed, p.l, p.n, p.t);
      var novel := result != peer.prevSeed && result != peer.seed;
      && peer.changed == (old(peer.changed) || novel)
      && peer.seedChannel == old(peer.seedChannel) + (if novel then [result] else [])
      && peer.prevProofChannel == old(peer.prevProofChannel) + (if novel then [pi] else [])
  {
    hide Accepted, Output, Proof;
    var result, pi := c.Compute();
    ok := peer.VerifyBlockVDF(result, pi);
    peer.AppendNewSeed(result, pi);
  }

  datatype Positions = Positions(appender: Appender, runner: Runner, reader: Reader, installs: nat)

  ghost predicate Mirrors(s: Calc, c: Calculator, at: Positions)
    reads c
  {
    c.Shows(s) && at == Positions(s.appender, s.runner, s.reader, s.Installs())
  }

  method PerformAppender(c: Calculator, a: Action, at: Positions, ghost s: Calc) returns (next: Positions)
    requires Mirrors(s, c, at)
    modifies c
    ensures Mirrors(AppenderStep(s, a, c.params), c, next)
  {
    next := at;
    match (a, at.appender)
    case (Append(seed, proof), Away) =>
      if !at.runner.Installing? && !at.reader.Locked? && !at.reader.GotSeed? {
        var ok := c.BeginAppend(seed, proof);
        if ok { next := at.(appender := Flagged(seed, proof)); }
      }
    case (SendSeed, Flagged(seed, proof)) =>
      c.seedChannel := c.seedChannel + [seed];
      next := at.(appender := SeedSent(proof));
    case (SendProof, SeedSent(proof)) =>
      c.prevProofChannel := c.prevProofChannel + [proof];
      next := at.(appender := Away);
    case _ =>
  }

  method PerformRunner(c: Calculator, a: Action, at: Positions, ghost s: Calc) returns (next: Positions)
    requires Mirrors(s, c, at)
    modifies c
    ensures Mirrors(RunnerStep(s, a, c.params), c, next)
  {
    next := at;
    match (a, at.runner)
    case (Take, Waiting) =>
      if c.seedChannel != [] {
        next := at.(runner := Holding(c.seedChannel[0]));
        c.seedChannel := c.seedChannel[1..];
      }
    case (Install, Holding(seed)) =>
      if at.appender.Away? {
        c.Install(seed);
        next := at.(runner := Installing, installs := at.installs + 1);
      }
    case (ReceiveProof, Installing) =>
      if c.prevProofChannel != [] {
        c.proof := c.prevProofChannel[0];
        c.prevProofChannel := c.prevProofChannel[1..];
        next := at.(runner := Computing(0));
      }
    case (Round, Computing(k)) =>
      if k < c.params.t { next := at.(runner := if c.changed then Waiting else Computing(k + 1)); }
    case (SendResult, Computing(k)) =>
      if k >= c.params.t {
        var result, pi := c.Compute();
        c.resultChannel := c.resultChannel + [result];
        next := at.(runner := ResultSent(pi));
      }
    case (SendPi, ResultSent(pi)) =>
      c.proofChannel := c.proofChannel + [pi];
      next := at.(runner := Waiting);
    case _ =>
  }

  method PerformReader(c: Calculator, a: Action, at: Positions, ghost s: Calc) returns (next: Positions)
    requires Mirrors(s, c, at)
    modifies c
    ensures Mirrors(ReaderStep(s, a), c, next)
  {
    next := at;
    match (a, at.reader)
    case (TakeResult, Idle) =>
      if c.resultChannel != [] {
        next := at.(reader := GotResult(c.resultChannel[0]));
        c.resultChannel := c.resultChannel[1..];
      }
    case (TakePi, GotResult(_)) =>
      if c.proofChannel != [] {
        c.proofChannel := c.proofChannel[1..];
        next := at.(reader := Idle);
      }
    case (ReadLock, Idle) => if at.appender.Away? { next := at.(reader := Locked); }
    case (ReadSeed, Locked) => next := at.(reader := GotSeed(c.seed, at.installs));
    case (ReadProof, GotSeed(_, _)) => next := at.(reader := Idle);
    case _ =>
  }

  /** Driven through any schedule, the object goes through the states of the run. */
  method Execute(p: Params, acts: seq<Action>) returns (c: Calculator, at: Positions)
    requires ValidParams(p)
    ensures c.params == p && Mirrors(Run(acts, p), c, at)
  {
    hide AppenderStep, RunnerStep, ReaderStep;
    c := new Calculator(p);
    at := Positions(Away, Waiting, Idle, 0);
    for i := 0 to |acts|
      invariant fresh(c) && c.params == p && Mirrors(Run(acts[..i], p), c, at)
    {
      assert acts[..i + 1][..i] == acts[..i];
      ghost var s := Run(acts[..i], p);
      var a := acts[i];
      if a.Append? || a.SendSeed? || a.SendProof? {
        at := PerformAppender(c, a, at, s);
      } else if a.TakeResult? || a.TakePi? || a.ReadLock? || a.ReadSeed? || a.ReadProof? {
        at := PerformReader(c, a, at, s);
      } else {
        at := PerformRunner(c, a, at, s);
      }
    }
    assert acts[..|acts|] == acts;
  }
}
