/** The calculator of crypto/calculator.go as three goroutines around four channels and a lock:
    AppendNewSeed (appender), run (runner) and GetSeedParams (reader), one step at a time. */
module CalculatorRuns {
  import opened Vdf

  /** Proof parameter, order and time parameter of the genesis block. */
  datatype Params = Params(l: nat, n: nat, t: nat)

  predicate ValidParams(p: Params) {
    p.l > 0 && p.n > 0 && p.t > 0
  }

  /** AppendNewSeed holds changeLock from setting the flag to sending the proof. */
  datatype Appender = Away | Flagged(seed: nat, proof: nat) | SeedSent(proof: nat)

  /** run holds a read lock while installing. */
  datatype Runner = Waiting | Holding(seed: nat) | Installing | Computing(round: nat) | ResultSent(pi: nat)

  /** GetSeedParams either drains the result channels or reads seed and proof under a read lock. */
  datatype Reader = Idle | GotResult(result: nat) | Locked | GotSeed(seed: nat, installs: nat)

  /** An appended pair, and how many seeds were installed at that moment. */
  datatype Entry = Entry(seed: nat, proof: nat, at: nat)

  datatype Out = Out(seed: nat, result: nat, pi: nat)

  /** A pair read under the lock: between the reads the number of installed seeds and the number of
      installed proofs may have moved. */
  datatype Reading = Reading(seed: nat, proof: nat, seeds: nat, proofs: nat)

  /** Below `runner` history only: every appended pair, how many seeds and proofs run took, every
      computed output, the results and pairs GetSeedParams took and the pairs it read. */
  datatype Calc = Calc(
    seedChan: seq<nat>, proofChan: seq<nat>, resultChan: seq<nat>, piChan: seq<nat>,
    prevSeed: nat, seed: nat, proof: nat, changed: bool,
    appender: Appender, reader: Reader, runner: Runner,
    appended: seq<Entry>, seedsTaken: nat, proofsTaken: nat,
    outputs: seq<Out>, resultsTaken: nat, taken: seq<(nat, nat)>, readings: seq<Reading>)
  {
    /** Seeds installed so far. */
    function Installs(): nat {
      proofsTaken + if runner.Installing? then 1 else 0
    }
  }

  function InitCalc(): Calc {
    Calc([], [], [], [], 0, 0, 0, false, Away, Idle, Waiting, [], 0, 0, [], 0, [], [])
  }

  /** What VerifyBlockVDF lets through. */
  predicate Passes(prevSeed: nat, current: nat, seed: nat, proof: nat, p: Params)
    requires ValidParams(p)
  {
    prevSeed == seed || current == seed || (current != 0 && Accepted(current, proof, seed, p.l, p.n, p.t))
  }

  /** What AppendNewSeed turns down. */
  predicate Refuses(prevSeed: nat, current: nat, seed: nat, proof: nat, p: Params)
    requires ValidParams(p)
  {
    prevSeed == seed || current == seed || (current != 0 && !Accepted(current, proof, seed, p.l, p.n, p.t))
  }

  /** The two tests side by side. What both VerifyBlockVDF passes and AppendNewSeed turns down is a
      repeat of the last two seeds; what neither does is a first seed. With the honest proof of the
      current seed nothing passes but its output and those repeats, and that output does. */
  lemma PassesExactly(prevSeed: nat, current: nat, seed: nat, proof: nat, p: Params)
    requires ValidParams(p)
    ensures var repeat := seed == prevSeed || seed == current;
      var pass, refuse := Passes(prevSeed, current, seed, proof, p), Refuses(prevSeed, current, seed, proof, p);
      && (pass && refuse <==> repeat)
      && (!pass && !refuse <==> current == 0 && !repeat)
      && (proof == Proof(current, p.l, p.n, p.t) ==>
            (pass <==> repeat || (current != 0 && seed == Output(current, p.n, p.t))))
  {
    HonestProofAcceptsExactly(current, seed, p.l, p.n, p.t);
  }

  datatype Action =
    | Append(seed: nat, proof: nat) | SendSeed | SendProof
    | Take | Install | ReceiveProof | Round | SendResult | SendPi
    | TakeResult | TakePi | ReadLock | ReadSeed | ReadProof

  predicate WriteLockFree(s: Calc) {
    s.appender.Away? && !s.runner.Installing? && !s.reader.Locked? && !s.reader.GotSeed?
  }

  function AppenderStep(s: Calc, a: Action, p: Params): Calc
    requires ValidParams(p)
  {
    match (a, s.appender)
    case (Append(seed, proof), Away) =>
      if !WriteLockFree(s) || Refuses(s.prevSeed, s.seed, seed, proof, p) then s
      else
        s.(changed := true, appender := Flagged(seed, proof),
           appended := s.appended + [Entry(seed, proof, s.Installs())])
    case (SendSeed, Flagged(seed, proof)) => s.(seedChan := s.seedChan + [seed], appender := SeedSent(proof))
    case (SendProof, SeedSent(proof)) => s.(proofChan := s.proofChan + [proof], appender := Away)
    case _ => s
  }

  function RunnerStep(s: Calc, a: Action, p: Params): Calc
    requires ValidParams(p)
  {
    match (a, s.runner)
    case (Take, Waiting) =>
      if s.seedChan == [] then s
      else s.(seedChan := s.seedChan[1..], runner := Holding(s.seedChan[0]), seedsTaken := s.seedsTaken + 1)
    case (Install, Holding(seed)) =>
      if !s.appender.Away? then s
      else s.(changed := false, prevSeed := s.seed, seed := seed, runner := Installing)
    case (ReceiveProof, Installing) =>
      if s.proofChan == [] then s
      else
        s.(proof := s.proofChan[0], proofChan := s.proofChan[1..], runner := Computing(0),
           proofsTaken := s.proofsTaken + 1)
    case (Round, Computing(k)) =>
      if k >= p.t then s
      else if s.changed then s.(runner := Waiting)
      else s.(runner := Computing(k + 1))
    case (SendResult, Computing(k)) =>
      if k < p.t then s
      else
        var result, pi := Output(s.seed, p.n, p.t), Proof(s.seed, p.l, p.n, p.t);
        s.(resultChan := s.resultChan + [result], runner := ResultSent(pi),
           outputs := s.outputs + [Out(s.seed, result, pi)])
    case (SendPi, ResultSent(pi)) => s.(piChan := s.piChan + [pi], runner := Waiting)
    case _ => s
  }

  function ReaderStep(s: Calc, a: Action): Calc {
    match (a, s.reader)
    case (TakeResult, Idle) =>
      if s.resultChan == [] then s
      else s.(resultChan := s.resultChan[1..], reader := GotResult(s.resultChan[0]), resultsTaken := s.resultsTaken + 1)
    case (TakePi, GotResult(result)) =>
      if s.piChan == [] then s
      else s.(piChan := s.piChan[1..], reader := Idle, taken := s.taken + [(result, s.piChan[0])])
    case (ReadLock, Idle) => if s.appender.Away? then s.(reader := Locked) else s
    case (ReadSeed, Locked) => s.(reader := GotSeed(s.seed, s.Installs()))
    case (ReadProof, GotSeed(seed, installs)) =>
      s.(reader := Idle, readings := s.readings + [Reading(seed, s.proof, installs, s.proofsTaken)])
    case _ => s
  }

  function Step(s: Calc, a: Action, p: Params): Calc
    requires ValidParams(p)
  {
    if a.Append? || a.SendSeed? || a.SendProof? then AppenderStep(s, a, p)
    else if a.TakeResult? || a.TakePi? || a.ReadLock? || a.ReadSeed? || a.ReadProof? then ReaderStep(s, a)
    else RunnerStep(s, a, p)
  }

  function Run(acts: seq<Action>, p: Params): Calc
    requires ValidParams(p)
  {
    if acts == [] then InitCalc() else Step(Run(acts[..|acts| - 1], p), acts[|acts| - 1], p)
  }

  // ---------- the invariant ----------

  /** The seed installed by the first `i` installs: 0 before any. */
  function SeedAfter(a: seq<Entry>, i: nat): nat
    requires i <= |a|
  {
    if i == 0 then 0 else a[i - 1].seed
  }

  function ProofAfter(a: seq<Entry>, i: nat): nat
    requires i <= |a|
  {
    if i == 0 then 0 else a[i - 1].proof
  }

  function SeedsSent(s: Calc): int {
    |s.appended| - if s.appender.Flagged? then 1 else 0
  }

  function ProofsSent(s: Calc): int {
    |s.appended| - if s.appender.Away? then 0 else 1
  }

  /** Both input channels carry the appended pairs in order. */
  ghost predicate InputsOk(s: Calc) {
    && |s.seedChan| == SeedsSent(s) - s.seedsTaken && |s.proofChan| == ProofsSent(s) - s.proofsTaken
    && (forall k :: 0 <= k < |s.seedChan| ==> s.seedChan[k] == s.appended[s.seedsTaken + k].seed)
    && (forall k :: 0 <= k < |s.proofChan| ==> s.proofChan[k] == s.appended[s.proofsTaken + k].proof)
    && (s.appender.Flagged? ==> s.appended != [] && s.appender.seed == s.appended[|s.appended| - 1].seed)
    && (!s.appender.Away? ==> s.appended != [] && s.appender.proof == s.appended[|s.appended| - 1].proof)
  }

  /** run is at most one seed ahead of its proofs, and what is installed is what it took. */
  ghost predicate InstalledOk(s: Calc) {
    && s.seedsTaken == s.proofsTaken + (if s.runner.Holding? || s.runner.Installing? then 1 else 0)
    && s.seedsTaken <= |s.appended| && (s.runner.Computing? ==> s.proofsTaken > 0)
    && (s.runner.Holding? ==> s.runner.seed == s.appended[s.seedsTaken - 1].seed)
    && s.seed == SeedAfter(s.appended, s.Installs())
    && s.proof == ProofAfter(s.appended, s.proofsTaken)
    && s.prevSeed == SeedAfter(s.appended, if s.Installs() == 0 then 0 else s.Installs() - 1)
  }

  /** What AppendNewSeed let through: the seed in force then was 0, or its output is this one. */
  ghost predicate Justified(a: seq<Entry>, k: nat, p: Params)
    requires ValidParams(p) && k < |a|
  {
    && a[k].at <= k
    && (SeedAfter(a, a[k].at) == 0 || Accepted(SeedAfter(a, a[k].at), a[k].proof, a[k].seed, p.l, p.n, p.t))
  }

  ghost predicate AppendedOk(s: Calc, p: Params)
    requires ValidParams(p)
  {
    forall k :: 0 <= k < |s.appended| ==> Justified(s.appended, k, p)
  }

  ghost predicate IsOutput(o: Out, a: seq<Entry>, p: Params)
    requires ValidParams(p)
  {
    && o.result == Output(o.seed, p.n, p.t) && o.pi == Proof(o.seed, p.l, p.n, p.t)
    && exists i :: 0 <= i < |a| && a[i].seed == o.seed
  }

  function PisSent(s: Calc): int {
    |s.outputs| - if s.runner.ResultSent? then 1 else 0
  }

  /** Both output channels carry the outputs in order, and the reader keeps them in step. */
  ghost predicate OutputsOk(s: Calc, p: Params)
    requires ValidParams(p)
  {
    && (forall k :: 0 <= k < |s.outputs| ==> IsOutput(s.outputs[k], s.appended, p))
    && |s.resultChan| == |s.outputs| - s.resultsTaken && |s.piChan| == PisSent(s) - |s.taken|
    && (forall k :: 0 <= k < |s.resultChan| ==> s.resultChan[k] == s.outputs[s.resultsTaken + k].result)
    && (forall k :: 0 <= k < |s.piChan| ==> s.piChan[k] == s.outputs[|s.taken| + k].pi)
    && (s.runner.ResultSent? ==> s.outputs != [] && s.runner.pi == s.outputs[|s.outputs| - 1].pi)
    && s.resultsTaken == |s.taken| + (if s.reader.GotResult? then 1 else 0)
    && (s.reader.GotResult? ==> s.reader.result == s.outputs[|s.taken|].result)
    && (forall k :: 0 <= k < |s.taken| ==> s.taken[k] == (s.outputs[k].result, s.outputs[k].pi))
  }

  ghost predicate FlagOk(s: Calc) {
    s.changed ==> s.seedChan != [] || s.runner.Holding? || s.appender.Flagged?
  }

  ghost predicate ReadingsOk(s: Calc) {
    && (s.reader.GotSeed? ==> s.reader.installs <= s.Installs() && s.reader.installs <= |s.appended|)
    && (s.reader.GotSeed? ==> s.reader.seed == SeedAfter(s.appended, s.reader.installs))
    && forall k :: 0 <= k < |s.readings| ==> ReadingOk(s.readings[k], s.appended)
  }

  ghost predicate ReadingOk(r: Reading, a: seq<Entry>) {
    && r.seeds <= |a| && r.proofs <= |a| && r.seeds <= r.proofs + 1
    && r.seed == SeedAfter(a, r.seeds) && r.proof == ProofAfter(a, r.proofs)
  }

  ghost predicate Inv(s: Calc, p: Params)
    requires ValidParams(p)
  {
    InputsOk(s) && InstalledOk(s) && AppendedOk(s, p) && OutputsOk(s, p) && FlagOk(s) && ReadingsOk(s)
  }

  /** A longer history says the same of what was installed, computed and read. */
  lemma HistoryGrows(s: Calc, e: Entry, p: Params)
    requires ValidParams(p) && Inv(s, p) && e.at == s.Installs() && s.appender.Away?
    requires !Refuses(s.prevSeed, s.seed, e.seed, e.proof, p)
    ensures var s' := s.(changed := true, appender := Flagged(e.seed, e.proof), appended := s.appended + [e]);
      AppendedOk(s', p) && OutputsOk(s', p) && ReadingsOk(s')
  {
    hide Accepted, Output, Proof;
    var longer := s.appended + [e];
    forall i | 0 <= i <= |s.appended|
      ensures SeedAfter(longer, i) == SeedAfter(s.appended, i) && ProofAfter(longer, i) == ProofAfter(s.appended, i)
    {
    }
    forall k | 0 <= k < |s.appended| ensures Justified(longer, k, p) { assert Justified(s.appended, k, p); }
    assert Justified(longer, |s.appended|, p);
    forall k | 0 <= k < |s.outputs| ensures IsOutput(s.outputs[k], longer, p) {
      OutputStays(s.outputs[k], s.appended, longer, p);
    }
  }

  lemma AppenderKeepsInputs(s: Calc, a: Action, p: Params)
    requires ValidParams(p) && Inv(s, p)
    ensures var s' := AppenderStep(s, a, p); InputsOk(s') && InstalledOk(s') && FlagOk(s')
  {
    hide Accepted, Output, Proof, AppendedOk, OutputsOk, ReadingOk;
  }

  lemma AppenderKeepsOutputs(s: Calc, a: Action, p: Params)
    requires ValidParams(p) && Inv(s, p)
    ensures var s' := AppenderStep(s, a, p); AppendedOk(s', p) && OutputsOk(s', p) && ReadingsOk(s')
  {
    hide Accepted, Output, Proof, Justified, IsOutput, ReadingOk, InputsOk, InstalledOk;
    if a.Append? && s.appender.Away? && WriteLockFree(s) && !Refuses(s.prevSeed, s.seed, a.seed, a.proof, p) {
      HistoryGrows(s, Entry(a.seed, a.proof, s.Installs()), p);
    }
  }

  lemma OutputStays(o: Out, a: seq<Entry>, b: seq<Entry>, p: Params)
    requires ValidParams(p) && IsOutput(o, a, p) && a <= b
    ensures IsOutput(o, b, p)
  {
    var i :| 0 <= i < |a| && a[i].seed == o.seed;
    assert b[i] == a[i];
  }

  lemma RunnerKeepsInputs(s: Calc, a: Action, p: Params)
    requires ValidParams(p) && Inv(s, p)
    ensures var s' := RunnerStep(s, a, p); InputsOk(s') && InstalledOk(s') && FlagOk(s')
  {
    hide Accepted, Output, Proof, AppendedOk, OutputsOk, ReadingOk;
  }

  lemma RunnerKeepsOutputs(s: Calc, a: Action, p: Params)
    requires ValidParams(p) && Inv(s, p)
    ensures OutputsOk(RunnerStep(s, a, p), p)
  {
    hide Accepted, Output, Proof, ReadingsOk, Justified, InputsOk, FlagOk;
    if a.SendResult? && s.runner.Computing? && s.runner.round >= p.t {
      assert s.appended[s.Installs() - 1].seed == s.seed;
    }
  }

  lemma RunnerKeepsHistory(s: Calc, a: Action, p: Params)
    requires ValidParams(p) && Inv(s, p)
    ensures var s' := RunnerStep(s, a, p); AppendedOk(s', p) && ReadingsOk(s')
  {
    hide Accepted, Output, Proof, ReadingOk, Justified, OutputsOk, InputsOk, FlagOk;
  }

  lemma ReaderKeepsInputs(s: Calc, a: Action, p: Params)
    requires ValidParams(p) && Inv(s, p)
    ensures var s' := ReaderStep(s, a); InputsOk(s') && InstalledOk(s') && AppendedOk(s', p) && FlagOk(s')
  {
    hide Accepted, Output, Proof, OutputsOk, ReadingsOk, Justified;
  }

  lemma ReaderKeepsOutputs(s: Calc, a: Action, p: Params)
    requires ValidParams(p) && Inv(s, p)
    ensures var s' := ReaderStep(s, a); OutputsOk(s', p) && ReadingsOk(s')
  {
    hide Accepted, Output, Proof, IsOutput, Justified, InputsOk;
  }

  lemma {:induction false} RunKeepsInv(acts: seq<Action>, p: Params)
    requires ValidParams(p)
    ensures Inv(Run(acts, p), p)
  {
    hide AppenderStep, RunnerStep, ReaderStep, InputsOk, InstalledOk, AppendedOk, OutputsOk, FlagOk, ReadingsOk;
    if acts == [] {
      assert Inv(InitCalc(), p) by { InitInv(p); }
    } else {
      var s, a := Run(acts[..|acts| - 1], p), acts[|acts| - 1];
      RunKeepsInv(acts[..|acts| - 1], p);
      AppenderKeepsInputs(s, a, p);
      AppenderKeepsOutputs(s, a, p);
      ReaderKeepsInputs(s, a, p);
      ReaderKeepsOutputs(s, a, p);
      RunnerKeepsInputs(s, a, p);
      RunnerKeepsOutputs(s, a, p);
      RunnerKeepsHistory(s, a, p);
    }
  }

  lemma InitInv(p: Params)
    requires ValidParams(p)
    ensures Inv(InitCalc(), p)
  {
    hide Accepted, Output, Proof, Justified, IsOutput, ReadingOk, InputsOk, InstalledOk, AppendedOk, OutputsOk;
    hide FlagOk, ReadingsOk;
    var s := InitCalc();
    assert InputsOk(s) && InstalledOk(s) && FlagOk(s) && ReadingsOk(s) by { InitInputs(); }
    assert AppendedOk(s, p) && OutputsOk(s, p) by { InitOutputs(p); }
  }

  lemma InitInputs()
    ensures var s := InitCalc(); InputsOk(s) && InstalledOk(s) && FlagOk(s) && ReadingsOk(s)
  {
    hide InputsOk, InstalledOk, ReadingsOk;
    NothingAppended(InitCalc());
  }

  lemma NothingAppended(s: Calc)
    requires s.appended == [] && s.seedChan == [] && s.proofChan == [] && s.readings == []
    requires s.seedsTaken == 0 && s.proofsTaken == 0 && s.seed == 0 && s.proof == 0 && s.prevSeed == 0
    requires s.appender.Away? && s.runner.Waiting? && s.reader.Idle?
    ensures InputsOk(s) && InstalledOk(s) && ReadingsOk(s)
  {
  }

  lemma InitOutputs(p: Params)
    requires ValidParams(p)
    ensures AppendedOk(InitCalc(), p) && OutputsOk(InitCalc(), p)
  {
    hide Accepted, Output, Proof, Justified, IsOutput;
  }

  // ---------- what every run keeps ----------

  /** Outside the middle of an install, the installed seed and proof were appended together, and the
      previous seed is the one installed before. */
  lemma InstalledPairsWereAppended(acts: seq<Action>, p: Params)
    requires ValidParams(p)
    ensures var s := Run(acts, p); var n := s.proofsTaken;
      !s.runner.Installing? && n > 0 ==>
        && n <= |s.appended| && s.appended[n - 1].seed == s.seed && s.appended[n - 1].proof == s.proof
        && s.prevSeed == (if n == 1 then 0 else s.appended[n - 2].seed)
  {
    RunKeepsInv(acts, p);
  }

  /** Every appended pair was let in because the seed installed at that time was still 0, or because its
      output, by that proof, is the appended seed. */
  lemma AppendedWereJustified(acts: seq<Action>, p: Params, k: nat)
    requires ValidParams(p) && k < |Run(acts, p).appended|
    ensures var a := Run(acts, p).appended; var at := a[k].at;
      at <= k && (at == 0 || Accepted(a[at - 1].seed, a[k].proof, a[k].seed, p.l, p.n, p.t) || a[at - 1].seed == 0)
  {
    hide Run, InputsOk, InstalledOk, OutputsOk, ReadingsOk;
    RunKeepsInv(acts, p);
    assert Justified(Run(acts, p).appended, k, p);
  }

  /** Every pair GetSeedParams takes from the result channels belongs together: it is the honest
      output and proof of one appended seed, and verifies against it. */
  lemma TakenPairsVerify(acts: seq<Action>, p: Params, k: nat)
    requires ValidParams(p) && k < |Run(acts, p).taken|
    ensures var s := Run(acts, p);
      exists i :: 0 <= i < |s.appended|
        && Accepted(s.appended[i].seed, s.taken[k].1, s.taken[k].0, p.l, p.n, p.t)
        && s.taken[k].0 == Output(s.appended[i].seed, p.n, p.t)
  {
    RunKeepsInv(acts, p);
    var s := Run(acts, p);
    var o := s.outputs[k];
    assert IsOutput(o, s.appended, p);
    var i :| 0 <= i < |s.appended| && s.appended[i].seed == o.seed;
    HonestProofAcceptsExactly(o.seed, o.result, p.l, p.n, p.t);
  }

  /** GetSeedParams takes the outputs in the order they were computed, each once. */
  lemma TakenInOrder(acts: seq<Action>, p: Params, k: nat)
    requires ValidParams(p) && k < |Run(acts, p).taken|
    ensures var s := Run(acts, p);
      |s.taken| <= |s.outputs| && s.taken[k] == (s.outputs[k].result, s.outputs[k].pi)
  {
    RunKeepsInv(acts, p);
  }

  // ---------- interruption ----------

  /** run was interrupted in the middle of a calculation, or has given it up since. */
  predicate GivenUp(s: Calc, p: Params) {
    s.changed && !s.runner.ResultSent? && (s.runner.Computing? ==> s.runner.round < p.t)
  }

  lemma StepKeepsGivenUp(s: Calc, a: Action, p: Params)
    requires ValidParams(p) && GivenUp(s, p) && !s.runner.Installing? && a != Install
    ensures var s' := Step(s, a, p);
      GivenUp(s', p) && !s'.runner.Installing? && s'.outputs == s.outputs
      && (s.runner.Computing? && a == Round ==> s'.runner == Waiting)
  {
    hide Accepted, Output, Proof;
  }

  /** Once the flag is up in the middle of a calculation, the next round gives it up, and until another
      seed is installed nothing is computed or sent. */
  lemma {:induction false} InterruptedSendsNothing(acts: seq<Action>, more: seq<Action>, p: Params)
    requires ValidParams(p) && Install !in more
    requires var s := Run(acts, p); s.changed && s.runner.Computing? && s.runner.round < p.t
    ensures Run(acts + [Round], p).runner == Waiting
    ensures Run(acts + more, p).outputs == Run(acts, p).outputs
    ensures GivenUp(Run(acts + more, p), p) && !Run(acts + more, p).runner.Installing?
  {
    hide Step, Run;
    RunSnoc(acts, Round, p);
    StepKeepsGivenUp(Run(acts, p), Round, p);
    if more == [] {
      assert acts + more == acts;
    } else {
      var front, a := more[..|more| - 1], more[|more| - 1];
      assert acts + more == acts + front + [a];
      InterruptedSendsNothing(acts, front, p);
      RunSnoc(acts + front, a, p);
      StepKeepsGivenUp(Run(acts + front, p), a, p);
    }
  }

  /** Only a calculation that went through all its rounds sends something, and a round counts for one. */
  lemma SendsOnlyWhenDone(s: Calc, a: Action, p: Params)
    requires ValidParams(p)
    ensures Step(s, a, p).outputs != s.outputs ==>
      a == SendResult && s.runner.Computing? && s.runner.round >= p.t
    ensures Step(s, a, p).runner.Computing? && Step(s, a, p).runner != s.runner ==>
      var round := Step(s, a, p).runner.round;
      round == 0 || (s.runner == Computing(round - 1) && !s.changed)
  {
    hide Output, Proof, Refuses;
  }

  /** `j` rounds. */
  function Rounds(j: nat): seq<Action> {
    if j == 0 then [] else Rounds(j - 1) + [Round]
  }

  lemma {:induction false} RoundsCount(acts: seq<Action>, k: nat, j: nat, p: Params)
    requires ValidParams(p) && k + j <= p.t
    requires var s := Run(acts, p); !s.changed && s.runner == Computing(k)
    ensures Run(acts + Rounds(j), p) == Run(acts, p).(runner := Computing(k + j))
  {
    hide Run;
    if j == 0 {
      assert acts + Rounds(0) == acts;
    } else {
      RoundsCount(acts, k, j - 1, p);
      assert acts + Rounds(j) == acts + Rounds(j - 1) + [Round];
      RunSnoc(acts + Rounds(j - 1), Round, p);
    }
  }

  /** A calculation nobody interrupts sends the output of the installed seed and its proof. */
  lemma UninterruptedSends(acts: seq<Action>, k: nat, p: Params)
    requires ValidParams(p) && k <= p.t
    requires var s := Run(acts, p); !s.changed && s.runner == Computing(k)
    ensures var s, s' := Run(acts, p), Run(acts + Rounds(p.t - k) + [SendResult] + [SendPi], p);
      && s'.resultChan == s.resultChan + [Pow(s.seed, Pow(2, p.t)) % p.n]
      && s'.piChan == s.piChan + [Pow(s.seed, Pow(2, p.t) / p.l) % p.n]
      && s'.runner == Waiting && s'.seed == s.seed
  {
    hide Run, Pow, Rounds;
    RoundsCount(acts, k, p.t - k, p);
    var b := acts + Rounds(p.t - k);
    RunSnoc(b, SendResult, p);
    RunSnoc(b + [SendResult], SendPi, p);
  }

  /** A seed is appended but not yet installed. */
  ghost predicate Pending(s: Calc) {
    s.seedChan != [] || s.runner.Holding? || s.appender.Flagged?
  }

  /** The interrupt flag is never left set with nothing to interrupt for. */
  lemma ChangedMeansPending(acts: seq<Action>, p: Params)
    requires ValidParams(p)
    ensures var s := Run(acts, p); s.changed ==> Pending(s)
  {
    RunKeepsInv(acts, p);
  }

  /** The flag is set when no install came after the last append. */
  ghost predicate FlagShows(s: Calc) {
    && (forall k :: 0 <= k < |s.appended| ==> s.appended[k].at <= s.Installs())
    && (s.changed <==> s.appended != [] && s.appended[|s.appended| - 1].at == s.Installs())
  }

  lemma StepKeepsFlag(s: Calc, a: Action, p: Params)
    requires ValidParams(p) && FlagShows(s)
    ensures FlagShows(Step(s, a, p))
  {
    hide Accepted, Output, Proof;
  }

  lemma {:induction false} RunKeepsFlag(acts: seq<Action>, p: Params)
    requires ValidParams(p)
    ensures FlagShows(Run(acts, p))
  {
    if acts != [] {
      hide Step;
      RunKeepsFlag(acts[..|acts| - 1], p);
      StepKeepsFlag(Run(acts[..|acts| - 1], p), acts[|acts| - 1], p);
    }
  }

  /** In every run the flag is set exactly when a pair was appended and nothing was installed since. */
  lemma FlagExactly(acts: seq<Action>, p: Params)
    requires ValidParams(p)
    ensures var s := Run(acts, p);
      s.changed <==> s.appended != [] && s.appended[|s.appended| - 1].at == s.Installs()
  {
    RunKeepsFlag(acts, p);
  }

  /** So, while seeds are pending, the flag is down exactly when some earlier seed was installed after
      the last one was appended; the calculation of that earlier seed is not interrupted. */
  lemma PendingUnflaggedExactly(acts: seq<Action>, p: Params)
    requires ValidParams(p)
    ensures var s := Run(acts, p);
      Pending(s) ==> s.appended != [] && (!s.changed <==> s.appended[|s.appended| - 1].at < s.Installs())
  {
    RunKeepsInv(acts, p);
    RunKeepsFlag(acts, p);
  }

  /** A result computed for the seed still in force passes VerifyBlockVDF, in every run. */
  lemma OutputsPass(acts: seq<Action>, p: Params, k: nat)
    requires ValidParams(p) && k < |Run(acts, p).outputs|
    ensures var s := Run(acts, p); var o := s.outputs[k];
      o.seed == s.seed && s.seed != 0 ==> Passes(s.prevSeed, s.seed, o.result, o.pi, p)
  {
    RunKeepsInv(acts, p);
    var s := Run(acts, p);
    assert IsOutput(s.outputs[k], s.appended, p);
    PassesExactly(s.prevSeed, s.seed, s.outputs[k].result, s.outputs[k].pi, p);
  }

  // ---------- pairs read under the lock ----------

  /** A pair read under the lock was appended together whenever as many proofs as seeds had been
      installed at the two reads; the counts differ by one at most when the proof lags. */
  lemma ReadingsInStep(acts: seq<Action>, p: Params, k: nat)
    requires ValidParams(p) && k < |Run(acts, p).readings|
    ensures var s := Run(acts, p); var r := s.readings[k];
      && r.seeds <= r.proofs + 1
      && (r.seeds == r.proofs ==>
            if r.seeds == 0 then r.seed == 0 && r.proof == 0
            else
              && r.seeds <= |s.appended|
              && r.seed == s.appended[r.seeds - 1].seed && r.proof == s.appended[r.seeds - 1].proof)
  {
    RunKeepsInv(acts, p);
    assert ReadingOk(Run(acts, p).readings[k], Run(acts, p).appended);
  }

  /** No seed and no proof was appended twice, and no seed is the initial 0. A proof may be: the genesis
      seed is appended with proof 0. */
  ghost predicate Unrepeated(a: seq<Entry>) {
    && (forall i :: 0 <= i < |a| ==> a[i].seed != 0)
    && forall i, j :: 0 <= i < j < |a| ==> a[i].seed != a[j].seed && a[i].proof != a[j].proof
  }

  predicate AppendedTogether(a: seq<Entry>, seed: nat, proof: nat) {
    exists i :: 0 <= i < |a| && a[i].seed == seed && a[i].proof == proof
  }

  /** And, where values cannot coincide by accident, exactly then; besides, the initial proof 0 may go
      with a first seed that was appended with proof 0. */
  lemma ReadingExactly(acts: seq<Action>, p: Params, k: nat)
    requires ValidParams(p) && k < |Run(acts, p).readings| && Unrepeated(Run(acts, p).appended)
    ensures var s := Run(acts, p); var r := s.readings[k];
      && (r.seeds > 0 ==> s.appended != [])
      && (AppendedTogether(s.appended, r.seed, r.proof) <==>
            r.seeds > 0 && (r.seeds == r.proofs || (r.proofs == 0 && s.appended[0].proof == 0)))
  {
    RunKeepsInv(acts, p);
    hide Run;
    var a, r := Run(acts, p).appended, Run(acts, p).readings[k];
    assert ReadingOk(r, a);
    if r.seeds > 0 && (r.seeds == r.proofs || (r.proofs == 0 && a[0].proof == 0)) {
      assert a[r.seeds - 1].seed == r.seed && a[r.seeds - 1].proof == r.proof;
    }
  }

  /** Nothing is left to install. */
  predicate Quiet(s: Calc) {
    s.appender.Away? && s.seedChan == [] && !s.runner.Holding? && !s.runner.Installing?
  }

  /** While GetSeedParams holds its lock nobody appends. */
  lemma {:induction false} ReaderKeepsAppenderAway(acts: seq<Action>, p: Params)
    requires ValidParams(p)
    ensures var s := Run(acts, p); s.reader.Locked? || s.reader.GotSeed? ==> s.appender.Away?
  {
    if acts != [] {
      hide Accepted, Output, Proof;
      ReaderKeepsAppenderAway(acts[..|acts| - 1], p);
    }
  }

  /** Between the two reads of a quiet system the seed, the proof and the counts stand still. */
  ghost predicate Still(s: Calc, s1: Calc) {
    && Quiet(s1) && s1.reader == GotSeed(s.seed, s.Installs()) && s1.readings == s.readings
    && s1.proof == s.proof && s1.proofsTaken == s.proofsTaken && s1.appended == s.appended
  }

  lemma {:induction false} StandsStill(acts: seq<Action>, more: seq<Action>, p: Params)
    requires ValidParams(p) && Run(acts, p).reader.Locked? && Quiet(Run(acts, p)) && ReadProof !in more
    ensures Still(Run(acts, p), Run(acts + [ReadSeed] + more, p))
  {
    hide Accepted, Output, Proof, Run;
    var b := acts + [ReadSeed];
    RunSnoc(acts, ReadSeed, p);
    if more == [] {
      assert b + more == b;
    } else {
      var front, a := more[..|more| - 1], more[|more| - 1];
      assert b + more == b + front + [a];
      StandsStill(acts, front, p);
      RunSnoc(b + front, a, p);
    }
  }

  /** What a reader can check: if, once it holds the lock, no seed is queued and run neither holds nor
      installs one, then whatever else happens between its reads, the two values belong together. */
  lemma QuietReadIsInStep(acts: seq<Action>, more: seq<Action>, p: Params)
    requires ValidParams(p) && Run(acts, p).reader.Locked? && ReadProof !in more
    requires Run(acts, p).seedChan == [] && !Run(acts, p).runner.Holding? && !Run(acts, p).runner.Installing?
    ensures var s, s' := Run(acts, p), Run(acts + [ReadSeed] + more + [ReadProof], p);
      && s'.readings == s.readings + [Reading(s.seed, s.proof, s.proofsTaken, s.proofsTaken)]
      && (if s.appended == [] then s.seed == s.proof == 0 else AppendedTogether(s.appended, s.seed, s.proof))
  {
    hide Run, AppenderStep, RunnerStep, AppendedTogether;
    ReaderKeepsAppenderAway(acts, p);
    StandsStill(acts, more, p);
    RunSnoc(acts + [ReadSeed] + more, ReadProof, p);
    QuietIsInStep(acts, p);
  }

  /** With nothing left to install, seed and proof are the last pair appended. */
  lemma QuietIsInStep(acts: seq<Action>, p: Params)
    requires ValidParams(p) && Quiet(Run(acts, p))
    ensures var s := Run(acts, p);
      s.Installs() == s.proofsTaken
      && if s.appended == [] then s.seed == s.proof == 0 else AppendedTogether(s.appended, s.seed, s.proof)
  {
    hide Run, OutputsOk, AppendedOk, ReadingsOk;
    RunKeepsInv(acts, p);
    var s := Run(acts, p);
    assert s.seedsTaken == |s.appended|;
    if s.appended != [] {
      assert s.appended[s.proofsTaken - 1].seed == s.seed;
    }
  }

  lemma RunSnoc(acts: seq<Action>, a: Action, p: Params)
    requires ValidParams(p)
    ensures Run(acts + [a], p) == Step(Run(acts, p), a, p)
  {
    assert (acts + [a])[..|acts|] == acts;
  }

  /** A reader that holds the lock reads what is there. */
  lemma ReadOut(acts: seq<Action>, p: Params)
    requires ValidParams(p) && Run(acts, p).reader.Locked?
    ensures var s := Run(acts, p);
      Run(acts + [ReadSeed] + [ReadProof], p)
      == s.(reader := Idle, readings := s.readings + [Reading(s.seed, s.proof, s.Installs(), s.proofsTaken)])
  {
    hide Run, AppenderStep, RunnerStep;
    RunSnoc(acts, ReadSeed, p);
    RunSnoc(acts + [ReadSeed], ReadProof, p);
  }
}
