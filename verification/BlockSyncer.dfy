/** The block synchroniser of node/block_syncer.go: blocks downloaded in any order are handed to the
    chain in order of height. Every method is one locked section or one unlocked read. */
module BlockSync {
  import opened Types

  datatype Status = SyncPaused | BlockSyncing | BufferSyncing | Synced

  /** Where blockProcessRoutine stands in a sweep: the next height, the highest peer height when the
      sweep began, and whether it has seen a block at the next height. */
  datatype Sweep = Sweep(next: int, limit: int, seen: bool)

  datatype Sync = Sync(
    remote: int, target: int, known: int,
    requests: map<int, int>, blocks: map<int, Block>,
    status: Status, sweep: Option<Sweep>, handed: seq<Block>)

  function InitSync(): Sync {
    Sync(-3, -2, -1, map[], map[], SyncPaused, None, [])
  }

  datatype Action =
    | Start
    | Arrive(block: Block)
    | StatusMsg(latest: int, buffered: int, chainHeight: int)
    | Select(now: int)
    | Begin | Look | Insert

  function Max(a: int, b: int): int { if a > b then a else b }

  const REQUEST_INTERVAL := 3000

  /** A height nobody sent yet and nobody was asked for lately; a missing timestamp counts as 0. */
  predicate Wanted(s: Sync, h: int, now: int) {
    && s.known < h <= s.remote && h !in s.blocks
    && now - (if h in s.requests then s.requests[h] else 0) > REQUEST_INTERVAL
  }

  /** The first wanted height from `h` on, or -1. */
  function FirstWanted(s: Sync, h: int, now: int): (r: int)
    requires h > s.known >= -1
    ensures r == -1 || (h <= r && Wanted(s, r, now))
    ensures forall j :: h <= j <= s.remote && (r == -1 || j < r) ==> !Wanted(s, j, now)
    decreases s.remote - h
  {
    if h > s.remote then -1
    else if Wanted(s, h, now) then h
    else FirstWanted(s, h + 1, now)
  }

  function AfterStatus(s: Sync, latest: int, buffered: int, chainHeight: int): Sync {
    if latest == -1 then s
    else
      var remote := Max(latest, s.remote);
      var target := if buffered != -1 && s.status == BlockSyncing then Max(buffered, s.target) else s.target;
      var status := if remote == s.known then BufferSyncing else s.status;
      s.(remote := remote, target := target, status := if chainHeight == target then Synced else status)
  }

  function HandOver(s: Sync, h: int): Sync {
    if h !in s.blocks then s
    else s.(handed := s.handed + [s.blocks[h]], known := h, requests := s.requests - {h}, blocks := s.blocks - {h})
  }

  /** Missing timestamps of the heights passed over become zero timestamps, which read the same. */
  function ZeroFill(m: map<int, int>, from: int, end: int): map<int, int>
    decreases end - from
  {
    if from >= end then m
    else
      var r := ZeroFill(m, from, end - 1);
      if end - 1 in r then r else r[end - 1 := 0]
  }

  lemma {:induction false} ZeroFillAt(m: map<int, int>, from: int, end: int, h: int)
    ensures h in ZeroFill(m, from, end) <==> h in m || from <= h < end
    ensures h in m ==> ZeroFill(m, from, end)[h] == m[h]
    ensures h !in m && from <= h < end ==> ZeroFill(m, from, end)[h] == 0
    decreases end - from
  {
    if from < end { ZeroFillAt(m, from, end - 1, h); }
  }

  /** selectBlockHeight: the height it returns, and the timestamps it leaves. */
  function Selected(s: Sync, now: int): (int, map<int, int>)
    requires s.known >= -1
  {
    var h := FirstWanted(s, s.known + 1, now);
    if h == -1 then (h, ZeroFill(s.requests, s.known + 1, s.remote + 1))
    else (h, ZeroFill(s.requests, s.known + 1, h + 1)[h := now])
  }

  /** What is asked for is missing and was not asked for in the last three seconds, nothing lower is
      both, and only its own time stamp moves. */
  lemma SelectedExactly(s: Sync, now: int, h: int)
    requires s.known >= -1
    ensures var (r, stamps) := Selected(s, now); var asked := if h in s.requests then s.requests[h] else 0;
      && (h == r != -1 ==> s.known < h <= s.remote && h !in s.blocks && now - asked > 3000)
      && (s.known < h <= s.remote && (r == -1 || h < r) ==> h in s.blocks || now - asked <= 3000)
      && (h == r != -1 ==> h in stamps && stamps[h] == now)
      && (h != r ==> (if h in stamps then stamps[h] else 0) == asked)
  {
    var r := FirstWanted(s, s.known + 1, now);
    ZeroFillAt(s.requests, s.known + 1, if r == -1 then s.remote + 1 else r + 1, h);
    assert s.known < h <= s.remote && (r == -1 || h < r) ==> !Wanted(s, h, now);
  }

  function Step(s: Sync, a: Action): Sync {
    match a
    case Start => s.(status := BlockSyncing)
    case Arrive(b) => s.(blocks := s.blocks[b.Height() := b])
    case StatusMsg(latest, buffered, chainHeight) => AfterStatus(s, latest, buffered, chainHeight)
    case Select(now) => if s.known < -1 then s else s.(requests := Selected(s, now).1)
    case Begin => if s.sweep.Some? then s else s.(sweep := Some(Sweep(s.known + 1, s.remote, false)))
    case Look =>
      if s.sweep.None? || s.sweep.value.seen then s
      else if s.sweep.value.next <= s.sweep.value.limit && s.sweep.value.next in s.blocks
      then s.(sweep := Some(s.sweep.value.(seen := true)))
      else s.(sweep := None)
    case Insert =>
      if s.sweep.None? || !s.sweep.value.seen then s
      else
        var w := s.sweep.value;
        HandOver(s, w.next).(sweep := Some(Sweep(w.next + 1, w.limit, false)))
  }

  function Run(acts: seq<Action>): Sync {
    if acts == [] then InitSync() else Step(Run(acts[..|acts| - 1]), acts[|acts| - 1])
  }

  ghost predicate Inv(s: Sync) {
    && |s.handed| == s.known + 1 && (forall i :: 0 <= i < |s.handed| ==> s.handed[i].Height() == i)
    && s.known <= Max(-1, s.remote)
    && (forall h :: h in s.blocks ==> s.blocks[h].Height() == h)
    && (s.sweep.Some? ==>
          var w := s.sweep.value;
          w.next == s.known + 1 && w.limit <= s.remote && (w.seen ==> w.next <= w.limit && w.next in s.blocks))
  }

  lemma StepKeepsInv(s: Sync, a: Action)
    requires Inv(s)
    ensures Inv(Step(s, a))
  {
  }

  lemma {:induction false} RunKeepsInv(acts: seq<Action>)
    ensures Inv(Run(acts))
  {
    hide Step, Inv;
    if acts == [] {
      assert Inv(InitSync()) by { InitInv(); }
    } else {
      RunKeepsInv(acts[..|acts| - 1]);
      StepKeepsInv(Run(acts[..|acts| - 1]), acts[|acts| - 1]);
    }
  }

  lemma InitInv()
    ensures Inv(InitSync())
  {
  }

  /** Whatever arrives in whatever order, and however often: the heights handed to the chain are
      0, 1, 2, ..., each once, never beyond what some peer reported. */
  lemma HandedInOrder(acts: seq<Action>)
    ensures var s := Run(acts);
      && |s.handed| == s.known + 1 && s.known <= Max(-1, s.remote)
      && forall i :: 0 <= i < |s.handed| ==> s.handed[i].Height() == i
  {
    RunKeepsInv(acts);
  }

  /** What was handed over stays handed over, and the next steps only add to it. */
  lemma {:induction false} HandedOnlyGrows(acts: seq<Action>, n: nat)
    requires n <= |acts|
    ensures Run(acts[..n]).handed <= Run(acts).handed && Run(acts[..n]).remote <= Run(acts).remote
  {
    if n < |acts| {
      HandedOnlyGrows(acts[..|acts| - 1], n);
      assert acts[..|acts| - 1][..n] == acts[..n];
    } else {
      assert acts[..n] == acts;
    }
  }

  /** The heights from the next one up to `m` are all there. */
  predicate ReadyUpTo(s: Sync, m: int) {
    s.known <= m <= s.remote && forall h :: s.known < h <= m ==> h in s.blocks
  }

  /** Look and Insert, `n` times. */
  function Sweeps(n: nat): seq<Action> {
    if n == 0 then [] else Sweeps(n - 1) + [Look] + [Insert]
  }

  lemma RunSnoc(acts: seq<Action>, a: Action)
    ensures Run(acts + [a]) == Step(Run(acts), a)
  {
    assert (acts + [a])[..|acts|] == acts;
  }

  function NextBlocks(s: Sync, n: nat): seq<Block>
    requires ReadyUpTo(s, s.known + n)
  {
    if n == 0 then [] else NextBlocks(s, n - 1) + [s.blocks[s.known + n]]
  }

  /** `s1` is `s` with its next `n` blocks handed over by a sweep that has just begun. */
  ghost predicate Swept(s: Sync, s1: Sync, n: nat)
    requires ReadyUpTo(s, s.known + n)
  {
    && s1.handed == s.handed + NextBlocks(s, n)
    && s1.known == s.known + n && s1.remote == s.remote
    && s1.sweep == Some(Sweep(s.known + n + 1, s.remote, false))
    && forall h :: h > s1.known && h in s.blocks ==> h in s1.blocks && s1.blocks[h] == s.blocks[h]
  }

  lemma SweepNext(s: Sync, s1: Sync, n: nat)
    requires n > 0 && ReadyUpTo(s, s.known + n) && ReadyUpTo(s, s.known + (n - 1)) && Swept(s, s1, n - 1)
    ensures Swept(s, Step(Step(s1, Look), Insert), n)
  {
    assert s1.known + 1 == s.known + n && s.known + n in s1.blocks;
  }

  /** Nothing stays behind: a sweep that no other goroutine interrupts hands over every consecutive
      block that had arrived. */
  lemma {:induction false} SweepHandsOver(acts: seq<Action>, n: nat)
    requires Run(acts).sweep == None && ReadyUpTo(Run(acts), Run(acts).known + n)
    ensures Swept(Run(acts), Run(acts + [Begin] + Sweeps(n)), n)
  {
    hide Step, Run;
    var b, s := acts + [Begin], Run(acts);
    RunSnoc(acts, Begin);
    if n == 0 {
      assert b + Sweeps(0) == b;
      assert Step(s, Begin) == s.(sweep := Some(Sweep(s.known + 1, s.remote, false))) by { BeginIs(s); }
    } else {
      SweepHandsOver(acts, n - 1);
      RunSnoc(b + Sweeps(n - 1), Look);
      RunSnoc(b + Sweeps(n - 1) + [Look], Insert);
      assert b + Sweeps(n) == b + Sweeps(n - 1) + [Look] + [Insert];
      SweepNext(s, Run(b + Sweeps(n - 1)), n);
    }
  }

  lemma BeginIs(s: Sync)
    requires s.sweep == None
    ensures Step(s, Begin) == s.(sweep := Some(Sweep(s.known + 1, s.remote, false)))
  {
  }

  // ---------- requests ----------

  /** Height `h` was asked for at `t` or later, or is past asking for. */
  predicate AskedSince(s: Sync, h: int, t: int) {
    h <= s.known || (h in s.requests && s.requests[h] >= t)
  }

  lemma StepKeepsAsked(s: Sync, a: Action, h: int, t: int)
    requires Inv(s) && AskedSince(s, h, t) && (a.Select? ==> a.now >= t)
    ensures AskedSince(Step(s, a), h, t)
  {
    if a.Select? {
      var r := FirstWanted(s, s.known + 1, a.now);
      ZeroFillAt(s.requests, s.known + 1, if r == -1 then s.remote + 1 else r + 1, h);
    }
  }

  ghost predicate ClockRises(acts: seq<Action>) {
    forall i, j :: 0 <= i < j < |acts| && acts[i].Select? && acts[j].Select? ==> acts[i].now <= acts[j].now
  }

  /** The height step `i` of a run asks for, or -1. */
  function AskedAt(acts: seq<Action>, i: nat): int
    requires i < |acts|
  {
    var s := Run(acts[..i]);
    if acts[i].Select? && s.known >= -1 then Selected(s, acts[i].now).0 else -1
  }

  lemma {:induction false} AskedStays(acts: seq<Action>, i: nat, j: nat)
    requires i < j <= |acts| && ClockRises(acts) && AskedAt(acts, i) != -1
    ensures AskedSince(Run(acts[..j]), AskedAt(acts, i), acts[i].now)
  {
    var before, a := acts[..j - 1], acts[j - 1];
    assert acts[..j] == before + [a];
    RunSnoc(before, a);
    RunKeepsInv(before);
    hide Run, Inv;
    if j == i + 1 {
      AskedNow(Run(before), a.now);
    } else {
      AskedStays(acts, i, j - 1);
      StepKeepsAsked(Run(before), a, AskedAt(acts, i), acts[i].now);
    }
  }

  lemma AskedNow(s: Sync, now: int)
    requires s.known >= -1 && Selected(s, now).0 != -1
    ensures AskedSince(Step(s, Select(now)), Selected(s, now).0, now)
  {
  }

  /** With a clock that does not go back, no height is ever asked for twice within the interval. */
  lemma AskedApart(acts: seq<Action>, i: nat, j: nat)
    requires i < j < |acts| && ClockRises(acts) && AskedAt(acts, i) == AskedAt(acts, j) != -1
    ensures acts[j].now - acts[i].now > 3000
  {
    hide Run, ClockRises;
    AskedStays(acts, i, j);
    assert Wanted(Run(acts[..j]), AskedAt(acts, j), acts[j].now);
  }

  // ---------- heights and status ----------

  /** What one more step does to peer height, target and status. */
  lemma StatusMoves(acts: seq<Action>, a: Action)
    ensures var s, t := Run(acts), Run(acts + [a]);
      && t.remote == (if a.StatusMsg? && a.latest != -1 && a.latest > s.remote then a.latest else s.remote)
      && t.target == (if a.StatusMsg? && a.latest != -1 && a.buffered != -1 && s.status == BlockSyncing
                         && a.buffered > s.target then a.buffered else s.target)
      && t.status == (if a.Start? then BlockSyncing
                      else if !a.StatusMsg? || a.latest == -1 then s.status
                      else if a.chainHeight == t.target then Synced
                      else if t.remote == s.known then BufferSyncing
                      else s.status)
  {
    RunSnoc(acts, a);
  }

  lemma InitialStatus()
    ensures Run([]).remote == -3 && Run([]).target == -2 && Run([]).status == SyncPaused
  {
  }

  /** The peer height is the highest one reported, -3 before any; a report of -1 is none. */
  lemma {:induction false} RemoteIsHighest(acts: seq<Action>)
    ensures var remote := Run(acts).remote;
      && remote >= -3
      && (forall i :: 0 <= i < |acts| && acts[i].StatusMsg? && acts[i].latest != -1 ==> acts[i].latest <= remote)
      && (remote == -3 || exists i :: 0 <= i < |acts| && acts[i].StatusMsg? && acts[i].latest == remote != -1)
  {
    hide Run;
    if acts == [] {
      InitialStatus();
    } else {
      var n := |acts| - 1;
      var front := acts[..n];
      assert acts == front + [acts[n]];
      RemoteIsHighest(front);
      StatusMoves(front, acts[n]);
      if Run(acts).remote != Run(front).remote {
        assert acts[n].StatusMsg?;
      } else if Run(front).remote != -3 {
        var i :| 0 <= i < n && front[i].StatusMsg? && front[i].latest == Run(front).remote != -1;
        assert acts[i] == front[i];
      }
    }
  }

  /** Step `i` reports a buffered height while the synchroniser is downloading blocks. */
  predicate RaisesTarget(acts: seq<Action>, i: nat)
    requires i < |acts|
  {
    acts[i].StatusMsg? && acts[i].latest != -1 && acts[i].buffered != -1 && Run(acts[..i]).status == BlockSyncing
  }

  /** The target is the highest buffered height reported in that state, -2 before any. */
  lemma {:induction false} TargetIsHighest(acts: seq<Action>)
    ensures var target := Run(acts).target;
      && target >= -2
      && (forall i :: 0 <= i < |acts| && RaisesTarget(acts, i) ==> acts[i].buffered <= target)
      && (target == -2 || exists i :: 0 <= i < |acts| && RaisesTarget(acts, i) && acts[i].buffered == target)
  {
    hide Run;
    if acts == [] {
      InitialStatus();
    } else {
      var n := |acts| - 1;
      var front := acts[..n];
      assert acts == front + [acts[n]];
      TargetIsHighest(front);
      StatusMoves(front, acts[n]);
      forall i | 0 <= i < n ensures RaisesTarget(front, i) == RaisesTarget(acts, i) && acts[i] == front[i] {
        assert front[..i] == acts[..i];
      }
      if Run(acts).target != Run(front).target {
        assert RaisesTarget(acts, n);
      } else if Run(front).target != -2 {
        var i :| 0 <= i < n && RaisesTarget(front, i) && front[i].buffered == Run(front).target;
        assert RaisesTarget(acts, i);
      }
    }
  }

  /** Step `i` finds the stored chain at the target. */
  predicate ReachesTarget(acts: seq<Action>, i: nat)
    requires i < |acts|
  {
    acts[i].StatusMsg? && acts[i].latest != -1 && acts[i].chainHeight == Run(acts[..i + 1]).target
  }

  /** Step `i` starts the synchroniser again, or finds it level with its peers and short of the target. */
  predicate StartsAgain(acts: seq<Action>, i: nat)
    requires i < |acts|
  {
    || acts[i].Start?
    || (acts[i].StatusMsg? && acts[i].latest != -1 && Run(acts[..i + 1]).remote == Run(acts[..i]).known
        && acts[i].chainHeight != Run(acts[..i + 1]).target)
  }

  /** At step `i` the stored chain was found at the target, and nothing started again since. */
  predicate SyncedSince(acts: seq<Action>, i: nat) {
    i < |acts| && ReachesTarget(acts, i) && forall j :: i < j < |acts| ==> !StartsAgain(acts, j)
  }

  lemma SyncedSinceBefore(acts: seq<Action>, i: nat)
    requires i < |acts| - 1
    ensures SyncedSince(acts, i) <==> SyncedSince(acts[..|acts| - 1], i) && !StartsAgain(acts, |acts| - 1)
  {
    hide Run;
    var n := |acts| - 1;
    forall j | 0 <= j < n
      ensures ReachesTarget(acts[..n], j) == ReachesTarget(acts, j) && StartsAgain(acts[..n], j) == StartsAgain(acts, j)
    {
      assert acts[..n][..j] == acts[..j] && acts[..n][..j + 1] == acts[..j + 1];
    }
  }

  lemma LastSynced(acts: seq<Action>)
    requires acts != []
    ensures var n := |acts| - 1;
      Run(acts).status == Synced <==>
        ReachesTarget(acts, n) || (Run(acts[..n]).status == Synced && !StartsAgain(acts, n))
  {
    hide Run;
    var n := |acts| - 1;
    assert acts == acts[..n] + [acts[n]] && acts[..n + 1] == acts;
    StatusMoves(acts[..n], acts[n]);
  }

  /** The synchroniser is done exactly when some report found the stored chain at the target, which is the
      highest buffered height reported while it was downloading, and nothing started it again since. */
  lemma {:induction false} SyncedExactly(acts: seq<Action>)
    ensures Run(acts).status == Synced <==> exists i: nat :: SyncedSince(acts, i)
  {
    hide Run, ReachesTarget, StartsAgain;
    if acts == [] {
      InitialStatus();
    } else {
      var n := |acts| - 1;
      SyncedExactly(acts[..n]);
      LastSynced(acts);
      if i: nat :| SyncedSince(acts[..n], i) { SyncedSinceBefore(acts, i); }
      if i: nat :| SyncedSince(acts, i) {
        if i < n { SyncedSinceBefore(acts, i); }
      }
      assert ReachesTarget(acts, n) ==> SyncedSince(acts, n);
    }
  }

  // ---------- no arrived block is lost ----------

  /** Block `b` lies in the map or was handed over. */
  predicate Kept(s: Sync, b: Block) {
    || (b.Height() in s.blocks && s.blocks[b.Height()] == b)
    || (0 <= b.Height() < |s.handed| && s.handed[b.Height()] == b)
  }

  lemma StepKeepsBlock(s: Sync, a: Action, b: Block)
    requires Inv(s) && (Kept(s, b) || a == Arrive(b))
    requires a.Arrive? && a != Arrive(b) ==> a.block.Height() != b.Height()
    ensures Kept(Step(s, a), b)
  {
  }

  /** A block that arrived stays in the map until it is handed over, unless a later arrival at its height
      takes its place. */
  lemma {:induction false} ArrivedIsKept(acts: seq<Action>, i: nat, b: Block)
    requires i < |acts| && acts[i] == Arrive(b)
    requires forall j :: i < j < |acts| && acts[j].Arrive? ==> acts[j].block.Height() != b.Height()
    ensures var s := Run(acts);
      || (b.Height() in s.blocks && s.blocks[b.Height()] == b)
      || (0 <= b.Height() < |s.handed| && s.handed[b.Height()] == b)
  {
    var n := |acts| - 1;
    RunKeepsInv(acts[..n]);
    RunKeepsInv(acts);
    if i < n { ArrivedIsKept(acts[..n], i, b); }
    StepKeepsBlock(Run(acts[..n]), acts[n], b);
  }

  /** Every block a step leaves in the map or hands over was there before or has just arrived. */
  lemma StepAddsArrived(s: Sync, a: Action, b: Block)
    requires b in Step(s, a).handed || b in Step(s, a).blocks.Values
    ensures b in s.handed || b in s.blocks.Values || a == Arrive(b)
  {
  }

  /** Nothing but arrived blocks is handed over. */
  lemma {:induction false} HandedHadArrived(acts: seq<Action>, b: Block)
    requires b in Run(acts).handed || b in Run(acts).blocks.Values
    ensures Arrive(b) in acts
  {
    hide Step;
    if acts != [] {
      var n := |acts| - 1;
      StepAddsArrived(Run(acts[..n]), acts[n], b);
      if acts[n] != Arrive(b) { HandedHadArrived(acts[..n], b); }
    }
  }

  // ---------- the object ----------

  class BlockSyncer {
    var remoteHeight: int
    var targetHeight: int
    var knownHeight: int
    var requestTimestamp: map<int, int>
    var blockMap: map<int, Block>
    var status: Status

    /** Local variables of blockProcessRoutine. */
    var sweep: Option<Sweep>

    /** The calls of AppendBlockTask made so far. */
    var chain: seq<Block>

    ghost function AsSync(): Sync
      reads this
    {
      Sync(remoteHeight, targetHeight, knownHeight, requestTimestamp, blockMap, status, sweep, chain)
    }

    constructor ()
      ensures AsSync() == InitSync()
    {
      remoteHeight, targetHeight, knownHeight := -3, -2, -1;
      requestTimestamp, blockMap, status := map[], map[], SyncPaused;
      sweep, chain := None, [];
    }

    method Start()
      modifies this
      ensures AsSync() == Step(old(AsSync()), Action.Start)
    {
      status := BlockSyncing;
    }

    method AppendBlock(block: Block)
      modifies this
      ensures AsSync() == Step(old(AsSync()), Arrive(block))
    {
      blockMap := blockMap[block.Height() := block];
    }

    /** One message in statusMsgRoutine. */
    method HandleStatus(latest: int, buffered: int, chainHeight: int)
      modifies this
      ensures AsSync() == Step(old(AsSync()), StatusMsg(latest, buffered, chainHeight))
    {
      if latest == -1 {
        return;
      }
      remoteHeight := Max(latest, remoteHeight);
      if buffered != -1 && status == BlockSyncing {
        targetHeight := Max(buffered, targetHeight);
      }
      if remoteHeight == knownHeight {
        status := BufferSyncing;
      }
      if chainHeight == targetHeight {
        status := Synced;
      }
    }

    /** The lowest height worth asking for, stamped. */
    method SelectBlockHeight(now: int) returns (height: int)
      requires knownHeight >= -1
      modifies `requestTimestamp
      ensures AsSync() == Step(old(AsSync()), Select(now)) && height == Selected(old(AsSync()), now).0
      ensures height == -1 || Wanted(old(AsSync()), height, now)
    {
      height := knownHeight + 1;
      ghost var s := AsSync();
      while height <= remoteHeight
        invariant s.known < height && (height <= s.remote + 1 || height == s.known + 1)
        invariant FirstWanted(s, s.known + 1, now) == FirstWanted(s, height, now)
        invariant requestTimestamp == ZeroFill(s.requests, s.known + 1, height)
      {
        ZeroFillAt(s.requests, s.known + 1, height, height);
        if height !in requestTimestamp {
          requestTimestamp := requestTimestamp[height := 0];
        }
        if height !in blockMap && now - requestTimestamp[height] > REQUEST_INTERVAL {
          requestTimestamp := requestTimestamp[height := now];
          return;
        }
        height := height + 1;
      }
      height := -1;
    }

    method InsertBlock(height: int)
      modifies this
      ensures AsSync() == HandOver(old(AsSync()), height)
    {
      if height !in blockMap {
        return;
      }
      chain := chain + [blockMap[height]];
      knownHeight := height;
      requestTimestamp := requestTimestamp - {height};
      blockMap := blockMap - {height};
    }

    /** The start of a sweep, its unlocked look and its insertion. */
    method ProcessStep(a: Action)
      requires a.Begin? || a.Look? || a.Insert?
      modifies this
      ensures AsSync() == Step(old(AsSync()), a)
    {
      match (a, sweep)
      case (Begin, None) => sweep := Some(Sweep(knownHeight + 1, remoteHeight, false));
      case (Look, Some(w)) =>
        if !w.seen {
          sweep := if w.next <= w.limit && w.next in blockMap then Some(w.(seen := true)) else None;
        }
      case (Insert, Some(w)) =>
        if w.seen {
          InsertBlock(w.next);
          sweep := Some(Sweep(w.next + 1, w.limit, false));
        }
      case _ =>
    }
  }

  /** Driven through any schedule of its goroutines, the object goes through the states of the run. */
  method Execute(acts: seq<Action>) returns (syncer: BlockSyncer)
    ensures syncer.AsSync() == Run(acts)
  {
    hide Step;
    syncer := new BlockSyncer();
    for i := 0 to |acts|
      invariant fresh(syncer) && syncer.AsSync() == Run(acts[..i])
    {
      assert acts[..i + 1][..i] == acts[..i];
      RunKeepsInv(acts[..i]);
      match acts[i]
      case Start => syncer.Start();
      case Arrive(b) => syncer.AppendBlock(b);
      case StatusMsg(latest, buffered, chainHeight) => syncer.HandleStatus(latest, buffered, chainHeight);
      case Select(now) => var _ := syncer.SelectBlockHeight(now);
      case Begin => syncer.ProcessStep(Begin);
      case Look => syncer.ProcessStep(Look);
      case Insert => syncer.ProcessStep(Insert);
    }
    assert acts[..|acts|] == acts;
  }
}
