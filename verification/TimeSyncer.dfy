/** The clock synchroniser of node/time_syncer.go: a four-timestamp offset estimate, as in section 8
    of RFC 5905 but with truncating divisions, and a confirmation count. Times are milliseconds. */
module TimeSync {
  datatype Status = Initial | SyncedUp | Confirming

  datatype Msg = Msg(code: int, reqTime: int, recReqTime: int, rspTime: int, recRspTime: int)

  const CONFIRM_THRESHOLD := 5
  const AVAILABLE_THRESHOLD := 1000

  /** Go's x / 2, towards zero. */
  function Half(x: int): (r: int)
    ensures if x >= 0 then 2 * r <= x <= 2 * r + 1 else 2 * r - 1 <= x <= 2 * r
  {
    if x < 0 then -(-x / 2) else x / 2
  }

  function Abs(x: int): int { if x < 0 then -x else x }

  function Estimate(m: Msg): int {
    Half(m.rspTime - m.recRspTime) + Half(m.recReqTime - m.reqTime)
  }

  predicate InTolerance(delta: int) {
    Abs(delta) < AVAILABLE_THRESHOLD
  }

  datatype Clock = Clock(status: Status, delta: int, confirmTimes: int)

  function Respond(c: Clock, m: Msg): Clock {
    if m.code != 0 then c
    else
      var d := Estimate(m);
      if c.status.Initial? then c.(status := Confirming, delta := c.delta + d)
      else
        var ok, confirming := InTolerance(d), c.status.Confirming?;
        var times := if !ok then 0 else if confirming then c.confirmTimes + 1 else c.confirmTimes;
        Clock(if confirming && times == CONFIRM_THRESHOLD then SyncedUp else c.status,
              if ok then c.delta + d else c.delta, times)
  }

  /** A response is applied when it is the first or within tolerance. */
  predicate Applied(c: Clock, m: Msg) {
    m.code == 0 && (c.status.Initial? || InTolerance(Estimate(m)))
  }

  /** A response with an error code changes nothing, and one out of tolerance only starts the count of
      confirmations afresh. */
  lemma UnappliedKeepsDelta(c: Clock, m: Msg)
    ensures !Applied(c, m) ==> Respond(c, m).delta == c.delta
    ensures m.code != 0 ==> Respond(c, m) == c
    ensures var d := Half(m.rspTime - m.recRspTime) + Half(m.recReqTime - m.reqTime);
      m.code == 0 && !c.status.Initial? && (d <= -1000 || d >= 1000) ==> Respond(c, m) == c.(confirmTimes := 0)
  {
  }

  /** The message of one exchange, in the time of the asking node's physical clock: sent at `t1` with its
      logic clock `local0` ahead, received `d1` later by a peer whose logic clock is `remote0` ahead,
      answered at `t3` with that clock `remote1` ahead, received `d2` later with the node's `local1`
      ahead. */
  function Exchange(t1: int, t3: int, d1: int, d2: int, remote0: int, remote1: int, local0: int, local1: int): Msg {
    Msg(0, t1 + local0, t1 + d1 + remote0, t3 + remote1, t3 + d2 + local1)
  }

  /** Clock error does not accumulate. Whatever the offset before, an applied response leaves the node
      off that peer by half the difference of the two delays, half of what the peer's clock moved between
      its stamps and half of what the node's moved while the request was out, give or take one
      millisecond of truncation. */
  lemma ErrorAfterExchange(c: Clock, t1: int, t3: int, d1: int, d2: int, remote0: int, remote1: int, local0: int)
    requires Applied(c, Exchange(t1, t3, d1, d2, remote0, remote1, local0, c.delta))
    ensures var error := remote1 - Respond(c, Exchange(t1, t3, d1, d2, remote0, remote1, local0, c.delta)).delta;
      -2 <= 2 * error - (d2 - d1 + remote1 - remote0 + local0 - c.delta) <= 2
  {
  }

  /** So the offset left is bounded by the two delays and the two movements. */
  lemma ErrorIsBounded(c: Clock, t1: int, t3: int, d1: int, d2: int, remote0: int, remote1: int, local0: int)
    requires Applied(c, Exchange(t1, t3, d1, d2, remote0, remote1, local0, c.delta))
    ensures var error := remote1 - Respond(c, Exchange(t1, t3, d1, d2, remote0, remote1, local0, c.delta)).delta;
      2 * Abs(error) <= Abs(d1 - d2) + Abs(remote1 - remote0) + Abs(c.delta - local0) + 2
  {
    hide Exchange, Respond, Applied;
    ErrorAfterExchange(c, t1, t3, d1, d2, remote0, remote1, local0);
  }

  /** Two differences of one millisecond are both lost to truncation. */
  lemma TruncatedAway(c: Clock, m: Msg)
    requires m.code == 0 && c.status.Initial? && m.rspTime - m.recRspTime == 1 && m.recReqTime - m.reqTime == 1
    ensures Applied(c, m) && Respond(c, m).delta == c.delta
  {
    hide Half;
  }

  /** The bound is reached, so it is the best one: with no delay at all an offset of one millisecond
      is truncated away twice. */
  lemma BoundIsTight()
    ensures var c, m := Clock(Initial, 0, 0), Exchange(0, 0, 0, 0, 1, 1, 0, 0);
      Applied(c, m) && 2 * Abs(1 - Respond(c, m).delta) == Abs(0 - 0) + 2
  {
    hide Half, Applied, Respond;
    TruncatedAway(Clock(Initial, 0, 0), Exchange(0, 0, 0, 0, 1, 1, 0, 0));
  }

  // ---------- confirmation ----------

  function After(c: Clock, msgs: seq<Msg>): Clock {
    if msgs == [] then c else Respond(After(c, msgs[..|msgs| - 1]), msgs[|msgs| - 1])
  }

  function Run(delta: int, msgs: seq<Msg>): Clock {
    After(Clock(Initial, delta, 0), msgs)
  }

  /** The estimates of the responses without an error code. */
  function Estimates(msgs: seq<Msg>): seq<int> {
    if msgs == [] then []
    else
      var front, m := Estimates(msgs[..|msgs| - 1]), msgs[|msgs| - 1];
      if m.code != 0 then front else front + [Estimate(m)]
  }

  /** How many of the last estimates, not counting the very first one, are within tolerance. */
  function Streak(e: seq<int>): (r: nat)
    ensures |e| > 0 ==> r <= |e| - 1
  {
    if |e| <= 1 || !InTolerance(e[|e| - 1]) then 0 else Streak(e[..|e| - 1]) + 1
  }

  /** Estimates `i` to `i + 4` are within tolerance, and `i` is not the first. */
  predicate FiveInARow(e: seq<int>, i: int) {
    1 <= i <= |e| - CONFIRM_THRESHOLD && forall j :: i <= j < i + CONFIRM_THRESHOLD ==> InTolerance(e[j])
  }

  lemma {:induction false} StreakCounts(e: seq<int>)
    requires e != []
    ensures forall j :: |e| - Streak(e) <= j < |e| ==> InTolerance(e[j])
    ensures Streak(e) < |e| - 1 ==> !InTolerance(e[|e| - 1 - Streak(e)])
  {
    if |e| > 1 && InTolerance(e[|e| - 1]) { StreakCounts(e[..|e| - 1]); }
  }

  lemma {:induction false} StatusIs(delta: int, msgs: seq<Msg>)
    ensures var c, e := Run(delta, msgs), Estimates(msgs);
      && (c.status.Initial? <==> e == [])
      && (c.status.Initial? ==> c.confirmTimes == 0)
      && (c.status.Confirming? ==> c.confirmTimes == Streak(e) < CONFIRM_THRESHOLD)
      && (c.status.SyncedUp? <==> exists i :: FiveInARow(e, i))
  {
    if msgs != [] {
      var before := msgs[..|msgs| - 1];
      StatusIs(delta, before);
      if msgs[|msgs| - 1].code == 0 { NextEstimate(Estimates(before), Estimate(msgs[|msgs| - 1])); }
    }
  }

  /** A further estimate completes a row of five exactly when the streak reaches five. */
  lemma NextEstimate(e: seq<int>, d: int)
    ensures e == [] ==> Streak(e + [d]) == 0
    ensures e != [] ==> Streak(e + [d]) == if InTolerance(d) then Streak(e) + 1 else 0
    ensures (forall i :: !FiveInARow(e, i)) && e != [] && Streak(e) < CONFIRM_THRESHOLD ==>
      ((exists i :: FiveInARow(e + [d], i)) <==> Streak(e + [d]) == CONFIRM_THRESHOLD)
    ensures (exists i :: FiveInARow(e, i)) ==> exists i :: FiveInARow(e + [d], i)
    ensures e == [] ==> forall i :: !FiveInARow(e + [d], i)
  {
    var f := e + [d];
    assert f[..|e|] == e;
    StreakCounts(f);
    if i :| FiveInARow(e, i) {
      assert FiveInARow(f, i);
    } else if e != [] && Streak(f) == CONFIRM_THRESHOLD {
      assert FiveInARow(f, |f| - CONFIRM_THRESHOLD);
    } else if i :| FiveInARow(f, i) {
      if i + CONFIRM_THRESHOLD < |f| { assert FiveInARow(e, i); }
    }
  }

  /** A node that is not the genesis node reports SYNCED exactly when some five consecutive valid
      responses after the first were within tolerance; so it never leaves SYNCED either. */
  lemma SyncedExactly(delta: int, msgs: seq<Msg>)
    ensures Run(delta, msgs).status.SyncedUp? <==> exists i :: FiveInARow(Estimates(msgs), i)
  {
    StatusIs(delta, msgs);
  }

  /** Five in a row, spelled out. */
  lemma FiveInARowExactly(e: seq<int>, i: int)
    ensures FiveInARow(e, i) <==>
      1 <= i <= |e| - 5 && -1000 < e[i] < 1000 && -1000 < e[i + 1] < 1000 && -1000 < e[i + 2] < 1000
        && -1000 < e[i + 3] < 1000 && -1000 < e[i + 4] < 1000
  {
  }

  lemma {:induction false} NoEstimateExactly(msgs: seq<Msg>)
    ensures Estimates(msgs) == [] <==> forall i :: 0 <= i < |msgs| ==> msgs[i].code != 0
  {
    if msgs != [] { NoEstimateExactly(msgs[..|msgs| - 1]); }
  }

  /** What response `n` of a run moves the clock by: its estimate if it is valid and either the first
      valid one or within 1000 ms, otherwise nothing. */
  function Moved(msgs: seq<Msg>, n: nat): int
    requires n < |msgs|
  {
    var d := Half(msgs[n].rspTime - msgs[n].recRspTime) + Half(msgs[n].recReqTime - msgs[n].reqTime);
    if msgs[n].code == 0 && ((forall i :: 0 <= i < n ==> msgs[i].code != 0) || -1000 < d < 1000) then d else 0
  }

  lemma MovesExactly(delta: int, msgs: seq<Msg>, n: nat)
    requires n < |msgs|
    ensures var d := Half(msgs[n].rspTime - msgs[n].recRspTime) + Half(msgs[n].recReqTime - msgs[n].reqTime);
      Run(delta, msgs[..n + 1]).delta - Run(delta, msgs[..n]).delta ==
      if msgs[n].code == 0 && ((forall i :: 0 <= i < n ==> msgs[i].code != 0) || -1000 < d < 1000) then d else 0
  {
    var before := msgs[..n];
    assert msgs[..n + 1][..n] == before;
    StatusIs(delta, before);
    NoEstimateExactly(before);
  }

  function Sum(s: seq<int>): int {
    if s == [] then 0 else Sum(s[..|s| - 1]) + s[|s| - 1]
  }

  /** Over a whole run nothing else moves the clock: it is off its start by the sum of exactly those
      estimates. */
  lemma {:induction false} DeltaIsSum(delta: int, msgs: seq<Msg>)
    ensures Run(delta, msgs).delta == delta + Sum(seq(|msgs|, n requires 0 <= n < |msgs| => Moved(msgs, n)))
  {
    hide Run, Moved;
    var all := seq(|msgs|, n requires 0 <= n < |msgs| => Moved(msgs, n));
    if msgs == [] {
      RunOfNothing(delta);
    } else {
      var front := msgs[..|msgs| - 1];
      DeltaIsSum(delta, front);
      MovedNow(delta, msgs, |front|);
      assert msgs[..|front| + 1] == msgs;
      forall n | 0 <= n < |front| ensures Moved(front, n) == Moved(msgs, n) { MovedBefore(msgs, n); }
      assert all[..|front|] == seq(|front|, n requires 0 <= n < |front| => Moved(front, n));
    }
  }

  lemma RunOfNothing(delta: int)
    ensures Run(delta, []).delta == delta
  {
  }

  lemma MovedNow(delta: int, msgs: seq<Msg>, n: nat)
    requires n < |msgs|
    ensures Run(delta, msgs[..n + 1]).delta == Run(delta, msgs[..n]).delta + Moved(msgs, n)
  {
    hide Run, Half;
    MovesExactly(delta, msgs, n);
  }

  lemma MovedBefore(msgs: seq<Msg>, n: nat)
    requires n < |msgs| - 1
    ensures Moved(msgs[..|msgs| - 1], n) == Moved(msgs, n)
  {
    hide Half;
    assert forall i :: 0 <= i <= n ==> msgs[..|msgs| - 1][i] == msgs[i];
  }

  lemma {:induction false} SyncedStays(delta: int, msgs: seq<Msg>, n: nat)
    requires n <= |msgs| && Run(delta, msgs[..n]).status.SyncedUp?
    ensures Run(delta, msgs).status.SyncedUp?
  {
    if n < |msgs| {
      assert msgs[..|msgs| - 1][..n] == msgs[..n];
      SyncedStays(delta, msgs[..|msgs| - 1], n);
    } else {
      assert msgs[..n] == msgs;
    }
  }

  class TimeSyncer {
    const genesis: bool
    var status: Status
    var delta: int
    var confirmTimes: int

    ghost function AsClock(): Clock
      reads this
    {
      Clock(status, delta, confirmTimes)
    }

    constructor (genesis: bool, delta: int)
      ensures AsClock() == Clock(Initial, delta, 0) && this.genesis == genesis
    {
      this.genesis := genesis;
      status, this.delta, confirmTimes := Initial, delta, 0;
    }

    method Start()
      modifies `status
      ensures status == if genesis then SyncedUp else old(status)
    {
      if genesis {
        status := SyncedUp;
      }
    }

    /** `now` is the physical clock. */
    method GetLogicClock(now: int) returns (r: int)
      ensures r == now + delta
    {
      r := now + delta;
    }

    /** The answer is stamped with the logic clock. */
    method ProcessSyncRequest(msg: Msg, now: int) returns (r: Msg)
      ensures r == msg.(rspTime := now + delta)
    {
      var rsp := GetLogicClock(now);
      r := msg.(rspTime := rsp);
    }

    /** A request is stamped when it arrives, at `arrived`, and answered at `now`; the responses `between`
        to this node's own requests may be processed in between. */
    method HandleRequest(msg: Msg, arrived: int, between: seq<Msg>, now: int) returns (r: Msg)
      modifies this
      ensures AsClock() == After(old(AsClock()), between)
      ensures r == msg.(recReqTime := arrived + old(delta), rspTime := now + delta)
    {
      var rec := GetLogicClock(arrived);
      r := msg.(recReqTime := rec);
      ProcessAll(between);
      r := ProcessSyncRequest(r, now);
    }

    method ProcessAll(msgs: seq<Msg>)
      modifies this
      ensures AsClock() == After(old(AsClock()), msgs)
    {
      for i := 0 to |msgs|
        invariant AsClock() == After(old(AsClock()), msgs[..i])
      {
        assert msgs[..i + 1][..i] == msgs[..i];
        ProcessSyncRespond(msgs[i]);
      }
      assert msgs[..|msgs|] == msgs;
    }

    /** A response is stamped when it arrives, then processed. */
    method HandleRespond(msg: Msg, arrived: int) returns (stamped: Msg)
      modifies this
      ensures stamped == msg.(recRspTime := arrived + old(delta))
      ensures AsClock() == Respond(old(AsClock()), stamped)
    {
      var rec := GetLogicClock(arrived);
      stamped := msg.(recRspTime := rec);
      ProcessSyncRespond(stamped);
    }

    method ProcessSyncRespond(msg: Msg)
      modifies this
      ensures AsClock() == Respond(old(AsClock()), msg)
    {
      if msg.code != 0 {
        return;
      }
      var d := Half(msg.rspTime - msg.recRspTime) + Half(msg.recReqTime - msg.reqTime);
      if status.Initial? {
        status := Confirming;
        delta := delta + d;
        return;
      }
      if InTolerance(d) {
        delta := delta + d;
        if status.Confirming? {
          confirmTimes := confirmTimes + 1;
        }
      } else {
        confirmTimes := 0;
      }
      if status.Confirming? && confirmTimes == CONFIRM_THRESHOLD {
        status := SyncedUp;
      }
    }
  }

  /** One exchange between two nodes. The peer's physical clock is `skew` ahead of the node's; while the
      request is out the node processes the responses `between`, and between its two stamps the peer
      processes `peerBetween`. The message that comes back is the Exchange the bounds speak of; if it is
      applied, the two logic clocks end up apart by half the delay difference and half of both movements
      at most, up to a millisecond, whatever the offset was. Where neither clock moved meanwhile, the
      delays alone bound it. */
  method Synchronise(node: TimeSyncer, peer: TimeSyncer, skew: int, between: seq<Msg>, peerBetween: seq<Msg>,
                     t1: int, t3: int, d1: int, d2: int)
    returns (msg: Msg)
    requires node != peer
    modifies node, peer
    ensures var before := After(old(node.AsClock()), between);
      && peer.AsClock() == After(old(peer.AsClock()), peerBetween)
      && msg == Exchange(t1, t3, d1, d2, skew + old(peer.delta), skew + peer.delta, old(node.delta), before.delta)
      && node.AsClock() == Respond(before, msg)
      && (Applied(before, msg) ==>
            2 * Abs(skew + peer.delta - node.delta) <=
            Abs(d1 - d2) + Abs(peer.delta - old(peer.delta)) + Abs(before.delta - old(node.delta)) + 2)
    ensures between == [] && peerBetween == [] && Applied(old(node.AsClock()), msg) ==>
      2 * Abs(skew + peer.delta - node.delta) <= Abs(d1 - d2) + 2
  {
    hide Respond, Applied;
    var reqTime := node.GetLogicClock(t1);
    msg := Msg(0, reqTime, 0, 0, 0);
    msg := peer.HandleRequest(msg, t1 + d1 + skew, peerBetween, t3 + skew);
    node.ProcessAll(between);
    ghost var before := node.AsClock();
    msg := node.HandleRespond(msg, t3 + d2);
    if Applied(before, msg) {
      ErrorIsBounded(before, t1, t3, d1, d2, skew + old(peer.delta), skew + peer.delta, old(node.delta));
    }
  }
}
