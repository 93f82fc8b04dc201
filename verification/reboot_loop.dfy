/** The reboot-aware loop of the plugin's `run`: keep invoking the worker
    while it reports work or a pending reboot, rebooting when asked. */
module RebootLoop {
  import opened Results
  import opened Aggregation
  import opened Become

  /** The worker's message when it stopped because a reboot must come first. */
  const RebootBeforeMoreSignal := "A reboot is required before more updates can be installed"
  const ReasonBeforeMore := "reboot was required before more updates can be installed"
  const ReasonFinalise := "reboot was required to finalise update install"

  /** The loop condition: updates were installed or found, or a reboot is pending. */
  predicate MoreWork(r: CycleResult) {
    r.installedCount > 0 || r.foundCount > 0 || r.rebootRequired
  }

  /** The reason quoted if the reboot for `r` fails. The sentinel message only
      chooses this text; it does not itself cause a reboot. */
  function RebootReason(r: CycleResult): (reason: string)
    ensures reason == ReasonBeforeMore <==> r.msg == Some(RebootBeforeMoreSignal)
    ensures reason == ReasonBeforeMore || reason == ReasonFinalise
  {
    if r.msg.GetOr("") == RebootBeforeMoreSignal then ReasonBeforeMore else ReasonFinalise
  }

  function RebootFailureMessage(reason: string, error: string): string {
    "Failed to reboot remote host when " + reason + ": " + error
  }

  /** Why the loop stopped. The last two are not states of the source: they
      say the finite oracle sequences ran out before the loop ended. */
  datatype Stop =
    | Settled               // the loop condition became false
    | RepeatedFailure       // a second consecutive failed result
    | RebootFailed(reason: string, error: string)
    | OutOfWorkerResults
    | OutOfRebootOutcomes

  /** How the loop ended: the worker results consumed (the last one is the
      current result), the reboot outcomes consumed, the accumulators and the
      play context. */
  datatype LoopEnd = LoopEnd(stop: Stop, cycles: nat, reboots: nat, acc: Aggregate, ctx: PlayContext)

  /** The number of results among `w[a..b]` that ask for a reboot. */
  function RebootsRequested(w: seq<CycleResult>, a: nat, b: nat): nat
    requires a <= b <= |w|
    decreases b - a
  {
    if a == b then 0 else (if w[a].rebootRequired then 1 else 0) + RebootsRequested(w, a + 1, b)
  }

  /** The outcome of one pass through the loop body. */
  datatype StepEnd =
    | Halt(stop: Stop, reboots: nat, acc: Aggregate, ctx: PlayContext)
    | Continue(reboots: nat, acc: Aggregate, ctx: PlayContext)

  /** One pass of the loop for the current result `cur`: the loop condition,
      the failure guard, then the reboot if `cur` asks for one. */
  function Iterate(cur: CycleResult, prevErrored: bool, rs: seq<RebootOutcome>, reboots: nat,
                   acc: Aggregate, ctx: PlayContext): (s: StepEnd)
    requires reboots <= |rs|
    ensures reboots <= s.reboots <= |rs|
    ensures s.ctx == ctx
    // the reboot is attempted iff the result requires one; attempting it sets changed
    ensures s.reboots == reboots + 1 <==>
      MoreWork(cur) && !(cur.failed && prevErrored) && cur.rebootRequired && reboots < |rs|
    ensures s.acc == acc.(changed := acc.changed || s.reboots > reboots)
    ensures s.Continue? <==>
      (&& MoreWork(cur) && !(cur.failed && prevErrored)
       && (cur.rebootRequired ==> reboots < |rs| && RaisedError(rs[reboots]).None?))
    ensures s.Halt? && s.stop.Settled? <==> !MoreWork(cur)
    ensures s.Halt? && s.stop.RepeatedFailure? <==> MoreWork(cur) && cur.failed && prevErrored
    ensures s.Halt? && s.stop.RebootFailed? ==>
      (&& MoreWork(cur) && cur.rebootRequired && s.reboots == reboots + 1 && RaisedError(rs[reboots]).Some?
       && s.stop.reason == RebootReason(cur) && s.stop.error == RaisedError(rs[reboots]).value)
    ensures s.Halt? && s.stop.OutOfRebootOutcomes? <==>
      MoreWork(cur) && !(cur.failed && prevErrored) && cur.rebootRequired && reboots == |rs|
    ensures s.Halt? ==> !s.stop.OutOfWorkerResults?
    ensures s.reboots == reboots || s.reboots == reboots + 1
    ensures s.Continue? ==> s.reboots == reboots + (if cur.rebootRequired then 1 else 0)
  {
    if !MoreWork(cur) then
      Halt(Settled, reboots, acc, ctx)
    else if cur.failed && prevErrored then
      Halt(RepeatedFailure, reboots, acc, ctx)
    else if !cur.rebootRequired then
      Continue(reboots, acc, ctx)
    else if reboots == |rs| then
      Halt(OutOfRebootOutcomes, reboots, acc, ctx)
    else
      var server := RebootServer(ctx, rs[reboots]);
      RebootServerRaises(ctx, rs[reboots]);
      if server.status.StepFailed? then
        Halt(RebootFailed(RebootReason(cur), server.status.msg),
             reboots + 1, acc.(changed := true), server.ctx)
      else
        Continue(reboots + 1, acc.(changed := true), server.ctx)
  }

  /** The loop, entered with `cycles` worker results consumed, `w[cycles - 1]`
      being the current result, and `reboots` reboot outcomes consumed.
      `prevErrored` is the one-bit failure guard. */
  function Loop(w: seq<CycleResult>, rs: seq<RebootOutcome>, cycles: nat, reboots: nat,
                prevErrored: bool, acc: Aggregate, ctx: PlayContext): (e: LoopEnd)
    requires 1 <= cycles <= |w| && reboots <= |rs|
    ensures cycles <= e.cycles <= |w| && reboots <= e.reboots <= |rs|
    // the play context is the caller's again after every reboot
    ensures e.ctx == ctx
    decreases |w| - cycles
  {
    var s := Iterate(w[cycles - 1], prevErrored, rs, reboots, acc, ctx);
    if s.Halt? then
      LoopEnd(s.stop, cycles, s.reboots, s.acc, s.ctx)
    else if cycles == |w| then
      LoopEnd(OutOfWorkerResults, cycles, s.reboots, s.acc, s.ctx)
    else
      Loop(w, rs, cycles + 1, s.reboots, w[cycles - 1].failed, Absorb(s.acc, w[cycles]), s.ctx)
  }

  /** The failure guard's invariant: it holds whether the previous result failed. */
  predicate GuardEntry(w: seq<CycleResult>, rs: seq<RebootOutcome>, cycles: nat, reboots: nat, prevErrored: bool)
  {
    && 1 <= cycles <= |w| && reboots <= |rs|
    && prevErrored == (cycles >= 2 && w[cycles - 2].failed)
  }

  /** The accumulators at loop exit summarise exactly the cycles run: counts
      are sums, update maps last-write-wins unions, and `changed` says some
      cycle changed something or a reboot was attempted. */
  lemma {:induction false} LoopAccumulates(w: seq<CycleResult>, rs: seq<RebootOutcome>, cycles: nat, reboots: nat,
                                           prevErrored: bool, acc: Aggregate, ctx: PlayContext)
    requires 1 <= cycles <= |w| && reboots <= |rs|
    requires acc == Summary(w[..cycles], reboots > 0)
    ensures var e := Loop(w, rs, cycles, reboots, prevErrored, acc, ctx);
      e.acc == Summary(w[..e.cycles], e.reboots > 0)
    decreases |w| - cycles
  {
    var s := Iterate(w[cycles - 1], prevErrored, rs, reboots, acc, ctx);
    if s.Continue? && cycles < |w| {
      AbsorbExtendsSummary(w[..cycles], w[cycles], s.reboots > 0);
      assert w[..cycles + 1] == w[..cycles] + [w[cycles]];
      LoopAccumulates(w, rs, cycles + 1, s.reboots, w[cycles - 1].failed, Absorb(s.acc, w[cycles]), s.ctx);
    }
  }

  /** Why the loop stopped, stated about the result current when it stopped:
      normally only on a result with no work, on a repeated failure only
      after two failures in a row, and when an oracle sequence ran out only
      while the loop still wanted an element of it. */
  lemma {:induction false} LoopStopReason(w: seq<CycleResult>, rs: seq<RebootOutcome>, cycles: nat, reboots: nat,
                                          prevErrored: bool, acc: Aggregate, ctx: PlayContext)
    requires GuardEntry(w, rs, cycles, reboots, prevErrored)
    ensures var e := Loop(w, rs, cycles, reboots, prevErrored, acc, ctx);
      && (e.stop.Settled? ==> !MoreWork(w[e.cycles - 1]))
      && (e.stop.RepeatedFailure? ==>
            MoreWork(w[e.cycles - 1]) && e.cycles >= 2 && w[e.cycles - 2].failed && w[e.cycles - 1].failed)
      && (e.stop.OutOfWorkerResults? ==> e.cycles == |w| && MoreWork(w[e.cycles - 1]))
      && (e.stop.OutOfRebootOutcomes? ==> e.reboots == |rs| && w[e.cycles - 1].rebootRequired)
    decreases |w| - cycles
  {
    var s := Iterate(w[cycles - 1], prevErrored, rs, reboots, acc, ctx);
    var e := Loop(w, rs, cycles, reboots, prevErrored, acc, ctx);
    if s.Halt? {
      assert e == LoopEnd(s.stop, cycles, s.reboots, s.acc, s.ctx);
    } else if cycles == |w| {
      assert e == LoopEnd(OutOfWorkerResults, cycles, s.reboots, s.acc, s.ctx);
    } else {
      assert e == Loop(w, rs, cycles + 1, s.reboots, w[cycles - 1].failed, Absorb(s.acc, w[cycles]), s.ctx);
      LoopStopReason(w, rs, cycles + 1, s.reboots, w[cycles - 1].failed, Absorb(s.acc, w[cycles]), s.ctx);
    }
  }

  /** How a loop that stopped on a failed reboot ended: on a result that
      reported work and required the reboot, the reason quoted is that
      result's and the error the reboot's, and the attempt has already set
      `changed`. */
  predicate EndedOnFailedReboot(w: seq<CycleResult>, rs: seq<RebootOutcome>, e: LoopEnd) {
    && e.stop.RebootFailed?
    && 1 <= e.cycles <= |w| && 1 <= e.reboots <= |rs|
    && w[e.cycles - 1].rebootRequired && MoreWork(w[e.cycles - 1])
    && RaisedError(rs[e.reboots - 1]).Some?
    && e.stop.reason == RebootReason(w[e.cycles - 1]) && e.stop.error == RaisedError(rs[e.reboots - 1]).value
    && e.acc.changed
  }

  /** A failed reboot ends the loop only as EndedOnFailedReboot describes. */
  lemma {:induction false} LoopRebootFailure(w: seq<CycleResult>, rs: seq<RebootOutcome>, cycles: nat, reboots: nat,
                                             prevErrored: bool, acc: Aggregate, ctx: PlayContext)
    requires 1 <= cycles <= |w| && reboots <= |rs|
    ensures var e := Loop(w, rs, cycles, reboots, prevErrored, acc, ctx);
      e.stop.RebootFailed? ==> EndedOnFailedReboot(w, rs, e)
    decreases |w| - cycles
  {
    var s := Iterate(w[cycles - 1], prevErrored, rs, reboots, acc, ctx);
    var e := Loop(w, rs, cycles, reboots, prevErrored, acc, ctx);
    if s.Halt? {
      assert e == LoopEnd(s.stop, cycles, s.reboots, s.acc, s.ctx);
      if s.stop.RebootFailed? {
        assert w[e.cycles - 1] == w[cycles - 1] && rs[e.reboots - 1] == rs[reboots];
      }
    } else if cycles < |w| {
      assert e == Loop(w, rs, cycles + 1, s.reboots, w[cycles - 1].failed, Absorb(s.acc, w[cycles]), s.ctx);
      LoopRebootFailure(w, rs, cycles + 1, s.reboots, w[cycles - 1].failed, Absorb(s.acc, w[cycles]), s.ctx);
    }
  }

  /** Every result the loop examined before the last one kept it going: it
      reported work, and it was not the second of two failures in a row. */
  lemma {:induction false} LoopContinuedThrough(w: seq<CycleResult>, rs: seq<RebootOutcome>, cycles: nat, reboots: nat,
                                                prevErrored: bool, acc: Aggregate, ctx: PlayContext)
    requires GuardEntry(w, rs, cycles, reboots, prevErrored)
    ensures var e := Loop(w, rs, cycles, reboots, prevErrored, acc, ctx);
      forall i :: cycles - 1 <= i < e.cycles - 1 ==>
        MoreWork(w[i]) && !(i >= 1 && w[i - 1].failed && w[i].failed)
    decreases |w| - cycles
  {
    var s := Iterate(w[cycles - 1], prevErrored, rs, reboots, acc, ctx);
    if s.Continue? && cycles < |w| {
      LoopContinuedThrough(w, rs, cycles + 1, s.reboots, w[cycles - 1].failed, Absorb(s.acc, w[cycles]), s.ctx);
    }
  }

  /** A reboot is attempted for exactly those examined results that require
      one: the count of reboot outcomes consumed equals the count of
      `reboot_required` results, the last one included when it was rebooted. */
  lemma {:induction false} LoopRebootCount(w: seq<CycleResult>, rs: seq<RebootOutcome>, cycles: nat, reboots: nat,
                                           prevErrored: bool, acc: Aggregate, ctx: PlayContext)
    requires 1 <= cycles <= |w| && reboots <= |rs|
    ensures var e := Loop(w, rs, cycles, reboots, prevErrored, acc, ctx);
      && (e.stop.Settled? || e.stop.RebootFailed? || e.stop.OutOfWorkerResults? ==>
            e.reboots == reboots + RebootsRequested(w, cycles - 1, e.cycles))
      && (e.stop.RepeatedFailure? || e.stop.OutOfRebootOutcomes? ==>
            e.reboots == reboots + RebootsRequested(w, cycles - 1, e.cycles - 1))
    decreases |w| - cycles
  {
    var cur := w[cycles - 1];
    var s := Iterate(cur, prevErrored, rs, reboots, acc, ctx);
    var e := Loop(w, rs, cycles, reboots, prevErrored, acc, ctx);
    var here := if cur.rebootRequired then 1 else 0;
    assert RebootsRequested(w, cycles - 1, cycles) == here;
    if s.Halt? {
      assert e == LoopEnd(s.stop, cycles, s.reboots, s.acc, s.ctx);
      if s.stop.RepeatedFailure? || s.stop.OutOfRebootOutcomes? {
        assert s.reboots == reboots;
      } else if s.stop.Settled? {
        assert here == 0 && s.reboots == reboots;
      } else {
        assert s.reboots == reboots + 1 && here == 1;
      }
    } else if cycles == |w| {
      assert e == LoopEnd(OutOfWorkerResults, cycles, reboots + here, s.acc, s.ctx);
    } else {
      var next := Absorb(s.acc, w[cycles]);
      assert e == Loop(w, rs, cycles + 1, reboots + here, cur.failed, next, s.ctx);
      LoopRebootCount(w, rs, cycles + 1, reboots + here, cur.failed, next, s.ctx);
    }
  }
}
