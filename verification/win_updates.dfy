/** The plugin's `run`: validate the options, invoke the worker once, and in
    reboot mode keep cycling through reboots, then write the aggregate back. */
module WinUpdates {
  import opened Results
  import opened Aggregation
  import opened Become
  import opened RebootLoop
  import opened Validation

  /** What `run` ends with. `Exhausted` is not a state of the source: the
      finite sequences of worker results or reboot outcomes ran out while
      the loop still wanted one. */
  datatype RunOutput =
    | Rejected(msg: string)
    | Returned(result: CycleResult, workerCalls: nat, rebootAttempts: nat, ctx: PlayContext)
    | Exhausted(workerCalls: nat, rebootAttempts: nat)

  /** The module arguments passed to the worker: the task's own arguments
      without the two the plugin consumes itself. Every worker call `run`
      makes uses these arguments; the worker results `w` given to Run stand
      for the results of those calls. */
  function ModuleArgs<V>(taskArgs: map<string, V>): (r: map<string, V>)
    ensures r.Keys == taskArgs.Keys - {"reboot", "reboot_timeout"}
    ensures forall k :: k in r ==> r[k] == taskArgs[k]
  {
    map k | k in taskArgs && k != "reboot" && k != "reboot_timeout" :: taskArgs[k]
  }

  /** Whether the reboot-aware loop is entered at all. */
  predicate LoopMode(opts: Options, checkMode: bool) {
    opts.reboot && opts.state == "installed" && !checkMode
  }

  /** `run` on task arguments `args`, the task's `async_val`, the play's check
      mode and context, the worker's results `w` in call order and the
      outcomes `rs` of successive `_reboot_server` calls. */
  function Run(args: TaskArgs, asyncVal: int, checkMode: bool, ctx: PlayContext,
               w: seq<CycleResult>, rs: seq<RebootOutcome>): (out: RunOutput)
    // a failed validation is reported and the worker is never invoked
    ensures out.Rejected? <==> Validate(args, asyncVal).Err?
    ensures out.Rejected? ==> Validate(args, asyncVal) == Err(out.msg)
    ensures out.Returned? ==>
      out.ctx == ctx && 1 <= out.workerCalls <= |w| && out.rebootAttempts <= |rs|
    // outside reboot mode the worker runs once and its result is returned as is
    ensures Validate(args, asyncVal).Ok? && !LoopMode(Validate(args, asyncVal).value, checkMode) && |w| >= 1
      ==> out == Returned(w[0], 1, 0, ctx)
  {
    match Validate(args, asyncVal)
    case Err(msg) => Rejected(msg)
    case Ok(opts) =>
      if |w| == 0 then Exhausted(0, 0)
      else
        var first := w[0];
        FinaliseSeedUnchanged(first, asyncVal);
        if !LoopMode(opts, checkMode) then
          Returned(Finalise(first, Seed(first), asyncVal), 1, 0, ctx)
        else
          LoopOutput(w, Loop(w, rs, 1, 0, false, Seed(first), ctx), asyncVal)
  }

  /** What `run` returns once the loop has ended with `e`: the last result,
      marked failed when the reboot failed, with the aggregates written back. */
  function LoopOutput(w: seq<CycleResult>, e: LoopEnd, asyncVal: int): RunOutput
    requires 1 <= e.cycles <= |w|
  {
    match e.stop
    case OutOfWorkerResults => Exhausted(e.cycles, e.reboots)
    case OutOfRebootOutcomes => Exhausted(e.cycles, e.reboots)
    case RebootFailed(reason, error) =>
      var failure := RebootFailureMessage(reason, error);
      Returned(Finalise(w[e.cycles - 1].(failed := true, msg := Some(failure)), e.acc, asyncVal),
               e.cycles, e.reboots, e.ctx)
    case _ => Returned(Finalise(w[e.cycles - 1], e.acc, asyncVal), e.cycles, e.reboots, e.ctx)
  }

  /** The loop as `run` enters it: first result current, nothing rebooted. */
  function FirstLoop(w: seq<CycleResult>, rs: seq<RebootOutcome>, ctx: PlayContext): LoopEnd
    requires |w| >= 1
  {
    Loop(w, rs, 1, 0, false, Seed(w[0]), ctx)
  }

  lemma FirstLoopEntry(w: seq<CycleResult>, rs: seq<RebootOutcome>)
    requires |w| >= 1
    ensures GuardEntry(w, rs, 1, 0, false)
    ensures Seed(w[0]) == Summary(w[..1], false)
  {
    SeedIsSummary(w[0]);
    assert w[..1] == [w[0]];
  }

  /** When the task is not asynchronous, the returned counts are the sums over
      every worker call made, the update maps their last-write-wins union, and
      `changed` is set iff some call changed something or a reboot was tried. */
  lemma RunAggregates(args: TaskArgs, asyncVal: int, checkMode: bool, ctx: PlayContext,
                      w: seq<CycleResult>, rs: seq<RebootOutcome>)
    requires asyncVal == 0
    ensures var out := Run(args, asyncVal, checkMode, ctx, w, rs);
      out.Returned? ==> Seed(out.result) == Summary(w[..out.workerCalls], out.rebootAttempts > 0)
  {
    var out := Run(args, asyncVal, checkMode, ctx, w, rs);
    if out.Returned? {
      FirstLoopEntry(w, rs);
      var opts := Validate(args, asyncVal).value;
      if LoopMode(opts, checkMode) {
        LoopAccumulates(w, rs, 1, 0, false, Seed(w[0]), ctx);
      }
    }
  }

  /** A first result reporting no found or installed update and no pending
      reboot means exactly one worker call and no reboot, in any mode. */
  lemma QuietFirstResult(args: TaskArgs, asyncVal: int, checkMode: bool, ctx: PlayContext,
                         w: seq<CycleResult>, rs: seq<RebootOutcome>)
    requires Validate(args, asyncVal).Ok? && |w| >= 1 && !MoreWork(w[0])
    ensures var out := Run(args, asyncVal, checkMode, ctx, w, rs);
      out.Returned? && out.workerCalls == 1 && out.rebootAttempts == 0
  {
    FirstLoopEntry(w, rs);
    LoopStopReason(w, rs, 1, 0, false, Seed(w[0]), ctx);
  }

  /** With a positive `async_val` validation has ruled out reboot mode, so
      the worker's single raw result is returned unmodified. */
  lemma AsyncReturnsRawResult(args: TaskArgs, asyncVal: int, checkMode: bool, ctx: PlayContext,
                              w: seq<CycleResult>, rs: seq<RebootOutcome>)
    requires asyncVal > 0 && Validate(args, asyncVal).Ok? && |w| >= 1
    ensures Run(args, asyncVal, checkMode, ctx, w, rs) == Returned(w[0], 1, 0, ctx)
  {
  }

  /** In reboot mode a successful run stops only when the last result shows
      no more work, and it rebooted once for every result that required it. */
  lemma RunRebootsMatchRequests(args: TaskArgs, asyncVal: int, checkMode: bool, ctx: PlayContext,
                                w: seq<CycleResult>, rs: seq<RebootOutcome>)
    requires Validate(args, asyncVal).Ok? && LoopMode(Validate(args, asyncVal).value, checkMode)
    ensures var out := Run(args, asyncVal, checkMode, ctx, w, rs);
      out.Returned? && !out.result.failed ==>
        && !MoreWork(w[out.workerCalls - 1])
        && out.rebootAttempts == RebootsRequested(w, 0, out.workerCalls)
        && forall i :: 0 <= i < out.workerCalls - 1 ==> MoreWork(w[i])
  {
    var out := Run(args, asyncVal, checkMode, ctx, w, rs);
    if out.Returned? && !out.result.failed {
      FirstLoopEntry(w, rs);
      LoopStopReason(w, rs, 1, 0, false, Seed(w[0]), ctx);
      LoopRebootCount(w, rs, 1, 0, false, Seed(w[0]), ctx);
      LoopContinuedThrough(w, rs, 1, 0, false, Seed(w[0]), ctx);
    }
  }

  /** Two failed results in a row end the loop and return the second one. */
  lemma TwoFailuresInARow(args: TaskArgs, asyncVal: int, checkMode: bool, ctx: PlayContext,
                          w: seq<CycleResult>, rs: seq<RebootOutcome>)
    requires Validate(args, asyncVal).Ok? && LoopMode(Validate(args, asyncVal).value, checkMode)
    requires |w| >= 2
    requires MoreWork(w[0]) && w[0].failed && !w[0].rebootRequired
    requires MoreWork(w[1]) && w[1].failed
    ensures Run(args, asyncVal, checkMode, ctx, w, rs)
      == Returned(Finalise(w[1], Absorb(Seed(w[0]), w[1]), asyncVal), 2, 0, ctx)
  {
    var acc0 := Seed(w[0]);
    var acc1 := Absorb(acc0, w[1]);
    assert Iterate(w[0], false, rs, 0, acc0, ctx) == Continue(0, acc0, ctx);
    assert Loop(w, rs, 1, 0, false, acc0, ctx) == Loop(w, rs, 2, 0, true, acc1, ctx);
    assert Iterate(w[1], true, rs, 0, acc1, ctx) == Halt(RepeatedFailure, 0, acc1, ctx);
    assert Loop(w, rs, 2, 0, true, acc1, ctx) == LoopEnd(RepeatedFailure, 2, 0, acc1, ctx);
  }

  /** A failed result followed by a successful one resets the guard: a later
      single failure does not end the loop. */
  lemma FailureThenSuccessContinues(args: TaskArgs, asyncVal: int, checkMode: bool, ctx: PlayContext,
                                    w: seq<CycleResult>, rs: seq<RebootOutcome>)
    requires Validate(args, asyncVal).Ok? && LoopMode(Validate(args, asyncVal).value, checkMode)
    requires |w| == 4
    requires forall i :: 0 <= i < 3 ==> MoreWork(w[i]) && !w[i].rebootRequired
    requires w[0].failed && !w[1].failed && w[2].failed
    requires !MoreWork(w[3])
    ensures var out := Run(args, asyncVal, checkMode, ctx, w, rs);
      out.Returned? && out.workerCalls == 4 && out.rebootAttempts == 0
  {
    var acc0 := Seed(w[0]);
    var acc1 := Absorb(acc0, w[1]);
    var acc2 := Absorb(acc1, w[2]);
    var acc3 := Absorb(acc2, w[3]);
    assert Iterate(w[0], false, rs, 0, acc0, ctx) == Continue(0, acc0, ctx);
    assert Loop(w, rs, 1, 0, false, acc0, ctx) == Loop(w, rs, 2, 0, true, acc1, ctx);
    assert Iterate(w[1], true, rs, 0, acc1, ctx) == Continue(0, acc1, ctx);
    assert Loop(w, rs, 2, 0, true, acc1, ctx) == Loop(w, rs, 3, 0, false, acc2, ctx);
    assert Iterate(w[2], false, rs, 0, acc2, ctx) == Continue(0, acc2, ctx);
    assert Loop(w, rs, 3, 0, false, acc2, ctx) == Loop(w, rs, 4, 0, true, acc3, ctx);
    assert Iterate(w[3], true, rs, 0, acc3, ctx) == Halt(Settled, 0, acc3, ctx);
    assert Loop(w, rs, 4, 0, true, acc3, ctx) == LoopEnd(Settled, 4, 0, acc3, ctx);
  }

  /** A failing reboot marks the current result failed with a message naming
      the reason and the error, and no further worker call is made; `changed`
      was already set. */
  lemma RebootFailureAborts(args: TaskArgs, asyncVal: int, checkMode: bool, ctx: PlayContext,
                            w: seq<CycleResult>, rs: seq<RebootOutcome>, error: string)
    requires Validate(args, asyncVal).Ok? && LoopMode(Validate(args, asyncVal).value, checkMode)
    requires |w| >= 1 && w[0].rebootRequired
    requires |rs| >= 1 && rs[0].reboot == StepFailed(error)
    ensures var out := Run(args, asyncVal, checkMode, ctx, w, rs);
      && out.Returned? && out.workerCalls == 1 && out.rebootAttempts == 1
      && out.result.failed
      && out.result.msg == Some("Failed to reboot remote host when " + RebootReason(w[0]) + ": " + error)
      && (asyncVal == 0 ==> out.result.changed)
  {
    var acc0 := Seed(w[0]);
    RebootServerRaises(ctx, rs[0]);
    var stop := RebootFailed(RebootReason(w[0]), error);
    assert Iterate(w[0], false, rs, 0, acc0, ctx) == Halt(stop, 1, acc0.(changed := true), ctx);
    assert Loop(w, rs, 1, 0, false, acc0, ctx) == LoopEnd(stop, 1, 1, acc0.(changed := true), ctx);
  }

  /** How `run` reports a failed reboot: no further worker call, and the
      current result, which required the reboot, returned marked failed with
      the reboot failure message naming that result's reason and the
      reboot's error; when the task is not asynchronous `changed` is set, by
      the attempted reboot if by nothing else. */
  predicate ReportsRebootFailure(w: seq<CycleResult>, rs: seq<RebootOutcome>, asyncVal: int, out: RunOutput) {
    && out.Returned? && 1 <= out.workerCalls <= |w| && 1 <= out.rebootAttempts <= |rs|
    && var last, error := w[out.workerCalls - 1], RaisedError(rs[out.rebootAttempts - 1]);
       && MoreWork(last) && last.rebootRequired && error.Some?
       && var failure := RebootFailureMessage(RebootReason(last), error.value);
       && out.result.failed && out.result.rebootRequired && out.result.msg == Some(failure)
       && (asyncVal != 0 ==> out.result == last.(failed := true, msg := Some(failure)))
       && (asyncVal == 0 ==> out.result.changed)
  }

  /** Whenever a reboot fails, in whichever cycle, `run` reports it as
      ReportsRebootFailure describes, with the play context restored. */
  lemma RunRebootFailure(args: TaskArgs, asyncVal: int, checkMode: bool, ctx: PlayContext,
                         w: seq<CycleResult>, rs: seq<RebootOutcome>)
    requires Validate(args, asyncVal).Ok? && LoopMode(Validate(args, asyncVal).value, checkMode)
    requires |w| >= 1
    ensures var out := Run(args, asyncVal, checkMode, ctx, w, rs);
      FirstLoop(w, rs, ctx).stop.RebootFailed? ==>
        ReportsRebootFailure(w, rs, asyncVal, out) && out.ctx == ctx
  {
    var e := Loop(w, rs, 1, 0, false, Seed(w[0]), ctx);
    if e.stop.RebootFailed? {
      LoopRebootFailure(w, rs, 1, 0, false, Seed(w[0]), ctx);
      RebootFailedOutput(w, rs, e, asyncVal);
      assert Run(args, asyncVal, checkMode, ctx, w, rs) == LoopOutput(w, e, asyncVal);
    }
  }

  /** The loop-level facts of a failed reboot carried over to the output. */
  lemma RebootFailedOutput(w: seq<CycleResult>, rs: seq<RebootOutcome>, e: LoopEnd, asyncVal: int)
    requires EndedOnFailedReboot(w, rs, e)
    ensures ReportsRebootFailure(w, rs, asyncVal, LoopOutput(w, e, asyncVal))
    ensures LoopOutput(w, e, asyncVal).ctx == e.ctx
  {
  }

  /** Whenever the loop stops on a repeated failure: the last two results
      examined both failed, every earlier one kept the loop going, and the
      second failed result is returned, still failed, with its own message. */
  lemma RunRepeatedFailure(args: TaskArgs, asyncVal: int, checkMode: bool, ctx: PlayContext,
                           w: seq<CycleResult>, rs: seq<RebootOutcome>)
    requires Validate(args, asyncVal).Ok? && LoopMode(Validate(args, asyncVal).value, checkMode)
    requires |w| >= 1
    ensures var out := Run(args, asyncVal, checkMode, ctx, w, rs);
      FirstLoop(w, rs, ctx).stop.RepeatedFailure? ==>
        && out.Returned? && out.workerCalls >= 2
        && var last := w[out.workerCalls - 1];
           && MoreWork(last) && w[out.workerCalls - 2].failed && last.failed
           && (forall i :: 0 <= i < out.workerCalls - 1 ==> MoreWork(w[i]) && !(i >= 1 && w[i - 1].failed && w[i].failed))
           && out.result.failed && out.result.msg == last.msg
           && (asyncVal != 0 ==> out.result == last)
           && (asyncVal == 0 ==> Seed(out.result) == Summary(w[..out.workerCalls], out.rebootAttempts > 0))
  {
    var e := FirstLoop(w, rs, ctx);
    if e.stop.RepeatedFailure? {
      FirstLoopEntry(w, rs);
      LoopStopReason(w, rs, 1, 0, false, Seed(w[0]), ctx);
      LoopContinuedThrough(w, rs, 1, 0, false, Seed(w[0]), ctx);
      if asyncVal == 0 {
        RunAggregates(args, asyncVal, checkMode, ctx, w, rs);
      }
    }
  }

  /** The sentinel message without `reboot_required` does not reboot. */
  lemma SentinelAloneDoesNotReboot(args: TaskArgs, asyncVal: int, checkMode: bool, ctx: PlayContext,
                                   w: seq<CycleResult>, rs: seq<RebootOutcome>)
    requires Validate(args, asyncVal).Ok? && LoopMode(Validate(args, asyncVal).value, checkMode)
    requires |w| == 2 && MoreWork(w[0]) && !w[0].failed && !w[0].rebootRequired
    requires w[0].msg == Some(RebootBeforeMoreSignal)
    requires !MoreWork(w[1])
    ensures var out := Run(args, asyncVal, checkMode, ctx, w, rs);
      out.Returned? && out.workerCalls == 2 && out.rebootAttempts == 0
  {
    var acc0 := Seed(w[0]);
    var acc1 := Absorb(acc0, w[1]);
    assert Iterate(w[0], false, rs, 0, acc0, ctx) == Continue(0, acc0, ctx);
    assert Loop(w, rs, 1, 0, false, acc0, ctx) == Loop(w, rs, 2, 0, false, acc1, ctx);
    assert Loop(w, rs, 2, 0, false, acc1, ctx) == LoopEnd(Settled, 2, 0, acc1, ctx);
  }

  /** Found 5 and reboot required, a good reboot, then 5 installed: the
      installed count keeps the loop going, so a third, quiet worker call is
      needed before the run returns found 5, installed 5, changed. */
  lemma FoundRebootInstallExample(args: TaskArgs, ctx: PlayContext, w: seq<CycleResult>, rs: seq<RebootOutcome>)
    requires Validate(args, 0).Ok? && LoopMode(Validate(args, 0).value, false)
    requires |w| == 3 && |rs| == 1 && RaisedError(rs[0]).None?
    requires w[0].foundCount == 5 && w[0].installedCount == 0 && w[0].rebootRequired && !w[0].failed
    requires w[1].foundCount == 0 && w[1].installedCount == 5 && !w[1].rebootRequired && !w[1].failed && w[1].changed
    requires !MoreWork(w[2]) && w[2].foundCount == 0 && w[2].installedCount == 0
    ensures var out := Run(args, 0, false, ctx, w, rs);
      && out.Returned? && out.workerCalls == 3 && out.rebootAttempts == 1
      && out.result.foundCount == 5 && out.result.installedCount == 5 && out.result.changed
    ensures Run(args, 0, false, ctx, w[..2], rs) == Exhausted(2, 1)
  {
    RebootServerRaises(ctx, rs[0]);
    var acc0 := Seed(w[0]);
    var rebooted := acc0.(changed := true);
    var acc1 := Absorb(rebooted, w[1]);
    var acc2 := Absorb(acc1, w[2]);
    var ctx1 := RebootServer(ctx, rs[0]).ctx;
    assert Iterate(w[0], false, rs, 0, acc0, ctx) == Continue(1, rebooted, ctx1);
    assert Loop(w, rs, 1, 0, false, acc0, ctx) == Loop(w, rs, 2, 1, false, acc1, ctx1);
    assert Iterate(w[1], false, rs, 1, acc1, ctx1) == Continue(1, acc1, ctx1);
    assert Loop(w, rs, 2, 1, false, acc1, ctx1) == Loop(w, rs, 3, 1, false, acc2, ctx1);
    assert Loop(w, rs, 3, 1, false, acc2, ctx1) == LoopEnd(Settled, 3, 1, acc2, ctx1);
    // the same run with only the first two worker results
    var w2 := w[..2];
    assert w2[0] == w[0] && w2[1] == w[1];
    assert Loop(w2, rs, 1, 0, false, acc0, ctx) == Loop(w2, rs, 2, 1, false, acc1, ctx1);
    assert Loop(w2, rs, 2, 1, false, acc1, ctx1) == LoopEnd(OutOfWorkerResults, 2, 1, acc1, ctx1);
  }
}
