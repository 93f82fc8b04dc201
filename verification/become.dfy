/** `_reboot_server`: the reboot, the busy probe run under an elevated play
    context, and the wait for the connection. */
module Become {
  import opened Results

  /** The elevation settings of the play context that `_reboot_server` saves
      and restores. */
  datatype PlayContext = PlayContext(become: Option<bool>, becomeMethod: Option<string>, becomeUser: Option<string>)

  /** What the `win_shell` busy probe did: returned a result, or raised. */
  datatype ProbeOutcome = ProbeReturned(output: string) | ProbeRaised(error: string)

  /** The result of a sibling action plugin (`win_reboot`, `wait_for_connection`). */
  datatype StepResult = StepOk | StepFailed(msg: string)

  /** What the remote side does during one call of `_reboot_server`. */
  datatype RebootOutcome = RebootOutcome(reboot: StepResult, probe: ProbeOutcome, wait: StepResult)

  /** The play context after the call, the context the probe ran under (none
      when the reboot failed before it), and whether the call raised. */
  datatype RebootServerEnd = RebootServerEnd(ctx: PlayContext, probeCtx: Option<PlayContext>, status: StepResult)

  /** Python truthiness of a string. */
  predicate Truthy(s: string) {
    |s| > 0
  }

  /** The context the probe runs under. The user test is written
      `orig_become_user is None or 'root'`, whose second operand is a
      non-empty string and so always true: the user is always SYSTEM. */
  function Elevate(ctx: PlayContext): (e: PlayContext)
    ensures e.become == Some(true)
    ensures e.becomeMethod == Some("runas")
    ensures e.becomeUser == Some("SYSTEM")
  {
    var become := if ctx.become.None? || ctx.become == Some(false) then Some(true) else ctx.become;
    assert ctx.become.Some? && ctx.become != Some(false) ==> ctx.become.value;
    var mth := if ctx.becomeMethod != Some("runas") then Some("runas") else ctx.becomeMethod;
    var user := if ctx.becomeUser.None? || Truthy("root") then Some("SYSTEM") else ctx.becomeUser;
    PlayContext(become, mth, user)
  }

  /** The `finally` block: put back the three saved settings. */
  function Restore(current: PlayContext, saved: PlayContext): PlayContext {
    current.(become := saved.become, becomeMethod := saved.becomeMethod, becomeUser := saved.becomeUser)
  }

  /** The error `_reboot_server` raises for an outcome, if any: the reboot's
      message, else the connection wait's; the probe never contributes. */
  function RaisedError(o: RebootOutcome): Option<string> {
    if o.reboot.StepFailed? then Some(o.reboot.msg)
    else if o.wait.StepFailed? then Some(o.wait.msg)
    else None
  }

  /** One call of `_reboot_server` on the play context `ctx`. */
  function RebootServer(ctx: PlayContext, o: RebootOutcome): (r: RebootServerEnd)
    ensures r.ctx == ctx
    ensures r.status.StepOk? <==> o.reboot.StepOk? && o.wait.StepOk?
    ensures o.reboot.StepFailed? ==> r.status == o.reboot && r.probeCtx.None?
    ensures o.reboot.StepOk? ==> r.status == o.wait
    ensures o.reboot.StepOk? ==>
      (&& r.probeCtx.Some?
       && r.probeCtx.value.becomeMethod == Some("runas")
       && r.probeCtx.value.becomeUser == Some("SYSTEM")
       && r.probeCtx.value.become == Some(true))
  {
    if o.reboot.StepFailed? then
      RebootServerEnd(ctx, None, o.reboot)
    else
      var elevated := Elevate(ctx);
      // whether the probe returns or raises, its exception is swallowed and
      // the finally block restores the saved settings, so `o.probe` is unused
      RebootServerEnd(Restore(elevated, ctx), Some(elevated), o.wait)
  }

  /** The call raises exactly the error RaisedError names. */
  lemma RebootServerRaises(ctx: PlayContext, o: RebootOutcome)
    ensures RebootServer(ctx, o).status.StepFailed? <==> RaisedError(o).Some?
    ensures RaisedError(o).Some? ==> RebootServer(ctx, o).status.msg == RaisedError(o).value
  {
  }
}
