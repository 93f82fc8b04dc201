/** The option checks at the top of the plugin's `run`, in source order. */
module Validation {
  import opened Results
  import Categories

  const DefaultState := "installed"
  const DefaultRebootTimeout := 1200

  const StateMessage := "state must be either installed or searched"
  const RebootParsePrefix := "cannot parse reboot as a boolean: "
  const TimeoutMessage := "reboot_timeout must be an integer"
  const AsyncMessage := "async is not supported for this task when reboot=yes"

  /** What Ansible's `boolean()` made of the `reboot` argument (or of its
      default `False` when absent): a boolean, or the text of its TypeError. */
  datatype BoolParse = Parsed(value: bool) | Unparsable(error: string)

  /** The `reboot_timeout` argument: a Python int or any other value. */
  datatype TimeoutArg = IntTimeout(seconds: int) | NonIntTimeout

  /** The task arguments the plugin reads before running the worker. */
  datatype TaskArgs = TaskArgs(
    categoryNames: Option<Categories.CategoryArg>,
    state: Option<string>,
    reboot: BoolParse,
    rebootTimeout: Option<TimeoutArg>)

  /** The options the rest of `run` uses once validation has passed. */
  datatype Options = Options(state: string, reboot: bool, rebootTimeout: int)

  function StateOf(args: TaskArgs): string {
    args.state.GetOr(DefaultState)
  }

  function TimeoutOf(args: TaskArgs): TimeoutArg {
    args.rebootTimeout.GetOr(IntTimeout(DefaultRebootTimeout))
  }

  /** `_validate_categories` on the names the arguments stand for. */
  function CategoriesCheck(args: TaskArgs): Outcome {
    Categories.CheckCategories(Categories.CategoryNames(args.categoryNames))
  }

  predicate ValidState(state: string) {
    state == "installed" || state == "searched"
  }

  /** The options are accepted iff every single check passes. */
  predicate Acceptable(args: TaskArgs, asyncVal: int) {
    && CategoriesCheck(args).Pass?
    && ValidState(StateOf(args))
    && args.reboot.Parsed?
    && TimeoutOf(args).IntTimeout?
    && !(args.reboot.value && asyncVal > 0)
  }

  /** The validation block of `run`: the first failing check decides the
      message of the failed result; otherwise the parsed options. */
  function Validate(args: TaskArgs, asyncVal: int): (r: Result<Options>)
    ensures r.Ok? <==> Acceptable(args, asyncVal)
    ensures r.Ok? ==>
      (&& r.value.state == StateOf(args)
       && r.value.reboot == args.reboot.value
       && TimeoutOf(args) == IntTimeout(r.value.rebootTimeout))
    ensures r.Ok? && asyncVal > 0 ==> !r.value.reboot
    // the checks in order: each message is chosen only when all earlier checks passed
    ensures CategoriesCheck(args).Fail? ==> r == Err(CategoriesCheck(args).msg)
    ensures CategoriesCheck(args).Pass? && !ValidState(StateOf(args)) ==> r == Err(StateMessage)
    ensures (&& CategoriesCheck(args).Pass? && ValidState(StateOf(args))
             && args.reboot.Unparsable?)
      ==> r == Err(RebootParsePrefix + args.reboot.error)
    ensures (&& CategoriesCheck(args).Pass? && ValidState(StateOf(args))
             && args.reboot.Parsed? && TimeoutOf(args).NonIntTimeout?)
      ==> r == Err(TimeoutMessage)
    ensures (&& CategoriesCheck(args).Pass? && ValidState(StateOf(args))
             && args.reboot.Parsed? && TimeoutOf(args).IntTimeout?
             && args.reboot.value && asyncVal > 0)
      ==> r == Err(AsyncMessage)
  {
    var cats := CategoriesCheck(args);
    if cats.Fail? then Err(cats.msg)
    else if !ValidState(StateOf(args)) then Err(StateMessage)
    else if args.reboot.Unparsable? then Err(RebootParsePrefix + args.reboot.error)
    else if TimeoutOf(args).NonIntTimeout? then Err(TimeoutMessage)
    else if args.reboot.value && asyncVal > 0 then Err(AsyncMessage)
    else Ok(Options(StateOf(args), args.reboot.value, TimeoutOf(args).seconds))
  }

  /** With every argument left out the task validates: default categories,
      state `installed`, no reboot, the default timeout. */
  lemma DefaultsAccepted(asyncVal: int)
    ensures Validate(TaskArgs(None, None, Parsed(false), None), asyncVal)
      == Ok(Options("installed", false, 1200))
  {
    Categories.DefaultCategoriesValid();
  }

  /** Asking for a reboot on an asynchronous task is refused, whatever the
      timeout, once the earlier checks pass. */
  lemma AsyncRebootRefused(args: TaskArgs, asyncVal: int)
    requires args.categoryNames.None? && args.state.None? && args.rebootTimeout.None?
    requires args.reboot == Parsed(true) && asyncVal > 0
    ensures Validate(args, asyncVal) == Err(AsyncMessage)
  {
    Categories.DefaultCategoriesValid();
  }
}
