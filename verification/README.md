# win_updates action plugin — a Dafny model of its control logic

This project models the control logic of Ansible's `win_updates` action
plugin (`lib/ansible/plugins/action/win_updates.py`), which drives the
`win_updates` worker module on a Windows host. The model covers:

- **Option validation.** This is `_validate_categories` plus the ordered
  checks at the top of `run`. The first failing check produces a failed
  result and the worker is never invoked.
- **Result merge.** `_merge_dict` is a right-biased map union.
- **The reboot-aware loop in `run`.** The loop is entered only when
  `reboot`, `state == installed` and no check mode all hold. It continues
  while the current result shows found or installed updates or a pending
  reboot. A one-bit `previously_errored` guard stops it on the second
  failure in a row. It reboots exactly when `reboot_required` is set, and
  aborts with a composed message when the reboot fails. Along the way it
  sums the counts, merges the update maps and keeps a monotone `changed`
  flag. The aggregate is written back only when `async_val == 0`.
- **`_reboot_server`.** The reboot is followed by the busy probe, which
  runs under an elevated play context. The probe's exception is swallowed
  and the `finally` block restores the caller's `become`, `become_method`
  and `become_user`. The wait for the connection comes last.

Remote calls are not executed. The worker's results, and the outcomes of
the reboot, the probe and the connection wait, are inputs given as finite
sequences. The loop consumes them in order. When a sequence runs out while
the loop still wants an element, the model ends with an explicit
`OutOfWorkerResults` / `OutOfRebootOutcomes` stop, shown as `Exhausted` at
the top level. The source's loop has no bound.

Modules: `Results` (Option/Result/Outcome), `Dicts` (`_merge_dict`),
`Categories` (category argument and `_validate_categories`), `Validation`
(the checks in `run`), `Become` (`_reboot_server`), `Aggregation` (cycle
results and accumulators), `RebootLoop` (the `while` loop), `WinUpdates`
(`run` end to end).

Two consequences of the code are easy to miss:

- The message "A reboot is required before more updates can be installed"
  does **not** trigger a reboot. It only selects the reason text quoted if
  the reboot fails (lines 216-224). A reboot happens only when
  `reboot_required` is set.
- A run whose first result finds 5 updates and requires a reboot, and whose
  second result installs those 5, needs a third worker call. The loop
  condition on line 199 sees `installed_update_count > 0` in the second
  result, so the loop runs again. `FoundRebootInstallExample` proves both
  halves of this.

The user test on line 82, `orig_become_user is None or 'root'`, is always
true because a non-empty string literal is truthy. It is modelled as
written, with Python truthiness: during the probe `become_user` is always
`SYSTEM`, whatever it was before. The original value is still restored
afterwards.

## Model

| member | source | states |
|---|---|---|
| Dicts.Merge | lib/ansible/plugins/action/win_updates.py:127-130 | the merged dictionary has the keys of both arguments; the new dictionary's value wins on a shared key, and the original's value is kept on the others |
| Dicts.MergeIsRightBiasedUnion | lib/ansible/plugins/action/win_updates.py:127-130 | the merge is the only map that is the right-biased union of the two arguments (both directions) |
| Dicts.MergeIdentity | lib/ansible/plugins/action/win_updates.py:190-191 | merging with the empty default dictionary, on either side, gives back the other dictionary |
| Dicts.MergeAssociative | lib/ansible/plugins/action/win_updates.py:241-243 | merging cycle by cycle from the left agrees with any other grouping of the same merges |
| Dicts.MergeAllSnoc | lib/ansible/plugins/action/win_updates.py:239-243 | folding one more cycle's map into the union of the earlier ones is one merge |
| Dicts.MergeAllLastWins | lib/ansible/plugins/action/win_updates.py:239-243 | a key is in the accumulated union iff some cycle reported it, and its value comes from the last cycle that reported it |
| Categories.SplitOn | lib/ansible/plugins/action/win_updates.py:144-145 | splitting a comma-separated string always yields at least one piece, and no piece contains a comma |
| Categories.JoinSplit | lib/ansible/plugins/action/win_updates.py:144-145 | rejoining the pieces with commas gives back the original string |
| Categories.SplitJoin | lib/ansible/plugins/action/win_updates.py:144-145 | splitting comma-joined names that contain no comma gives back exactly those names |
| Categories.TrimStart | lib/ansible/plugins/action/win_updates.py:145 | the result is a suffix of the input, every character dropped is in the stripped set, and the result does not start with one of them |
| Categories.TrimEnd | lib/ansible/plugins/action/win_updates.py:145 | the result is a prefix of the input, every character dropped is in the stripped set, and the result does not end with one of them |
| Categories.Strip | lib/ansible/plugins/action/win_updates.py:145 | a stripped piece is no longer than the input and has no stripped character (Python whitespace, for the set `Whitespace`) at either end |
| Categories.StripIsSlice | lib/ansible/plugins/action/win_updates.py:145 | a stripped piece is the contiguous slice of the input that remains after removing a run of leading and a run of trailing whitespace |
| Categories.StripKeepsTrimmed | lib/ansible/plugins/action/win_updates.py:145 | a name without outer whitespace is left unchanged by the strip |
| Categories.StripAll | lib/ansible/plugins/action/win_updates.py:145 | the comprehension yields one name per split piece: exactly the slice of that piece left once its leading and trailing whitespace is removed, so none has whitespace at either end, each is made only of its piece's characters, and a piece already without outer whitespace is kept as it is |
| Categories.StripFindsSlice | lib/ansible/plugins/action/win_updates.py:145 | `strip()` of a text that is a name with no outer whitespace surrounded only by whitespace gives exactly that name |
| Categories.StripAllKeepsTrimmed | lib/ansible/plugins/action/win_updates.py:145 | when no split piece has whitespace at either end, the comprehension gives back the pieces unchanged |
| Categories.YamlTextRoundTrip | lib/ansible/plugins/action/win_updates.py:139-145 | through `CategoryNames`, the reading of `category_names` on lines 139-145, a YAML string of comma-separated names without outer whitespace stands for exactly those names |
| Categories.YamlTextPaddedRoundTrip | lib/ansible/plugins/action/win_updates.py:139-145 | a YAML string of comma-separated names with whitespace around them, such as "CriticalUpdates, SecurityUpdates", stands for exactly the names without that whitespace |
| Categories.MessageListsEveryCategory | lib/ansible/plugins/action/win_updates.py:24-41 | the list that `UnknownCategoryMessage` (lines 40-41) joins into the unknown-category message holds all 12 valid category names, in order, and each can be recovered from it |
| Categories.FirstUnknownIndex | lib/ansible/plugins/action/win_updates.py:38-41 | for names not all in the valid list, the index found is the first name outside it: every earlier name is valid |
| Categories.CheckCategories | lib/ansible/plugins/action/win_updates.py:23-41 | validation passes iff every name is one of the 12 valid categories; otherwise the message names the first unknown name |
| Categories.DefaultCategoriesValid | lib/ansible/plugins/action/win_updates.py:139-143 | when `category_names` is absent, `CategoryNames` gives the defaults, and the defaults CriticalUpdates, SecurityUpdates and UpdateRollups pass validation |
| Categories.PlainTextRefused | lib/ansible/plugins/action/win_updates.py:38-41 | a `category_names` given as a plain (non-YAML) string is read by `CategoryNames` and iterated character by character, so "Updates" is refused as unknown name "U" |
| Validation.Validate | lib/ansible/plugins/action/win_updates.py:152-181 | options are accepted iff every check passes; otherwise the message comes from the first failing check, in the order categories, state, reboot parse, integer timeout, reboot with a positive async value; an accepted reboot is never combined with a positive async value |
| Validation.DefaultsAccepted | lib/ansible/plugins/action/win_updates.py:139-150 | with no arguments given, the task validates with state installed, no reboot and timeout 1200 |
| Validation.AsyncRebootRefused | lib/ansible/plugins/action/win_updates.py:177-181 | asking for a reboot on an asynchronous task is refused with the async message |
| Become.Elevate | lib/ansible/plugins/action/win_updates.py:75-83 | the busy probe always runs with become on, method runas and user SYSTEM, because the test on line 82 is always true |
| Become.RebootServer | lib/ansible/plugins/action/win_updates.py:51-104 | afterwards the play context equals the context before the call, whether the probe returned or raised; the call fails iff the reboot or the connection wait fails, with the first failing step's message; a failed reboot skips the probe; otherwise the probe ran elevated |
| Aggregation.SumFoundSnoc | lib/ansible/plugins/action/win_updates.py:244 | the found-count sum over one more cycle adds that cycle's count |
| Aggregation.SumInstalledSnoc | lib/ansible/plugins/action/win_updates.py:245 | the installed-count sum over one more cycle adds that cycle's count |
| Aggregation.SeedIsSummary | lib/ansible/plugins/action/win_updates.py:189-193 | `Seed`, the accumulators taken from the first result on lines 189-193, is the summary of that single cycle |
| Aggregation.AbsorbExtendsSummary | lib/ansible/plugins/action/win_updates.py:239-247 | `Absorb`, folding one more worker result into the accumulators as lines 239-247 do, gives the summary of all cycles so far: summed counts, last-write-wins update maps, and `changed` as an or |
| Aggregation.Finalise | lib/ansible/plugins/action/win_updates.py:249-256 | with async_val 0 the returned result carries the accumulated values; with any other async value it is the last result unmodified; `reboot_required`, `failed` and `msg` always stay the result's own |
| Aggregation.FinaliseSeedUnchanged | lib/ansible/plugins/action/win_updates.py:189-193 | writing back the accumulators of a single cycle leaves that cycle's result unchanged |
| RebootLoop.RebootReason | lib/ansible/plugins/action/win_updates.py:214-224 | the reason is "reboot was required before more updates can be installed" iff the result's message is the exact sentinel; otherwise it is "reboot was required to finalise update install" |
| RebootLoop.Iterate | lib/ansible/plugins/action/win_updates.py:199-233 | one loop pass stops iff the loop condition (`MoreWork`, lines 199-201: found or installed updates, or a pending reboot) is false, or this is the second failure in a row, or the reboot fails; a reboot is attempted iff the loop continues and the result requires one; an attempted reboot sets changed; a failed reboot reports the result's reason and the reboot's error; the play context is unchanged |
| RebootLoop.Loop | lib/ansible/plugins/action/win_updates.py:196-247 | the loop consumes worker results and reboot outcomes in order, and it ends with the play context it started with |
| RebootLoop.LoopAccumulates | lib/ansible/plugins/action/win_updates.py:239-247 | at loop exit the counts are sums over the cycles run, the update maps are their last-write-wins unions, and changed holds iff some cycle changed something or a reboot was attempted |
| RebootLoop.LoopStopReason | lib/ansible/plugins/action/win_updates.py:199-233 | the loop stops normally only on a result with no work; on a repeated failure only after two failed results in a row, the last one reporting work; it runs out of worker results only while the last one still reports work, and out of reboot outcomes only on a result that required a reboot |
| RebootLoop.LoopRebootFailure | lib/ansible/plugins/action/win_updates.py:214-233 | the loop stops on a failed reboot only for a result that reported work and required the reboot; the reason reported is that result's, the error is the failed reboot's, and `changed` is already set |
| RebootLoop.LoopContinuedThrough | lib/ansible/plugins/action/win_updates.py:199-212 | every result examined before the last one reported work and was not the second of two failures in a row |
| RebootLoop.LoopRebootCount | lib/ansible/plugins/action/win_updates.py:214-227 | the number of reboots attempted equals the number of examined results with reboot_required; the last result is counted exactly when the loop reached its reboot (stopped settled, on a failed reboot, or after rebooting) |
| WinUpdates.ModuleArgs | lib/ansible/plugins/action/win_updates.py:184-186 | the worker receives every task argument except reboot and reboot_timeout, with its value unchanged |
| WinUpdates.Run | lib/ansible/plugins/action/win_updates.py:132-258 | the task is rejected iff validation fails, with its message, and then no worker call is made; outside reboot mode (`LoopMode`, lines 196-197: reboot, state installed, no check mode) exactly one worker call is made and its result is returned as is; the play context is unchanged at the end |
| WinUpdates.FirstLoopEntry | lib/ansible/plugins/action/win_updates.py:189-198 | the loop starts with the guard cleared and the accumulators summarising the first result |
| WinUpdates.RunAggregates | lib/ansible/plugins/action/win_updates.py:189-256 | with async_val 0 the returned counts are the sums over all worker calls made, the update maps their last-write-wins union, and changed is set iff a call changed something or a reboot was attempted |
| WinUpdates.QuietFirstResult | lib/ansible/plugins/action/win_updates.py:196-201 | a first result with zero counts and no reboot_required means one worker call and no reboot |
| WinUpdates.AsyncReturnsRawResult | lib/ansible/plugins/action/win_updates.py:177-181 | with a positive async value, validation excludes reboot mode, and the single raw worker result is returned unmodified |
| WinUpdates.RunRebootsMatchRequests | lib/ansible/plugins/action/win_updates.py:199-247 | a successful reboot-mode run ends on a result with no work; every earlier result had work; it rebooted once for each result that required a reboot |
| WinUpdates.TwoFailuresInARow | lib/ansible/plugins/action/win_updates.py:205-212 | the first two results failing in a row, with no reboot requested, stop the loop after two worker calls, and the second failed result is returned with the aggregates of both |
| WinUpdates.FailureThenSuccessContinues | lib/ansible/plugins/action/win_updates.py:207-212 | a failure, then a success, then a failure does not stop the loop: the guard was reset |
| WinUpdates.RebootFailureAborts | lib/ansible/plugins/action/win_updates.py:225-233 | when the reboot for the first result fails: one worker call, one reboot attempt, and a failed result with "Failed to reboot remote host when <reason>: <error>"; changed is already true |
| WinUpdates.RunRebootFailure | lib/ansible/plugins/action/win_updates.py:214-256 | through `LoopOutput`, which builds the returned result on lines 228-233 and 249-258: whenever a reboot fails, in any cycle, `run` makes no further worker call and returns the result that required the reboot, marked failed, with `RebootFailureMessage` (lines 230-232) "Failed to reboot remote host when <reason>: <error>" naming that result's reason and the reboot's error; unchanged otherwise when asynchronous, with changed set when not; the play context is restored |
| WinUpdates.RunRepeatedFailure | lib/ansible/plugins/action/win_updates.py:199-256 | through `LoopOutput` (lines 228-233 and 249-258): whenever the loop stops on a repeated failure, the last two results examined both failed, no earlier pair did, every earlier result reported work, and the second failed result is returned still failed with its own message: as it is when asynchronous, carrying the aggregates over every call made when not |
| WinUpdates.SentinelAloneDoesNotReboot | lib/ansible/plugins/action/win_updates.py:214-224 | the sentinel message without reboot_required causes no reboot |
| WinUpdates.FoundRebootInstallExample | lib/ansible/plugins/action/win_updates.py:196-247 | found 5 with a reboot, then installed 5, needs a third, quiet worker call and returns found 5, installed 5, changed; with only two results the loop still wants a third |

## Left out

- Remote execution: `_execute_module`, `_run_win_updates`, `_run_action_plugin` and the action-loader lookup are not modelled. Their results are the input sequences of worker results and reboot outcomes.
- The real `win_reboot`, `wait_for_connection` and `win_shell` calls are not modelled. Each is reduced to a success/failure step result, and the probe to returned/raised.
- `reboot_timeout` is only checked to be an integer. It is passed through and has no modelled effect.
- Logging through `display` and `json.dumps` is diagnostics only and is left out.
- `boolean()` on `reboot` is not part of this model. Its outcome is an input: a parsed boolean, or the text of its TypeError.
- Missing keys are not modelled. The source indexes `changed`, `installed_update_count`, `found_update_count` and `reboot_required` directly and would raise KeyError on a result without them. Every worker result here carries all fields, with the optional ones at their defaults.
- `reboot_required` is a boolean here. The source's `is True` test in the loop condition and its truthiness test in the body differ only for non-boolean values.
- `result.pop('msg', None)` on line 235 is not a separate step. The result is replaced by the next worker result straight after, so the pop has no observable effect.
- On a rejected task only the failure message is modelled. The other keys of the base result from `ActionBase.run` are not.
- Exceptions other than `AnsibleError` (from the worker or the plugin loader) are not modelled, and neither is a `category_names` of a non-iterable type.
- The async/fire-and-forget execution mechanics beyond the two `async_val` tests are left out.
- Play-context fields other than `become`, `become_method` and `become_user` are not modelled; the plugin does not touch them.
- WinUpdates.ModuleArgs: Run does not pass these arguments anywhere. The worker results given to Run stand for the results of calls made with them, so the model cannot relate a result to its arguments.
- RebootLoop.Loop: its own contract states only the bounds and the restored play context. Its other properties are proved by the lemmas `LoopAccumulates`, `LoopStopReason`, `LoopRebootFailure`, `LoopContinuedThrough` and `LoopRebootCount`.
