/** The worker's per-cycle result and the values `run` accumulates from it. */
module Aggregation {
  import opened Results
  import Dicts

  type UpdateId = string

  /** The worker's description of one update; the plugin never looks inside. */
  datatype UpdateInfo = UpdateInfo(fields: map<string, string>)

  /** The result of one worker invocation, with the optional entries read
      with their defaults (empty maps, zero counts). */
  datatype CycleResult = CycleResult(
    changed: bool,
    updates: map<UpdateId, UpdateInfo>,
    filteredUpdates: map<UpdateId, UpdateInfo>,
    foundCount: int,
    installedCount: int,
    rebootRequired: bool,
    failed: bool,
    msg: Option<string>)

  /** The local variables `changed`, `updates`, `filtered_updates`,
      `found_update_count` and `installed_update_count` of `run`. */
  datatype Aggregate = Aggregate(
    changed: bool,
    updates: map<UpdateId, UpdateInfo>,
    filteredUpdates: map<UpdateId, UpdateInfo>,
    foundCount: int,
    installedCount: int)

  /** The accumulators as set from the first worker result. */
  function Seed(r: CycleResult): Aggregate {
    Aggregate(r.changed, r.updates, r.filteredUpdates, r.foundCount, r.installedCount)
  }

  /** One more worker result folded into the accumulators. */
  function Absorb(acc: Aggregate, r: CycleResult): Aggregate {
    Aggregate(
      acc.changed || r.changed,
      Dicts.Merge(acc.updates, r.updates),
      Dicts.Merge(acc.filteredUpdates, r.filteredUpdates),
      acc.foundCount + r.foundCount,
      acc.installedCount + r.installedCount)
  }

  // Reference definitions of the aggregate over a sequence of executed cycles.

  function SumFound(ws: seq<CycleResult>): int {
    if |ws| == 0 then 0 else ws[0].foundCount + SumFound(ws[1..])
  }

  function SumInstalled(ws: seq<CycleResult>): int {
    if |ws| == 0 then 0 else ws[0].installedCount + SumInstalled(ws[1..])
  }

  predicate AnyChanged(ws: seq<CycleResult>) {
    exists i :: 0 <= i < |ws| && ws[i].changed
  }

  function UpdatesOf(ws: seq<CycleResult>): seq<map<UpdateId, UpdateInfo>> {
    seq(|ws|, i requires 0 <= i < |ws| => ws[i].updates)
  }

  function FilteredOf(ws: seq<CycleResult>): seq<map<UpdateId, UpdateInfo>> {
    seq(|ws|, i requires 0 <= i < |ws| => ws[i].filteredUpdates)
  }

  /** What the accumulators should hold after the cycles `ws` ran, with
      `rebooted` telling whether any reboot was attempted. */
  function Summary(ws: seq<CycleResult>, rebooted: bool): Aggregate {
    Aggregate(
      AnyChanged(ws) || rebooted,
      Dicts.MergeAll(UpdatesOf(ws)),
      Dicts.MergeAll(FilteredOf(ws)),
      SumFound(ws),
      SumInstalled(ws))
  }

  lemma {:induction false} SumFoundSnoc(ws: seq<CycleResult>, r: CycleResult)
    ensures SumFound(ws + [r]) == SumFound(ws) + r.foundCount
  {
    if |ws| == 0 {
      assert ws + [r] == [r];
    } else {
      assert (ws + [r])[1..] == ws[1..] + [r];
      SumFoundSnoc(ws[1..], r);
    }
  }

  lemma {:induction false} SumInstalledSnoc(ws: seq<CycleResult>, r: CycleResult)
    ensures SumInstalled(ws + [r]) == SumInstalled(ws) + r.installedCount
  {
    if |ws| == 0 {
      assert ws + [r] == [r];
    } else {
      assert (ws + [r])[1..] == ws[1..] + [r];
      SumInstalledSnoc(ws[1..], r);
    }
  }

  /** The first worker result seeds the accumulators with exactly the
      summary of that one cycle. */
  lemma SeedIsSummary(r: CycleResult)
    ensures Seed(r) == Summary([r], false)
  {
    assert UpdatesOf([r]) == [r.updates];
    assert FilteredOf([r]) == [r.filteredUpdates];
    assert [r][1..] == [];
    assert [r.updates][1..] == [];
    assert [r.filteredUpdates][1..] == [];
    Dicts.MergeIdentity(r.updates);
    Dicts.MergeIdentity(r.filteredUpdates);
    assert Dicts.MergeAll([r.updates]) == r.updates;
    assert Dicts.MergeAll([r.filteredUpdates]) == r.filteredUpdates;
    assert SumFound([r]) == r.foundCount;
    assert SumInstalled([r]) == r.installedCount;
    assert AnyChanged([r]) ==> r.changed;
    assert r.changed ==> [r][0].changed;
  }

  /** Absorbing one more result extends the summary by that cycle: counts are
      sums, update maps are last-write-wins unions, `changed` an or. */
  lemma AbsorbExtendsSummary(ws: seq<CycleResult>, r: CycleResult, rebooted: bool)
    ensures Absorb(Summary(ws, rebooted), r) == Summary(ws + [r], rebooted)
  {
    SumFoundSnoc(ws, r);
    SumInstalledSnoc(ws, r);
    assert UpdatesOf(ws + [r]) == UpdatesOf(ws) + [r.updates];
    assert FilteredOf(ws + [r]) == FilteredOf(ws) + [r.filteredUpdates];
    Dicts.MergeAllSnoc(UpdatesOf(ws), r.updates);
    Dicts.MergeAllSnoc(FilteredOf(ws), r.filteredUpdates);
    if AnyChanged(ws + [r]) {
      var i :| 0 <= i < |ws + [r]| && (ws + [r])[i].changed;
      if i < |ws| {
        assert ws[i].changed;
      }
    }
    if AnyChanged(ws) {
      var i :| 0 <= i < |ws| && ws[i].changed;
      assert (ws + [r])[i].changed;
    }
    if r.changed {
      assert (ws + [r])[|ws|].changed;
    }
  }

  /** The result `run` returns: when the task is not asynchronous the
      accumulated values replace the last worker result's own. */
  function Finalise(result: CycleResult, acc: Aggregate, asyncVal: int): (r: CycleResult)
    ensures r.rebootRequired == result.rebootRequired && r.failed == result.failed && r.msg == result.msg
    ensures asyncVal != 0 ==> r == result
    ensures asyncVal == 0 ==> Seed(r) == acc
  {
    if asyncVal == 0 then
      result.(changed := acc.changed, updates := acc.updates, filteredUpdates := acc.filteredUpdates,
              foundCount := acc.foundCount, installedCount := acc.installedCount)
    else result
  }

  /** A single cycle's accumulators, written back, give the result unchanged. */
  lemma FinaliseSeedUnchanged(r: CycleResult, asyncVal: int)
    ensures Finalise(r, Seed(r), asyncVal) == r
  {
  }
}
