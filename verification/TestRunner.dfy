/** The test partition and execution census of scripts/ci/run_python_tests.py. */
module TestRunner {
  import opened Arithmetic
  import opened Text

  type Ids = seq<string>

  /** `ids[start::step]`. */
  function Stride<T>(s: seq<T>, start: nat, step: nat): seq<T>
    requires step > 0
    decreases |s| - start
  {
    if start >= |s| then [] else [s[start]] + Stride(s, start + step, step)
  }

  function Flatten<T>(groups: seq<seq<T>>): seq<T> {
    if groups == [] then [] else Flatten(groups[..|groups| - 1]) + groups[|groups| - 1]
  }

  /** The strided groups of a number of workers. */
  function Groups<T>(s: seq<T>, workers: nat): (groups: seq<seq<T>>)
    requires workers > 0
    ensures |groups| == if workers < |s| then workers else |s|
    ensures forall i :: 0 <= i < |groups| ==> groups[i] == Stride(s, i, workers)
  {
    seq(if workers < |s| then workers else |s|, i requires 0 <= i => Stride(s, i, workers))
  }

  /** `partition`; sorting is compared as what it decides, equal contents. */
  function Partition(ids: Ids, workers: int): Option<seq<Ids>> {
    if !(1 <= workers <= 4) then None
    else
      var groups := Groups(ids, workers);
      var flattened := Flatten(groups);
      if groups == [] || multiset(flattened) != multiset(ids) || |flattened| != |set id | id in flattened| then None
      else Some(groups)
  }

  // --------------------------------------------------------------------------
  // The partition is exact

  /** Whether the stride from `start` meets position `n`. */
  predicate Meets(n: nat, start: nat, step: nat)
    requires step > 0
    decreases n - start
  {
    start == n || (start < n && Meets(n, start + step, step))
  }

  lemma {:induction false} MeetsExact(n: nat, start: nat, step: nat)
    requires step > 0
    ensures Meets(n, start, step) <==> start <= n && n % step == start % step
    decreases n - start
  {
    if start < n {
      MeetsExact(n, start + step, step);
      ModStep(start, step);
      if n % step == start % step { SameResidueApart(n, start, step); }
    }
  }

  lemma SameResidueApart(n: nat, start: nat, step: nat)
    requires step > 0 && start < n && n % step == start % step
    ensures start + step <= n
  {
    var p, q := n / step, start / step;
    if p <= q { Mono(p, q, step); }
    if q < p { Mono(q + 1, p, step); }
    Next(q, step);
  }

  lemma {:induction false} StrideAppend<T>(s: seq<T>, x: T, start: nat, step: nat)
    requires step > 0
    ensures Stride(s + [x], start, step) == Stride(s, start, step) + if Meets(|s|, start, step) then [x] else []
    decreases |s| - start
  {
    if start < |s| {
      StrideAppend(s, x, start + step, step);
      assert (s + [x])[start] == s[start];
    } else if start == |s| {
      assert (s + [x])[start] == x;
      assert Stride(s + [x], start + step, step) == [];
    }
  }

  /** The first `n` strides, one after the other. */
  function Strides<T>(s: seq<T>, step: nat, n: nat): seq<T>
    requires step > 0
  {
    if n == 0 then [] else Strides(s, step, n - 1) + Stride(s, n - 1, step)
  }

  lemma MeetsResidue(n: nat, start: nat, step: nat)
    requires start < step
    ensures Meets(n, start, step) <==> n % step == start
  {
    MeetsExact(n, start, step);
    SmallResidue(start, step);
    ResidueBelow(n, step);
  }

  predicate Gains<T(==)>(after: seq<T>, before: seq<T>, x: T, gained: bool) {
    multiset(after) == multiset(before) + if gained then multiset{x} else multiset{}
  }

  lemma GainsGrow<T>(after: seq<T>, before: seq<T>, x: T, early: bool, here: bool, u: seq<T>, v: seq<T>)
    requires Gains(after, before, x, early) && !(early && here) && u == v + if here then [x] else []
    ensures Gains(after + u, before + v, x, early || here)
  {
  }

  lemma {:induction false} StridesAppend<T>(s: seq<T>, all: seq<T>, x: T, step: nat, n: nat)
    requires 0 < step && n <= step && all == s + [x]
    ensures Gains(Strides(all, step, n), Strides(s, step, n), x, |s| % step < n)
    decreases n
  {
    if n > 0 {
      StridesAppend(s, all, x, step, n - 1);
      StridesAppendStep(s, all, x, step, n);
    } else {
      ResidueBelow(|s|, step);
    }
  }

  lemma StridesAppendStep<T>(s: seq<T>, all: seq<T>, x: T, step: nat, n: nat)
    requires 0 < n <= step && all == s + [x]
    requires Gains(Strides(all, step, n - 1), Strides(s, step, n - 1), x, |s| % step < n - 1)
    ensures Gains(Strides(all, step, n), Strides(s, step, n), x, |s| % step < n)
  {
    var residue := |s| % step;
    StrideAppend(s, x, n - 1, step);
    MeetsResidue(|s|, n - 1, step);
    GainsGrow(Strides(all, step, n - 1), Strides(s, step, n - 1), x, residue < n - 1, residue == n - 1,
              Stride(all, n - 1, step), Stride(s, n - 1, step));
  }

  lemma SmallResidue(s: nat, step: nat)
    requires s < step
    ensures s % step == s
  {
  }

  lemma ResidueBelow(n: nat, step: nat)
    requires step > 0
    ensures n % step <= n && n % step < step
  {
    var q := n / step;
    assert n == q * step + n % step;
    assert q * step >= 0;
  }

  lemma {:induction false} StridesExact<T>(s: seq<T>, step: nat)
    requires step > 0
    ensures multiset(Strides(s, step, step)) == multiset(s)
  {
    if s == [] {
      StridesOfNothing(s, step, step);
    } else {
      var front, x := s[..|s| - 1], s[|s| - 1];
      assert s == front + [x];
      StridesExact(front, step);
      ResidueBelow(|front|, step);
      StridesAppend(front, s, x, step, step);
    }
  }

  lemma {:induction false} StridesOfNothing<T>(s: seq<T>, step: nat, n: nat)
    requires step > 0 && s == []
    ensures Strides(s, step, n) == []
  {
    if n > 0 { StridesOfNothing(s, step, n - 1); }
  }

  lemma {:induction false} FlattenStrides<T>(s: seq<T>, step: nat, groups: seq<seq<T>>)
    requires step > 0 && forall i :: 0 <= i < |groups| ==> groups[i] == Stride(s, i, step)
    ensures Flatten(groups) == Strides(s, step, |groups|)
  {
    if groups != [] { FlattenStrides(s, step, groups[..|groups| - 1]); }
  }

  lemma {:induction false} StridesBeyond<T>(s: seq<T>, step: nat, n: nat)
    requires step > 0 && n >= |s|
    ensures Strides(s, step, n) == Strides(s, step, |s|)
    decreases n
  {
    if n > |s| { StridesBeyond(s, step, n - 1); }
  }

  /** For every positive number of workers the groups hold every entry exactly as often as
      the list does. */
  lemma GroupsExact<T>(s: seq<T>, workers: nat)
    requires workers > 0
    ensures multiset(Flatten(Groups(s, workers))) == multiset(s)
  {
    FlattenStrides(s, workers, Groups(s, workers));
    StridesExact(s, workers);
    if |s| < workers { StridesBeyond(s, workers, workers); }
  }

  lemma {:induction false} StrideLength<T>(s: seq<T>, start: nat, step: nat)
    requires step > 0
    ensures |Stride(s, start, step)| == if start < |s| then (|s| - start - 1) / step + 1 else 0
    decreases |s| - start
  {
    if start < |s| {
      StrideLength(s, start + step, step);
      if start + step < |s| {
        ModStep(|s| - start - step - 1, step);
      } else {
        SmallQuotient(|s| - start - 1, step);
      }
    }
  }

  lemma SmallQuotient(n: nat, step: nat)
    requires n < step
    ensures n / step == 0
  {
  }

  /** The sizes of two groups differ by at most one, the earlier one being the larger. */
  lemma GroupSizes<T>(s: seq<T>, workers: nat, i: nat, j: nat)
    requires workers > 0 && i <= j < |Groups(s, workers)|
    ensures |Groups(s, workers)[j]| <= |Groups(s, workers)[i]| <= |Groups(s, workers)[j]| + 1
    ensures |Groups(s, workers)[j]| > 0
  {
    StrideLength(s, i, workers);
    StrideLength(s, j, workers);
    QuotientsClose(|s| - i - 1, |s| - j - 1, workers);
  }

  lemma {:induction false} DistinctSize<T>(s: seq<T>)
    requires Distinct(s)
    ensures |set x | x in s| == |s|
  {
    var members := set x | x in s;
    if s == [] {
      assert members == {};
    } else {
      var front, x := s[..|s| - 1], s[|s| - 1];
      DistinctSize(front);
      assert s == front + [x];
      assert members == (set y | y in front) + {x};
    }
  }

  lemma SameMembersSize<T>(a: seq<T>, b: seq<T>)
    requires multiset(a) == multiset(b) && Distinct(b)
    ensures |a| == |set x | x in a|
  {
    assert |a| == |multiset(a)| == |multiset(b)| == |b|;
    DistinctSize(b);
    forall x ensures x in a <==> x in b {
      assert x in a <==> x in multiset(a);
      assert x in b <==> x in multiset(b);
    }
    assert (set x | x in a) == (set x | x in b);
  }

  /** The check of the partition never fires: within the limits on workers, every list of
      distinct tests that is not empty is partitioned into its strided groups. */
  lemma PartitionSucceeds(ids: Ids, workers: int)
    requires ids != [] && Distinct(ids)
    ensures Partition(ids, workers) == if 1 <= workers <= 4 then Some(Groups(ids, workers)) else None
  {
    if 1 <= workers <= 4 {
      GroupsExact(ids, workers);
      SameMembersSize(Flatten(Groups(ids, workers)), ids);
    }
  }

  // --------------------------------------------------------------------------
  // The census

  const COUNTS := ["tests_run", "failures", "errors", "skipped", "expected_failures", "unexpected_successes"]

  /** A worker's result; an entry of `counts` that is not a whole number is `None`. */
  datatype Record = Record(keys: set<string>, executed: Ids, counts: map<string, Option<int>>, successful: bool)

  predicate Counted(r: Record, key: string) {
    key in r.counts && r.counts[key].Some? && r.counts[key].value >= 0
  }

  function CountOf(r: Record, key: string): int {
    if Counted(r, key) then r.counts[key].value else 0
  }

  /** `validate_result`. */
  predicate ValidResult(expected: Ids, r: Record) {
    && r.keys == (set key | key in COUNTS) + {"executed", "successful"}
    && r.executed == expected && "tests_run" in r.counts && r.counts["tests_run"] == Some(|expected|)
    && (forall key :: key in COUNTS ==> Counted(r, key))
    && CountOf(r, "skipped") + CountOf(r, "expected_failures") <= CountOf(r, "tests_run")
    && r.successful
    && CountOf(r, "failures") == 0 && CountOf(r, "errors") == 0 && CountOf(r, "unexpected_successes") == 0
  }

  /** What became of a worker: no readable result in time, or an exit code and a result. */
  datatype Outcome = Lost | Finished(code: int, record: Record)

  predicate Succeeded(group: Ids, outcome: Outcome) {
    outcome.Finished? && ValidResult(group, outcome.record) && outcome.code == 0
  }

  /** The names a result must have, and no others. */
  predicate RecordKeys(keys: set<string>) {
    keys == {"executed", "tests_run", "failures", "errors", "skipped", "expected_failures", "unexpected_successes",
             "successful"}
  }

  /** A whole number that is not negative. */
  predicate Count(r: Record, key: string, n: nat) {
    key in r.counts && r.counts[key] == Some(n)
  }

  /** A worker that exited cleanly with a record of exactly its own tests, all of which ran and
      none of which failed. */
  ghost predicate CleanExit(group: Ids, outcome: Outcome) {
    && outcome.Finished? && outcome.code == 0 && outcome.record.successful
    && RecordKeys(outcome.record.keys) && outcome.record.executed == group
    && Count(outcome.record, "tests_run", |group|)
    && Count(outcome.record, "failures", 0) && Count(outcome.record, "errors", 0)
    && Count(outcome.record, "unexpected_successes", 0)
    && exists skipped: nat, expected: nat :: Excused(outcome.record, skipped, expected, |group|)
  }

  predicate Excused(r: Record, skipped: nat, expected: nat, ran: nat) {
    Count(r, "skipped", skipped) && Count(r, "expected_failures", expected) && skipped + expected <= ran
  }

  lemma KeysExact(keys: set<string>)
    ensures RecordKeys(keys) <==> keys == (set key | key in COUNTS) + {"executed", "successful"}
  {
    assert forall key :: key in COUNTS <==>
      key in {"tests_run", "failures", "errors", "skipped", "expected_failures", "unexpected_successes"};
    assert (set key | key in COUNTS) ==
      {"tests_run", "failures", "errors", "skipped", "expected_failures", "unexpected_successes"};
  }

  lemma CleanSucceeds(group: Ids, outcome: Outcome)
    requires CleanExit(group, outcome)
    ensures Succeeded(group, outcome)
  {
    var r := outcome.record;
    KeysExact(r.keys);
    var skipped: nat, expected: nat :| Excused(r, skipped, expected, |group|);
    forall key | key in COUNTS ensures Counted(r, key) {
      CountNames(key);
    }
  }

  lemma CountNames(key: string)
    requires key in COUNTS
    ensures key in {"tests_run", "failures", "errors", "skipped", "expected_failures", "unexpected_successes"}
  {
  }

  lemma NamesCounted()
    ensures "tests_run" in COUNTS && "failures" in COUNTS && "errors" in COUNTS && "skipped" in COUNTS
    ensures "expected_failures" in COUNTS && "unexpected_successes" in COUNTS
  {
    assert COUNTS[0] == "tests_run" && COUNTS[1] == "failures" && COUNTS[2] == "errors";
    assert COUNTS[3] == "skipped" && COUNTS[4] == "expected_failures" && COUNTS[5] == "unexpected_successes";
  }

  lemma CountedAs(r: Record, key: string)
    requires Counted(r, key)
    ensures Count(r, key, CountOf(r, key))
  {
  }

  lemma SucceedsClean(group: Ids, outcome: Outcome)
    requires Succeeded(group, outcome)
    ensures CleanExit(group, outcome)
  {
    var r := outcome.record;
    KeysExact(r.keys);
    NamesCounted();
    CountedAs(r, "failures");
    CountedAs(r, "errors");
    CountedAs(r, "unexpected_successes");
    CountedAs(r, "skipped");
    CountedAs(r, "expected_failures");
    assert Excused(r, CountOf(r, "skipped"), CountOf(r, "expected_failures"), |group|);
  }

  /** A worker counts as successful exactly when it exited cleanly. */
  lemma SucceededExact(group: Ids, outcome: Outcome)
    ensures Succeeded(group, outcome) <==> CleanExit(group, outcome)
  {
    if Succeeded(group, outcome) { SucceedsClean(group, outcome); }
    if CleanExit(group, outcome) { CleanSucceeds(group, outcome); }
  }

  /** The sum of one count over the workers that succeeded. */
  function Total(groups: seq<Ids>, outcomes: seq<Outcome>, key: string): int
    requires |groups| == |outcomes|
  {
    if groups == [] then 0
    else
      var last := |groups| - 1;
      Total(groups[..last], outcomes[..last], key)
      + if Succeeded(groups[last], outcomes[last]) then CountOf(outcomes[last].record, key) else 0
  }

  predicate AllSucceeded(groups: seq<Ids>, outcomes: seq<Outcome>)
    requires |groups| == |outcomes|
  {
    groups == [] ||
    (AllSucceeded(groups[..|groups| - 1], outcomes[..|groups| - 1])
      && Succeeded(groups[|groups| - 1], outcomes[|groups| - 1]))
  }

  predicate AllStopped(cleanups: seq<bool>) {
    false !in cleanups
  }

  /** `totals[key] += record[key]` for every key. */
  method AddCounts(totals: map<string, int>, record: Record, keys: seq<string>) returns (sums: map<string, int>)
    requires Distinct(keys) && forall key :: key in keys ==> key in totals && Counted(record, key)
    ensures sums.Keys == totals.Keys
    ensures forall key :: key in totals ==> sums[key] == totals[key] + if key in keys then CountOf(record, key) else 0
  {
    sums := totals;
    for k := 0 to |keys|
      invariant sums.Keys == totals.Keys
      invariant forall key :: key in totals ==>
        sums[key] == totals[key] + if key in keys[..k] then CountOf(record, key) else 0
    {
      assert keys[..k + 1] == keys[..k] + [keys[k]];
      assert keys[k] !in keys[..k];
      sums := sums[keys[k] := sums[keys[k]] + record.counts[keys[k]].value];
    }
    assert keys[..|keys|] == keys;
  }

  predicate Totalled(totals: map<string, int>, groups: seq<Ids>, outcomes: seq<Outcome>)
    requires |groups| == |outcomes|
  {
    forall key :: key in totals ==> totals[key] == Total(groups, outcomes, key)
  }

  /** The worker loop of `run`: totals over the valid results, and whether anything failed. */
  method Collect(groups: seq<Ids>, outcomes: seq<Outcome>) returns (totals: map<string, int>, failed: bool)
    requires |groups| == |outcomes|
    ensures totals.Keys == (set key | key in COUNTS) && Totalled(totals, groups, outcomes)
    ensures failed <==> !AllSucceeded(groups, outcomes)
  {
    totals := map key | key in COUNTS :: 0;
    failed := false;
    CountsDistinct();
    for i := 0 to |groups|
      invariant totals.Keys == (set key | key in COUNTS) && Totalled(totals, groups[..i], outcomes[..i])
      invariant failed <==> !AllSucceeded(groups[..i], outcomes[..i])
    {
      assert groups[..i + 1][..i] == groups[..i] && outcomes[..i + 1][..i] == outcomes[..i];
      if outcomes[i].Finished? && ValidResult(groups[i], outcomes[i].record) && outcomes[i].code == 0 {
        totals := AddCounts(totals, outcomes[i].record, COUNTS);
      } else {
        failed := true;
      }
    }
    assert groups[..|groups|] == groups && outcomes[..|outcomes|] == outcomes;
  }

  lemma CountsDistinct()
    ensures Distinct(COUNTS)
  {
    var lengths := [9, 8, 6, 7, 17, 20];
    assert forall i :: 0 <= i < |COUNTS| ==> |COUNTS[i]| == lengths[i];
  }

  /** What `run` reports: discovery or partition refused, the inventory failed, or passed. */
  datatype Report = Refused | Failed | Passed(discovered: nat, workers: nat, totals: map<string, int>)

  /** The cleanup loop of `run`. */
  method StopAll(cleanups: seq<bool>, failedBefore: bool) returns (failed: bool)
    ensures failed <==> failedBefore || !AllStopped(cleanups)
  {
    failed := failedBefore;
    for i := 0 to |cleanups|
      invariant failed <==> failedBefore || !AllStopped(cleanups[..i])
    {
      assert cleanups[..i + 1] == cleanups[..i] + [cleanups[i]];
      if !cleanups[i] { failed := true; }
    }
    assert cleanups[..|cleanups|] == cleanups;
  }

  /** `run`, given what became of each worker and whether each was stopped. */
  method Run(ids: Ids, workers: int, outcomes: seq<Outcome>, cleanups: seq<bool>) returns (r: Report)
    requires workers > 0 ==> |outcomes| == |cleanups| == |Groups(ids, workers)|
    ensures r == Refused <==> ids == [] || !Distinct(ids) || !(1 <= workers <= 4)
    ensures r.Passed? <==>
      && ids != [] && Distinct(ids) && 1 <= workers <= 4
      && AllSucceeded(Groups(ids, workers), outcomes) && AllStopped(cleanups)
    ensures r.Passed? ==>
      r.discovered == |ids| && r.workers == |Groups(ids, workers)| && r.totals.Keys == (set key | key in COUNTS)
    ensures r.Passed? ==> Totalled(r.totals, Groups(ids, workers), outcomes)
    ensures r.Passed? ==> Clean(Groups(ids, workers), outcomes, |ids|)
  {
    if ids == [] || !Distinct(ids) { return Refused; }
    PartitionSucceeds(ids, workers);
    var partition := Partition(ids, workers);
    if partition.None? { return Refused; }
    var groups := partition.value;
    var totals, failed := Collect(groups, outcomes);
    failed := StopAll(cleanups, failed);
    if AllSucceeded(groups, outcomes) {
      CensusAddsUp(ids, workers, outcomes);
      NothingFailed(groups, outcomes);
    }
    if failed || totals["tests_run"] != |ids| { return Failed; }
    r := Passed(|ids|, |groups|, totals);
  }

  lemma {:induction false} TotalRun(groups: seq<Ids>, outcomes: seq<Outcome>)
    requires |groups| == |outcomes| && AllSucceeded(groups, outcomes)
    ensures Total(groups, outcomes, "tests_run") == |Flatten(groups)|
  {
    if groups != [] {
      var last := |groups| - 1;
      TotalRun(groups[..last], outcomes[..last]);
    }
  }

  /** The last comparison of `run` is implied by the others: when every worker succeeded the
      totals count every discovered test. */
  lemma CensusAddsUp(ids: Ids, workers: int, outcomes: seq<Outcome>)
    requires workers > 0 && |Groups(ids, workers)| == |outcomes| && AllSucceeded(Groups(ids, workers), outcomes)
    ensures Total(Groups(ids, workers), outcomes, "tests_run") == |ids|
  {
    TotalRun(Groups(ids, workers), outcomes);
    GroupsExact(ids, workers);
    assert |Flatten(Groups(ids, workers))| == |multiset(Flatten(Groups(ids, workers)))| == |multiset(ids)|;
  }

  /** No test failed, broke, or passed against expectation, and of all tests that ran no more
      were skipped or failed as expected than there are. */
  predicate Clean(groups: seq<Ids>, outcomes: seq<Outcome>, ran: nat)
    requires |groups| == |outcomes|
  {
    && Total(groups, outcomes, "failures") == 0 && Total(groups, outcomes, "errors") == 0
    && Total(groups, outcomes, "unexpected_successes") == 0 && Total(groups, outcomes, "tests_run") == ran
    && 0 <= Total(groups, outcomes, "skipped") + Total(groups, outcomes, "expected_failures") <= ran
  }

  lemma {:induction false} NothingFailed(groups: seq<Ids>, outcomes: seq<Outcome>)
    requires |groups| == |outcomes| && AllSucceeded(groups, outcomes)
    ensures Clean(groups, outcomes, |Flatten(groups)|)
  {
    if groups != [] {
      var last := |groups| - 1;
      NothingFailed(groups[..last], outcomes[..last]);
      CleanRecord(groups[last], outcomes[last].record);
    }
  }

  lemma CleanRecord(expected: Ids, r: Record)
    requires ValidResult(expected, r)
    ensures CountOf(r, "failures") == 0 && CountOf(r, "errors") == 0 && CountOf(r, "unexpected_successes") == 0
    ensures 0 <= CountOf(r, "skipped") + CountOf(r, "expected_failures") <= CountOf(r, "tests_run") == |expected|
  {
  }

  /** Everything the workers executed, worker by worker. */
  function Executed(outcomes: seq<Outcome>): Ids {
    if outcomes == [] then []
    else
      var last := outcomes[|outcomes| - 1];
      Executed(outcomes[..|outcomes| - 1]) + if last.Finished? then last.record.executed else []
  }

  lemma {:induction false} ExecutedGroups(groups: seq<Ids>, outcomes: seq<Outcome>)
    requires |groups| == |outcomes| && AllSucceeded(groups, outcomes)
    ensures Executed(outcomes) == Flatten(groups)
  {
    if groups != [] {
      var last := |groups| - 1;
      ExecutedGroups(groups[..last], outcomes[..last]);
    }
  }

  /** A pass means that every discovered test was executed exactly once across the workers,
      and nothing else was. */
  lemma PassExecutesOnce(ids: Ids, workers: int, outcomes: seq<Outcome>, id: string)
    requires Distinct(ids) && workers > 0
    requires |Groups(ids, workers)| == |outcomes| && AllSucceeded(Groups(ids, workers), outcomes)
    ensures multiset(Executed(outcomes))[id] == if id in ids then 1 else 0
  {
    ExecutedGroups(Groups(ids, workers), outcomes);
    GroupsExact(ids, workers);
    CountOnce(ids, id);
  }

  lemma {:induction false} CountOnce<T>(s: seq<T>, x: T)
    requires Distinct(s)
    ensures multiset(s)[x] == if x in s then 1 else 0
  {
    if s != [] {
      assert s == s[..|s| - 1] + [s[|s| - 1]];
      CountOnce(s[..|s| - 1], x);
    }
  }
}
