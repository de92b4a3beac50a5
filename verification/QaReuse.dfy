/**
 The QA runner's loop over its stages, and the record that lets a later run skip a stage that passed.

 What a run meets is given to it: the tree it starts from, what each stage does when it is run, the
 tree it leaves, and whether its record could be written. A tree is known by its fingerprint, which
 is empty when the tree cannot be described; `hash` makes a stage's fingerprint from it.
 */
module QaReuse {
  import opened Sequences
  datatype Stage = Stage(key: string, command: seq<string>, env: map<string, string>, precondition: bool)

  datatype Status = Passed | Failed | Incomplete | Reused | Skipped

  datatype Outcome = Outcome(key: string, status: Status)

  type Hash = (Stage, string) -> string
  type Record = map<string, string>

  const NEVER_REUSED := {"plugin-package", "target-package", "provider-live", "provider-direct"}

  const EXIT_OK := 0
  const EXIT_FAILED := 1
  const EXIT_INCOMPLETE := 2

  function Fingerprint(stage: Stage, tree: string, hash: Hash): string {
    if tree == "" then "" else hash(stage, tree)
  }

  predicate DistinctKeys(stages: seq<Stage>) {
    forall i, j :: 0 <= i < j < |stages| ==> stages[i].key != stages[j].key
  }

  predicate HasKey(stages: seq<Stage>, key: string) {
    exists i :: 0 <= i < |stages| && stages[i].key == key
  }

  /** The stages whose key no earlier stage has. */
  function Deduped(stages: seq<Stage>): seq<Stage> {
    if stages == [] then []
    else
      var before, last := stages[..|stages| - 1], stages[|stages| - 1];
      Deduped(before) + if HasKey(before, last.key) then [] else [last]
  }

  lemma HasKeyPush(a: seq<Stage>, s: Stage)
    ensures forall key :: HasKey(a + [s], key) <==> HasKey(a, key) || s.key == key
  {
    forall key
      ensures HasKey(a + [s], key) <==> HasKey(a, key) || s.key == key
    {
      var all := a + [s];
      if i :| 0 <= i < |a| && a[i].key == key { assert all[i].key == key; }
      if s.key == key { assert all[|a|].key == key; }
    }
  }

  /** Deduplicating leaves one stage of every key there was. */
  lemma {:induction false} DedupedKeys(stages: seq<Stage>)
    ensures DistinctKeys(Deduped(stages))
    ensures forall key :: HasKey(Deduped(stages), key) <==> HasKey(stages, key)
    decreases |stages|
  {
    if stages != [] {
      var before, last := stages[..|stages| - 1], stages[|stages| - 1];
      DedupedKeys(before);
      assert stages == before + [last];
      HasKeyPush(before, last);
      HasKeyPush(Deduped(before), last);
      assert Deduped(before) + [] == Deduped(before);
      if !HasKey(before, last.key) {
        assert forall i :: 0 <= i < |Deduped(before)| ==> Deduped(before)[i].key != last.key;
      }
    }
  }

  /** No earlier stage has the key of the stage at `i`. */
  predicate FirstOfKey(stages: seq<Stage>, i: nat) {
    i < |stages| && forall j :: 0 <= j < i ==> stages[j].key != stages[i].key
  }

  lemma FirstEarlier(stages: seq<Stage>, i: nat)
    requires stages != []
    ensures var n := |stages| - 1;
      FirstOfKey(stages, i)
      <==> (i < n && FirstOfKey(stages[..n], i)) || (i == n && !HasKey(stages[..n], stages[n].key))
  {
    var n := |stages| - 1;
    assert forall j :: 0 <= j < n ==> stages[..n][j] == stages[j];
  }

  /** What deduplicating leaves is the first stage of each key, in the order of the stages. */
  lemma {:induction false} DedupedFirsts(stages: seq<Stage>) returns (at: seq<nat>)
    ensures Rising(at) && |Deduped(stages)| == |at|
    ensures forall k :: 0 <= k < |at| ==> at[k] < |stages| && Deduped(stages)[k] == stages[at[k]]
    ensures forall i: nat :: i in at <==> FirstOfKey(stages, i)
    decreases |stages|
  {
    hide FirstOfKey, HasKey;
    if stages == [] {
      at := [];
      NoneFirst();
    } else {
      var n := |stages| - 1;
      var firsts := DedupedFirsts(stages[..n]);
      at := firsts + if HasKey(stages[..n], stages[n].key) then [] else [n];
      assert forall k :: 0 <= k < |firsts| ==> firsts[k] in firsts;
      forall i: nat
        ensures i in at <==> FirstOfKey(stages, i)
      {
        FirstEarlier(stages, i);
        assert i in firsts <==> FirstOfKey(stages[..n], i);
      }
    }
  }

  lemma NoneFirst()
    ensures forall i: nat :: !FirstOfKey([], i)
  {
  }

  method Dedupe(stages: seq<Stage>) returns (result: seq<Stage>)
    ensures result == Deduped(stages)
  {
    result := [];
    var seen: set<string> := {};
    for i := 0 to |stages|
      invariant result == Deduped(stages[..i])
      invariant forall key :: key in seen <==> HasKey(stages[..i], key)
    {
      var stage := stages[i];
      assert stages[..i + 1] == stages[..i] + [stage];
      HasKeyPush(stages[..i], stage);
      if stage.key !in seen {
        result := result + [stage];
        seen := seen + {stage.key};
      }
    }
    assert stages[..|stages|] == stages;
  }

  // ---------------------------------------------------------------- one run

  /** What the loop does from some stage on: its part of the report, the record, and the stages that passed. */
  datatype Progress = Progress(results: seq<Outcome>, record: Record, passed: seq<Stage>)

  predicate CanReuse(stage: Stage, consult: bool, tree: string, record: Record, hash: Hash) {
    var f := Fingerprint(stage, tree, hash);
    consult && f != "" && stage.key !in NEVER_REUSED && stage.key in record && record[stage.key] == f
  }

  function SkipAll(stages: seq<Stage>): (r: seq<Outcome>)
    ensures |r| == |stages|
    ensures forall i :: 0 <= i < |r| ==> r[i] == Outcome(stages[i].key, Skipped)
  {
    if stages == [] then [] else [Outcome(stages[0].key, Skipped)] + SkipAll(stages[1..])
  }

  /** The record once a stage has been run. */
  function Noted(record: Record, key: string, status: Status): Record {
    if status == Passed then record else record - {key}
  }

  function PassedBy(stage: Stage, status: Status): seq<Stage> {
    if status == Passed then [stage] else []
  }

  function After(results: seq<Outcome>, passed: seq<Stage>, rest: Progress): Progress {
    Progress(results + rest.results, rest.record, passed + rest.passed)
  }

  /** The loop over the stages: `runs[i]` is what running stage `i` gives. */
  function Loop(stages: seq<Stage>, runs: seq<Status>, consult: bool, tree: string, hash: Hash, record: Record)
    : Progress
    requires |runs| == |stages|
    decreases stages
  {
    if stages == [] then Progress([], record, [])
    else
      var stage := stages[0];
      if CanReuse(stage, consult, tree, record, hash) then
        After([Outcome(stage.key, Reused)], [], Loop(stages[1..], runs[1..], consult, tree, hash, record))
      else
        var noted := Noted(record, stage.key, runs[0]);
        After([Outcome(stage.key, runs[0])], PassedBy(stage, runs[0]),
              if stage.precondition && runs[0] == Failed then Progress(SkipAll(stages[1..]), noted, [])
              else Loop(stages[1..], runs[1..], consult, tree, hash, noted))
  }

  /** The record with every stage that passed noted against the tree the run leaves. */
  function Settle(record: Record, passed: seq<Stage>, tree: string, hash: Hash): Record
    decreases passed
  {
    if passed == [] then record
    else
      var f := Fingerprint(passed[0], tree, hash);
      Settle(if f != "" then record[passed[0].key := f] else record, passed[1..], tree, hash)
  }

  function ExitCode(results: seq<Outcome>): int {
    if AnyStatus(results, Failed) then EXIT_FAILED
    else if AnyStatus(results, Incomplete) then EXIT_INCOMPLETE
    else EXIT_OK
  }

  /** What one run of the runner meets. */
  datatype Setting = Setting(stages: seq<Stage>, consult: bool, start: string, runs: seq<Status>, end: string,
      saved: bool)

  /** Stages have different keys, and running one passes, fails or is incomplete. */
  predicate WellSet(s: Setting) {
    && DistinctKeys(s.stages) && |s.runs| == |s.stages|
    && forall i :: 0 <= i < |s.runs| ==> s.runs[i] in {Passed, Failed, Incomplete}
  }

  function Report(s: Setting, record: Record, hash: Hash): Progress
    requires |s.runs| == |s.stages|
  {
    Loop(s.stages, s.runs, s.consult, s.start, hash, record)
  }

  /** The record on disk after a run: the old one when it could not be written. */
  function RecordAfter(s: Setting, record: Record, hash: Hash): Record
    requires |s.runs| == |s.stages|
  {
    if s.saved then Settle(Report(s, record, hash).record, Report(s, record, hash).passed, s.end, hash) else record
  }

  /** The loop from stage `i` on. */
  function LoopAt(s: Setting, i: nat, hash: Hash, record: Record): Progress
    requires |s.runs| == |s.stages| && i <= |s.stages|
  {
    Loop(s.stages[i..], s.runs[i..], s.consult, s.start, hash, record)
  }

  /** What follows once stage `i` has been run: the stages after it, or that they were skipped. */
  function LoopOn(s: Setting, i: nat, hash: Hash, record: Record): Progress
    requires |s.runs| == |s.stages| && i < |s.stages|
  {
    var noted := Noted(record, s.stages[i].key, s.runs[i]);
    if s.stages[i].precondition && s.runs[i] == Failed then Progress(SkipAll(s.stages[i + 1..]), noted, [])
    else LoopAt(s, i + 1, hash, noted)
  }

  lemma LoopStep(s: Setting, i: nat, hash: Hash, record: Record)
    requires |s.runs| == |s.stages| && i < |s.stages|
    ensures LoopAt(s, i, hash, record) ==
      if CanReuse(s.stages[i], s.consult, s.start, record, hash)
      then After([Outcome(s.stages[i].key, Reused)], [], LoopAt(s, i + 1, hash, record))
      else After([Outcome(s.stages[i].key, s.runs[i])], PassedBy(s.stages[i], s.runs[i]), LoopOn(s, i, hash, record))
  {
    assert s.stages[i..][1..] == s.stages[i + 1..] && s.runs[i..][1..] == s.runs[i + 1..];
  }

  lemma LoopEnd(s: Setting, hash: Hash, record: Record)
    requires |s.runs| == |s.stages|
    ensures LoopAt(s, |s.stages|, hash, record) == Progress([], record, [])
  {
    assert s.stages[|s.stages|..] == [];
  }

  method RunStages(s: Setting, loaded: Record, hash: Hash)
    returns (results: seq<Outcome>, stored: Record, exitCode: int)
    requires |s.runs| == |s.stages|
    ensures results == Report(s, loaded, hash).results
    ensures stored == RecordAfter(s, loaded, hash)
    ensures exitCode == ExitCode(results)
  {
    hide Fingerprint, CanReuse, Noted, Loop;
    var record, passed: seq<Stage> := loaded, [];
    results := [];
    var index, stopped := 0, false;
    ghost var all := Report(s, loaded, hash);
    assert s.stages[0..] == s.stages && s.runs[0..] == s.runs;
    AfterNothing(all);
    while index < |s.stages| && !stopped
      invariant 0 <= index <= |s.stages|
      invariant stopped ==> all == Progress(results, record, passed)
      invariant !stopped ==>
        all == After(results, passed, Loop(s.stages[index..], s.runs[index..], s.consult, s.start, hash, record))
      decreases |s.stages| - index, !stopped
    {
      var stage, status := s.stages[index], s.runs[index];
      LoopStep(s, index, hash, record);
      AfterAfter(results, passed, [Outcome(stage.key, Reused)], [], LoopAt(s, index + 1, hash, record));
      AfterAfter(results, passed, [Outcome(stage.key, status)], PassedBy(stage, status),
          LoopOn(s, index, hash, record));
      if CanReuse(stage, s.consult, s.start, record, hash) {
        results := results + [Outcome(stage.key, Reused)];
        assert passed + [] == passed;
        index := index + 1;
      } else {
        results := results + [Outcome(stage.key, status)];
        passed := passed + PassedBy(stage, status);
        record := Noted(record, stage.key, status);
        if stage.precondition && status == Failed {
          results := results + SkipAll(s.stages[index + 1..]);
          assert passed + [] == passed;
          stopped := true;
        } else {
          index := index + 1;
        }
      }
    }
    LoopEnd(s, hash, record);
    assert results + [] == results && passed + [] == passed;
    var tally := record;
    for i := 0 to |passed|
      invariant Settle(record, passed, s.end, hash) == Settle(tally, passed[i..], s.end, hash)
    {
      assert passed[i..][1..] == passed[i + 1..];
      var fingerprint := Fingerprint(passed[i], s.end, hash);
      if fingerprint != "" {
        tally := tally[passed[i].key := fingerprint];
      }
    }
    assert passed[|passed|..] == [];
    stored := if s.saved then tally else loaded;
    exitCode := ExitCode(results);
  }

  lemma AfterNothing(p: Progress)
    ensures After([], [], p) == p
  {
  }

  lemma AfterAfter(a: seq<Outcome>, x: seq<Stage>, b: seq<Outcome>, y: seq<Stage>, rest: Progress)
    ensures After(a, x, After(b, y, rest)) == After(a + b, x + y, rest)
  {
  }

  // ---------------------------------------------------------------- what a run reports

  predicate AnyStatus(results: seq<Outcome>, status: Status) {
    exists i :: 0 <= i < |results| && results[i].status == status
  }

  /** The first stage's part in the report, and the rest. */
  lemma LoopFirst(stages: seq<Stage>, runs: seq<Status>, consult: bool, tree: string, hash: Hash, record: Record)
    requires |runs| == |stages| && stages != []
    ensures var stage, all := stages[0], Loop(stages, runs, consult, tree, hash, record).results;
      if CanReuse(stage, consult, tree, record, hash) then
        all == [Outcome(stage.key, Reused)] + Loop(stages[1..], runs[1..], consult, tree, hash, record).results
      else if stage.precondition && runs[0] == Failed then
        all == [Outcome(stage.key, runs[0])] + SkipAll(stages[1..])
      else
        all == [Outcome(stage.key, runs[0])]
               + Loop(stages[1..], runs[1..], consult, tree, hash, Noted(record, stage.key, runs[0])).results
  {
    hide CanReuse, Noted;
  }

  /** What a stage can be reported as, and that a skip follows a failure. */
  lemma {:induction false} LoopReports(stages: seq<Stage>, runs: seq<Status>, consult: bool, tree: string, hash: Hash,
      record: Record)
    requires |runs| == |stages| && forall i :: 0 <= i < |runs| ==> runs[i] in {Passed, Failed, Incomplete}
    ensures var results := Loop(stages, runs, consult, tree, hash, record).results;
      && |results| == |stages|
      && (forall i :: 0 <= i < |stages| ==> results[i].key == stages[i].key)
      && (forall i :: 0 <= i < |stages| ==> results[i].status in {Reused, Skipped, runs[i]})
      && (AnyStatus(results, Skipped) ==> AnyStatus(results, Failed))
    decreases stages
  {
    hide CanReuse, Noted, Loop;
    if stages == [] {
      NoStages(consult, tree, hash, record);
    } else {
      var stage := stages[0];
      var noted := if CanReuse(stage, consult, tree, record, hash) then record else Noted(record, stage.key, runs[0]);
      LoopFirst(stages, runs, consult, tree, hash, record);
      LoopReports(stages[1..], runs[1..], consult, tree, hash, noted);
      OneMoreReport(Outcome(stage.key, if CanReuse(stage, consult, tree, record, hash) then Reused else runs[0]),
                    Loop(stages[1..], runs[1..], consult, tree, hash, noted).results);
      assert [Outcome(stage.key, runs[0])][0].status == runs[0];
      assert Loop(stages, runs, consult, tree, hash, record).results[0].status in {Reused, runs[0]};
    }
  }

  lemma NoStages(consult: bool, tree: string, hash: Hash, record: Record)
    ensures Loop([], [], consult, tree, hash, record).results == []
  {
  }

  lemma OneMoreReport(first: Outcome, rest: seq<Outcome>)
    ensures forall status :: AnyStatus([first] + rest, status) <==> first.status == status || AnyStatus(rest, status)
  {
    forall status
      ensures AnyStatus([first] + rest, status) <==> first.status == status || AnyStatus(rest, status)
    {
      var all := [first] + rest;
      if first.status == status { assert all[0].status == status; }
      if i :| 0 <= i < |rest| && rest[i].status == status { assert all[i + 1].status == status; }
    }
  }

  /** Every selected stage is reported exactly once, in order, and exit 0 means each one passed or was reused. */
  lemma ReportsEveryStage(s: Setting, record: Record, hash: Hash)
    requires WellSet(s)
    ensures var results := Report(s, record, hash).results;
      && |results| == |s.stages|
      && (forall i :: 0 <= i < |results| ==> results[i].key == s.stages[i].key)
      && (ExitCode(results) == EXIT_OK <==> forall i :: 0 <= i < |results| ==> results[i].status in {Passed, Reused})
  {
    hide Loop;
    LoopReports(s.stages, s.runs, s.consult, s.start, hash, record);
    var results := Report(s, record, hash).results;
    if ExitCode(results) == EXIT_OK {
      assert !AnyStatus(results, Failed) && !AnyStatus(results, Skipped);
    }
  }

  // ---------------------------------------------------------------- why a stage was reused

  predicate WellRun(history: seq<Setting>) {
    forall k :: 0 <= k < |history| ==> WellSet(history[k])
  }

  /** The record after the first `n` runs, from none. */
  function RecordOf(history: seq<Setting>, n: nat, hash: Hash): Record
    requires WellRun(history) && n <= |history|
  {
    if n == 0 then map[] else RecordAfter(history[n - 1], RecordOf(history, n - 1, hash), hash)
  }

  /** Whether a report gives the stage with this key one of these statuses. */
  predicate Reported(results: seq<Outcome>, key: string, statuses: set<Status>) {
    exists i :: 0 <= i < |results| && results[i].key == key && results[i].status in statuses
  }

  /** The report of run `k` of a history. */
  function ReportOf(history: seq<Setting>, k: nat, hash: Hash): seq<Outcome>
    requires WellRun(history) && k < |history|
  {
    Report(history[k], RecordOf(history, k, hash), hash).results
  }

  /** A selected stage with this key has this fingerprint on the tree the run left. */
  predicate LeftAs(s: Setting, key: string, f: string, hash: Hash) {
    exists i :: 0 <= i < |s.stages| && s.stages[i].key == key && Fingerprint(s.stages[i], s.end, hash) == f
  }

  /**
   Run `j` was saved, and a stage with this key passed in it and had this fingerprint on the tree the
   run left; and in no saved run since, before run `n`, was the stage run without passing.
   */
  predicate PassedAt(history: seq<Setting>, n: nat, hash: Hash, key: string, f: string, j: nat)
    requires WellRun(history) && n <= |history|
  {
    && j < n
    && history[j].saved
    && Reported(ReportOf(history, j, hash), key, {Passed})
    && LeftAs(history[j], key, f, hash)
    && forall k :: j < k < n && history[k].saved ==> !Reported(ReportOf(history, k, hash), key, {Failed, Incomplete})
  }

  lemma ReportedPush(first: Outcome, rest: seq<Outcome>, key: string, statuses: set<Status>)
    ensures Reported([first] + rest, key, statuses) <==>
      (first.key == key && first.status in statuses) || Reported(rest, key, statuses)
  {
    var all := [first] + rest;
    if first.key == key && first.status in statuses { assert all[0] == first; }
    if i :| 0 <= i < |rest| && rest[i].key == key && rest[i].status in statuses { assert all[i + 1] == rest[i]; }
  }

  lemma SkippedReported(stages: seq<Stage>, key: string, statuses: set<Status>)
    requires Skipped !in statuses
    ensures !Reported(SkipAll(stages), key, statuses)
  {
  }

  /** The loop leaves an entry in the record exactly when it was there before and no stage of its key ran badly. */
  lemma {:induction false} LoopRecord(stages: seq<Stage>, runs: seq<Status>, consult: bool, tree: string, hash: Hash,
      record: Record, key: string)
    requires |runs| == |stages| && forall i :: 0 <= i < |runs| ==> runs[i] in {Passed, Failed, Incomplete}
    ensures var p := Loop(stages, runs, consult, tree, hash, record);
      && (key in p.record <==> key in record && !Reported(p.results, key, {Failed, Incomplete}))
      && (key in p.record ==> p.record[key] == record[key])
    decreases stages
  {
    hide CanReuse, Reported;
    if stages == [] {
      SkippedReported([], key, {Failed, Incomplete});
    } else {
      var stage := stages[0];
      if CanReuse(stage, consult, tree, record, hash) {
        LoopRecord(stages[1..], runs[1..], consult, tree, hash, record, key);
        ReportedPush(Outcome(stage.key, Reused), Loop(stages[1..], runs[1..], consult, tree, hash, record).results,
            key, {Failed, Incomplete});
      } else {
        var noted := Noted(record, stage.key, runs[0]);
        var rest := if stage.precondition && runs[0] == Failed then Progress(SkipAll(stages[1..]), noted, [])
                    else Loop(stages[1..], runs[1..], consult, tree, hash, noted);
        LoopRecord(stages[1..], runs[1..], consult, tree, hash, noted, key);
        SkippedReported(stages[1..], key, {Failed, Incomplete});
        ReportedPush(Outcome(stage.key, runs[0]), rest.results, key, {Failed, Incomplete});
      }
    }
  }

  /** A stage of every key reported as passed is counted as passed. */
  lemma {:induction false} ReportedPassed(stages: seq<Stage>, runs: seq<Status>, consult: bool, tree: string,
      hash: Hash, record: Record, key: string)
    requires |runs| == |stages|
    ensures var p := Loop(stages, runs, consult, tree, hash, record);
      Reported(p.results, key, {Passed}) ==> HasKey(p.passed, key)
    decreases stages
  {
    hide CanReuse, Reported, HasKey;
    if stages == [] {
      SkippedReported([], key, {Passed});
    } else {
      var stage := stages[0];
      if CanReuse(stage, consult, tree, record, hash) {
        var rest := Loop(stages[1..], runs[1..], consult, tree, hash, record);
        ReportedPassed(stages[1..], runs[1..], consult, tree, hash, record, key);
        ReportedPush(Outcome(stage.key, Reused), rest.results, key, {Passed});
        assert [] + rest.passed == rest.passed;
      } else {
        var noted := Noted(record, stage.key, runs[0]);
        var rest := if stage.precondition && runs[0] == Failed then Progress(SkipAll(stages[1..]), noted, [])
                    else Loop(stages[1..], runs[1..], consult, tree, hash, noted);
        ReportedPassed(stages[1..], runs[1..], consult, tree, hash, noted, key);
        SkippedReported(stages[1..], key, {Passed});
        ReportedPush(Outcome(stage.key, runs[0]), rest.results, key, {Passed});
        PassedPush(PassedBy(stage, runs[0]), rest.passed, key);
        OneKey(stage, key);
      }
    }
  }

  lemma PassedPush(first: seq<Stage>, rest: seq<Stage>, key: string)
    ensures HasKey(first + rest, key) <==> HasKey(first, key) || HasKey(rest, key)
  {
    var all := first + rest;
    if i :| 0 <= i < |first| && first[i].key == key { assert all[i].key == key; }
    if i :| 0 <= i < |rest| && rest[i].key == key { assert all[|first| + i].key == key; }
  }

  lemma OneKey(stage: Stage, key: string)
    ensures HasKey([stage], key) <==> stage.key == key
  {
    assert [stage][0] == stage;
  }

  /** Settling writes the fingerprint of the stage that passed under a key, if it has one, and nothing else. */
  lemma {:induction false} SettleExactly(record: Record, passed: seq<Stage>, tree: string, hash: Hash, key: string,
      f: string)
    requires forall i :: 0 <= i < |passed| && passed[i].key == key ==> Fingerprint(passed[i], tree, hash) == f
    ensures var after := Settle(record, passed, tree, hash);
      if HasKey(passed, key) && f != "" then key in after && after[key] == f
      else (key in after <==> key in record) && (key in after ==> after[key] == record[key])
    decreases passed
  {
    hide Fingerprint, HasKey;
    if passed == [] {
      PassedPush([], [], key);
      NoKey(key);
    } else {
      var own := Fingerprint(passed[0], tree, hash);
      assert passed == [passed[0]] + passed[1..];
      PassedPush([passed[0]], passed[1..], key);
      OneKey(passed[0], key);
      assert forall i :: 0 <= i < |passed[1..]| ==> passed[1..][i] == passed[i + 1];
      SettleExactly(if own != "" then record[passed[0].key := own] else record, passed[1..], tree, hash, key, f);
    }
  }

  lemma NoKey(key: string)
    ensures !HasKey([], key)
  {
  }

  /**
   What a saved run leaves of the entry of one of its stages: the fingerprint on the tree it leaves if the
   stage was run and passed and has one there; nothing if it was run and did not pass; and otherwise the
   entry as it was. Entries of no stage of the run stay.
   */
  lemma RecordExactly(s: Setting, record: Record, hash: Hash, stage: Stage)
    requires WellSet(s) && s.saved && stage in s.stages
    ensures var results, after := Report(s, record, hash).results, RecordAfter(s, record, hash);
      var f := Fingerprint(stage, s.end, hash);
      if Reported(results, stage.key, {Passed}) && f != "" then stage.key in after && after[stage.key] == f
      else if Reported(results, stage.key, {Failed, Incomplete}) then stage.key !in after
      else
        && (stage.key in after <==> stage.key in record)
        && (stage.key in after ==> after[stage.key] == record[stage.key])
  {
    hide Fingerprint, CanReuse, Reported, Settle, Loop;
    var key := stage.key;
    var p, f := Report(s, record, hash), Fingerprint(stage, s.end, hash);
    ReportIsLoop(s, record, hash);
    ReportedPassed(s.stages, s.runs, s.consult, s.start, hash, record, key);
    LoopRecord(s.stages, s.runs, s.consult, s.start, hash, record, key);
    forall i | 0 <= i < |p.passed|
      ensures p.passed[i] in s.stages && Reported(p.results, p.passed[i].key, {Passed})
    {
      LoopPassed(s.stages, s.runs, s.consult, s.start, hash, record, p.passed[i]);
    }
    SettleExactly(p.record, p.passed, s.end, hash, key, f);
    OneVerdict(s, record, hash, key);
  }

  /** No key is reported both as passed and as run without passing. */
  lemma OneVerdict(s: Setting, record: Record, hash: Hash, key: string)
    requires WellSet(s)
    ensures var results := Report(s, record, hash).results;
      !(Reported(results, key, {Passed}) && Reported(results, key, {Failed, Incomplete}))
  {
    hide Loop;
    ReportIsLoop(s, record, hash);
    LoopReports(s.stages, s.runs, s.consult, s.start, hash, record);
  }

  lemma ElseStays(s: Setting, record: Record, hash: Hash, key: string)
    requires WellSet(s) && !HasKey(s.stages, key)
    ensures var after := RecordAfter(s, record, hash);
      (key in after <==> key in record) && (key in after ==> after[key] == record[key])
  {
    hide Fingerprint, Settle, Loop;
    var p := Report(s, record, hash);
    ReportIsLoop(s, record, hash);
    LoopRecord(s.stages, s.runs, s.consult, s.start, hash, record, key);
    LoopReports(s.stages, s.runs, s.consult, s.start, hash, record);
    forall i | 0 <= i < |p.passed|
      ensures p.passed[i].key != key
    {
      LoopPassed(s.stages, s.runs, s.consult, s.start, hash, record, p.passed[i]);
    }
    SettleExactly(p.record, p.passed, s.end, hash, key, "");
  }

  /** A stage the loop counts as passed is one of its stages, run and reported as passed. */
  lemma {:induction false} LoopPassed(stages: seq<Stage>, runs: seq<Status>, consult: bool, tree: string, hash: Hash,
      record: Record, s: Stage)
    requires |runs| == |stages|
    requires s in Loop(stages, runs, consult, tree, hash, record).passed
    ensures s in stages && Reported(Loop(stages, runs, consult, tree, hash, record).results, s.key, {Passed})
    decreases stages
  {
    hide CanReuse;
    var stage := stages[0];
    if CanReuse(stage, consult, tree, record, hash) {
      LoopPassed(stages[1..], runs[1..], consult, tree, hash, record, s);
      ReportedPush(Outcome(stage.key, Reused), Loop(stages[1..], runs[1..], consult, tree, hash, record).results,
          s.key, {Passed});
    } else {
      var noted := Noted(record, stage.key, runs[0]);
      assert !(stage.precondition && runs[0] == Failed);
      var rest := Loop(stages[1..], runs[1..], consult, tree, hash, noted);
      ReportedPush(Outcome(stage.key, runs[0]), rest.results, s.key, {Passed});
      if s !in PassedBy(stage, runs[0]) {
        assert s in rest.passed;
        LoopPassed(stages[1..], runs[1..], consult, tree, hash, noted, s);
      }
    }
  }

  /** A stage the loop reuses has its fingerprint on this tree in the record it was given. */
  lemma {:induction false} LoopReused(stages: seq<Stage>, runs: seq<Status>, consult: bool, tree: string, hash: Hash,
      record: Record, i: nat)
    requires |runs| == |stages| && forall i :: 0 <= i < |runs| ==> runs[i] in {Passed, Failed, Incomplete}
    requires i < |Loop(stages, runs, consult, tree, hash, record).results|
    requires Loop(stages, runs, consult, tree, hash, record).results[i].status == Reused
    ensures i < |stages| && CanReuse(stages[i], consult, tree, record, hash)
    decreases stages
  {
    hide CanReuse, Noted;
    var stage := stages[0];
    if CanReuse(stage, consult, tree, record, hash) {
      if i > 0 {
        LoopReused(stages[1..], runs[1..], consult, tree, hash, record, i - 1);
      }
    } else {
      assert i > 0;
      var noted := Noted(record, stage.key, runs[0]);
      LoopReused(stages[1..], runs[1..], consult, tree, hash, noted, i - 1);
      ReusableBefore(stages[i], stage.key, runs[0], consult, tree, record, hash);
    }
  }

  lemma ReusableBefore(stage: Stage, key: string, status: Status, consult: bool, tree: string, record: Record,
      hash: Hash)
    requires CanReuse(stage, consult, tree, Noted(record, key, status), hash)
    ensures CanReuse(stage, consult, tree, record, hash)
  {
    hide Fingerprint;
  }

  /** What settling puts in the record is the fingerprint, on the tree left, of a stage that passed. */
  lemma {:induction false} SettleRecord(record: Record, passed: seq<Stage>, tree: string, hash: Hash, key: string)
    requires key in Settle(record, passed, tree, hash)
    ensures var f := Settle(record, passed, tree, hash)[key];
      || (key in record && record[key] == f)
      || exists i :: 0 <= i < |passed| && passed[i].key == key && Fingerprint(passed[i], tree, hash) == f
    decreases passed
  {
    hide Fingerprint;
    if passed != [] {
      var f := Fingerprint(passed[0], tree, hash);
      var next := if f != "" then record[passed[0].key := f] else record;
      SettleRecord(next, passed[1..], tree, hash, key);
      assert forall i :: 0 < i < |passed| ==> passed[i] == passed[1..][i - 1];
    }
  }

  /** Every entry of the record was put there by a run the stage passed in, with no bad run since. */
  lemma {:induction false} RecordJustified(history: seq<Setting>, n: nat, hash: Hash, key: string) returns (j: nat)
    requires WellRun(history) && n <= |history|
    requires key in RecordOf(history, n, hash)
    ensures PassedAt(history, n, hash, key, RecordOf(history, n, hash)[key], j)
    decreases n
  {
    hide Report, Settle, Fingerprint, Reported;
    var last, record := history[n - 1], RecordOf(history, n - 1, hash);
    if !last.saved {
      j := RecordJustified(history, n - 1, hash, key);
    } else {
      var p, f := Report(last, record, hash), RecordOf(history, n, hash)[key];
      SettleRecord(p.record, p.passed, last.end, hash, key);
      if i :| 0 <= i < |p.passed| && p.passed[i].key == key && Fingerprint(p.passed[i], last.end, hash) == f {
        j := n - 1;
        PassedHere(last, record, hash, p.passed[i]);
      } else {
        LoopRecord(last.stages, last.runs, last.consult, last.start, hash, record, key);
        ReportIsLoop(last, record, hash);
        j := RecordJustified(history, n - 1, hash, key);
      }
    }
  }

  lemma ReportIsLoop(s: Setting, record: Record, hash: Hash)
    requires |s.runs| == |s.stages|
    ensures Report(s, record, hash) == Loop(s.stages, s.runs, s.consult, s.start, hash, record)
  {
  }

  lemma PassedHere(s: Setting, record: Record, hash: Hash, stage: Stage)
    requires |s.runs| == |s.stages| && stage in Report(s, record, hash).passed
    ensures Reported(Report(s, record, hash).results, stage.key, {Passed})
    ensures LeftAs(s, stage.key, Fingerprint(stage, s.end, hash), hash)
  {
    LoopPassed(s.stages, s.runs, s.consult, s.start, hash, record, stage);
    var i :| 0 <= i < |s.stages| && s.stages[i] == stage;
  }

  /**
   Over any sequence of runs, a stage is reported as reused only by a run that consults the record,
   for a stage whose verdict may stand in for its work, and only when its fingerprint now is the one
   it had on the tree an earlier saved run left, in which it passed, no saved run since having run it
   without passing.
   */
  lemma ReuseJustified(history: seq<Setting>, n: nat, hash: Hash, i: nat) returns (j: nat)
    requires WellRun(history) && n < |history|
    requires i < |ReportOf(history, n, hash)| && ReportOf(history, n, hash)[i].status == Reused
    ensures i < |history[n].stages| && history[n].consult && history[n].stages[i].key !in NEVER_REUSED
    ensures var f := Fingerprint(history[n].stages[i], history[n].start, hash);
      f != "" && PassedAt(history, n, hash, history[n].stages[i].key, f, j)
  {
    hide Fingerprint, PassedAt;
    var s, record := history[n], RecordOf(history, n, hash);
    LoopReused(s.stages, s.runs, s.consult, s.start, hash, record, i);
    j := RecordJustified(history, n, hash, s.stages[i].key);
  }

  // ---------------------------------------------------------------- what running would have given

  /**
   What the world must be like for a verdict to stand in for running: what a stage gives is settled by
   its fingerprint on the tree it would run on, and a stage that passes would pass on the tree left too.
   A tree that cannot be described says nothing.
   */
  ghost predicate Settled(s: Setting, hash: Hash, verdict: string -> Status)
    requires |s.runs| == |s.stages|
  {
    && (forall i :: 0 <= i < |s.stages| ==> StartsSettled(s, i, hash, verdict))
    && (forall i :: 0 <= i < |s.stages| ==> EndsSettled(s, i, hash, verdict))
  }

  predicate StartsSettled(s: Setting, i: nat, hash: Hash, verdict: string -> Status)
    requires |s.runs| == |s.stages| && i < |s.stages|
  {
    Fingerprint(s.stages[i], s.start, hash) != "" ==> s.runs[i] == verdict(Fingerprint(s.stages[i], s.start, hash))
  }

  predicate EndsSettled(s: Setting, i: nat, hash: Hash, verdict: string -> Status)
    requires |s.runs| == |s.stages| && i < |s.stages|
  {
    s.runs[i] == Passed && Fingerprint(s.stages[i], s.end, hash) != ""
    ==> verdict(Fingerprint(s.stages[i], s.end, hash)) == Passed
  }

  /** A stage of a run passed when it was run, and had this fingerprint on the tree the run left. */
  predicate PassedAs(s: Setting, m: nat, key: string, f: string, hash: Hash)
    requires |s.runs| == |s.stages|
  {
    m < |s.stages| && s.stages[m].key == key && s.runs[m] == Passed && Fingerprint(s.stages[m], s.end, hash) == f
  }

  lemma PassedStage(s: Setting, record: Record, hash: Hash, key: string, f: string) returns (m: nat)
    requires WellSet(s)
    requires Reported(Report(s, record, hash).results, key, {Passed}) && LeftAs(s, key, f, hash)
    ensures PassedAs(s, m, key, f, hash)
  {
    LoopReports(s.stages, s.runs, s.consult, s.start, hash, record);
    ReportIsLoop(s, record, hash);
    hide Report, Loop, Fingerprint;
    var results := Report(s, record, hash).results;
    var i :| 0 <= i < |results| && results[i].key == key && results[i].status in {Passed};
    m :| m < |s.stages| && s.stages[m].key == key && Fingerprint(s.stages[m], s.end, hash) == f;
    assert s.stages[i].key == key && results[i].status in {Reused, Skipped, s.runs[i]};
    assert i == m;
  }

  /**
   Where running a stage gives what its fingerprint says, reusing one agrees with running it exactly when,
   in the run that it passed in and that the record has it from, the pass held of the tree that run left.
   */
  lemma ReuseAgreesExactly(history: seq<Setting>, n: nat, hash: Hash, i: nat, verdict: string -> Status)
    returns (j: nat, m: nat)
    requires WellRun(history) && n < |history| && i < |history[n].stages| && StartsSettled(history[n], i, hash, verdict)
    requires CanReuse(history[n].stages[i], history[n].consult, history[n].start, RecordOf(history, n, hash), hash)
    ensures var key, f := history[n].stages[i].key, Fingerprint(history[n].stages[i], history[n].start, hash);
      && PassedAt(history, n, hash, key, f, j) && PassedAs(history[j], m, key, f, hash)
      && (history[n].runs[i] == Passed <==> EndsSettled(history[j], m, hash, verdict))
  {
    hide Fingerprint, Report, Reported, LeftAs;
    var stage := history[n].stages[i];
    var f := Fingerprint(stage, history[n].start, hash);
    j := RecordJustified(history, n, hash, stage.key);
    m := PassedStage(history[j], RecordOf(history, j, hash), hash, stage.key, f);
  }

  const BEFORE := "a"
  const EDITED := "b"

  /** A stage passes on one tree while the tree is edited; on the edited tree it would fail. */
  function EditedHistory(stage: Stage): seq<Setting> {
    [Setting([stage], true, BEFORE, [Passed], EDITED, true), Setting([stage], true, EDITED, [Failed], EDITED, true)]
  }

  /** An edit made while a stage runs is recorded as passed with it: the next run reuses a stage that would fail. */
  lemma EditedDuringTheRun(stage: Stage, hash: Hash)
    requires stage.key !in NEVER_REUSED && hash(stage, EDITED) != ""
    ensures WellRun(EditedHistory(stage))
    ensures ReportOf(EditedHistory(stage), 1, hash) == [Outcome(stage.key, Reused)]
    ensures EditedHistory(stage)[1].runs[0] == Failed
  {
    var history, f := EditedHistory(stage), hash(stage, EDITED);
    assert BEFORE != "" && EDITED != "";
    LoopOne(stage, Passed, true, BEFORE, hash, map[]);
    assert RecordOf(history, 0, hash) == map[];
    SettleOne(map[], stage, EDITED, hash);
    var record := RecordOf(history, 1, hash);
    assert record == map[stage.key := f];
    LoopOne(stage, Failed, true, EDITED, hash, record);
  }

  lemma LoopOne(stage: Stage, run: Status, consult: bool, tree: string, hash: Hash, record: Record)
    ensures Loop([stage], [run], consult, tree, hash, record) ==
      if CanReuse(stage, consult, tree, record, hash) then Progress([Outcome(stage.key, Reused)], record, [])
      else Progress([Outcome(stage.key, run)], Noted(record, stage.key, run), PassedBy(stage, run))
  {
    assert [stage][1..] == [] && [run][1..] == [];
    assert PassedBy(stage, run) + [] == PassedBy(stage, run);
  }

  lemma SettleOne(record: Record, stage: Stage, tree: string, hash: Hash)
    ensures Settle(record, [stage], tree, hash) ==
      if Fingerprint(stage, tree, hash) != "" then record[stage.key := Fingerprint(stage, tree, hash)] else record
  {
    assert [stage][1..] == [];
  }

  /** In a settled world, whatever the record would let be reused would pass if it were run. */
  lemma ReusablePasses(history: seq<Setting>, n: nat, hash: Hash, i: nat, verdict: string -> Status)
    requires WellRun(history) && n < |history| && i < |history[n].stages|
    requires forall k :: 0 <= k <= n ==> Settled(history[k], hash, verdict)
    requires CanReuse(history[n].stages[i], history[n].consult, history[n].start, RecordOf(history, n, hash), hash)
    ensures history[n].runs[i] == Passed
  {
    assert StartsSettled(history[n], i, hash, verdict);
    var j, m := ReuseAgreesExactly(history, n, hash, i, verdict);
    assert EndsSettled(history[j], m, hash, verdict);
  }

  /** A report with the reused stages taken as passed. */
  predicate SameVerdicts(results: seq<Outcome>, ran: seq<Outcome>) {
    |results| == |ran|
    && forall i :: 0 <= i < |ran| ==>
         && results[i].key == ran[i].key
         && (if results[i].status == Reused then Passed else results[i].status) == ran[i].status
  }

  lemma {:induction false} SameAsRun(stages: seq<Stage>, runs: seq<Status>, consult: bool, tree: string, hash: Hash,
                                     record: Record, other: Record)
    requires |runs| == |stages| && forall i :: 0 <= i < |runs| ==> runs[i] in {Passed, Failed, Incomplete}
    requires forall i :: 0 <= i < |stages| && CanReuse(stages[i], consult, tree, record, hash) ==> runs[i] == Passed
    ensures SameVerdicts(Loop(stages, runs, consult, tree, hash, record).results,
                         Loop(stages, runs, false, tree, hash, other).results)
    decreases stages
  {
    hide Noted, Fingerprint;
    if stages != [] {
      var stage := stages[0];
      var noted := if CanReuse(stage, consult, tree, record, hash) then record else Noted(record, stage.key, runs[0]);
      forall i | 0 <= i < |stages[1..]| && CanReuse(stages[1..][i], consult, tree, noted, hash)
        ensures runs[1..][i] == Passed
      {
        if noted != record { ReusableBefore(stages[i + 1], stage.key, runs[0], consult, tree, record, hash); }
      }
      hide CanReuse, Loop, SameVerdicts;
      SameAsRun(stages[1..], runs[1..], consult, tree, hash, noted, Noted(other, stage.key, runs[0]));
      NeverReused(stage, tree, other, hash);
      LoopFirst(stages, runs, consult, tree, hash, record);
      LoopFirst(stages, runs, false, tree, hash, other);
      SameFirst(Outcome(stage.key, if CanReuse(stage, consult, tree, record, hash) then Reused else runs[0]),
                Outcome(stage.key, runs[0]),
                Loop(stages[1..], runs[1..], consult, tree, hash, noted).results,
                Loop(stages[1..], runs[1..], false, tree, hash, Noted(other, stage.key, runs[0])).results);
      SameSkipped(Outcome(stage.key, runs[0]), stages[1..]);
    } else {
      hide CanReuse;
    }
  }

  lemma SameFirst(a: Outcome, b: Outcome, results: seq<Outcome>, ran: seq<Outcome>)
    requires SameVerdicts(results, ran) && a.key == b.key
    requires (if a.status == Reused then Passed else a.status) == b.status
    ensures SameVerdicts([a] + results, [b] + ran)
  {
  }

  lemma SameSkipped(first: Outcome, stages: seq<Stage>)
    requires first.status != Reused
    ensures SameVerdicts([first] + SkipAll(stages), [first] + SkipAll(stages))
  {
  }

  lemma NeverReused(stage: Stage, tree: string, record: Record, hash: Hash)
    ensures !CanReuse(stage, false, tree, record, hash)
  {
  }

  lemma SameExit(results: seq<Outcome>, ran: seq<Outcome>)
    requires SameVerdicts(results, ran)
    ensures ExitCode(results) == ExitCode(ran)
  {
    forall status | status in {Failed, Incomplete}
      ensures AnyStatus(results, status) <==> AnyStatus(ran, status)
    {
      if i :| 0 <= i < |results| && results[i].status == status { assert ran[i].status == status; }
      if i :| 0 <= i < |ran| && ran[i].status == status { assert results[i].status == status; }
    }
  }

  /**
   In a settled world reuse agrees with running: every stage a run reuses would have passed, and the run
   reports every stage, and exits, as it would have done with no record to consult.
   */
  lemma ReuseAgrees(history: seq<Setting>, n: nat, hash: Hash, verdict: string -> Status)
    requires WellRun(history) && n < |history|
    requires forall k :: 0 <= k <= n ==> Settled(history[k], hash, verdict)
    ensures var results, ran := ReportOf(history, n, hash), Report(history[n].(consult := false), map[], hash).results;
      SameVerdicts(results, ran) && ExitCode(results) == ExitCode(ran)
    ensures forall i :: 0 <= i < |ReportOf(history, n, hash)| && ReportOf(history, n, hash)[i].status == Reused
                        ==> i < |history[n].stages| && history[n].runs[i] == Passed
  {
    hide Loop, CanReuse, Settled;
    var s, record := history[n], RecordOf(history, n, hash);
    forall i | 0 <= i < |s.stages| && CanReuse(s.stages[i], s.consult, s.start, record, hash)
      ensures s.runs[i] == Passed
    {
      ReusablePasses(history, n, hash, i, verdict);
    }
    SameAsRun(s.stages, s.runs, s.consult, s.start, hash, record, map[]);
    SameExit(ReportOf(history, n, hash), Report(s.(consult := false), map[], hash).results);
    forall i | 0 <= i < |ReportOf(history, n, hash)| && ReportOf(history, n, hash)[i].status == Reused
      ensures i < |s.stages| && s.runs[i] == Passed
    {
      LoopReused(s.stages, s.runs, s.consult, s.start, hash, record, i);
    }
  }
}
