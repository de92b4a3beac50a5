/**
 The compatibility monitor's ledger: what `discover` and `record` do to it, and what `validate_state`
 asks of it.

 A row's `history` is a sequence that is empty where the stored row has none. The size budget on the
 encoded ledger is not modelled.
 */
module Ledger {
  import opened PairIdentity
  import opened Utf8
  import opened Sequences
  import opened Strings
  import opened Wrappers

  const STALE_AFTER := 72 * 60 * 60
  const MAX_HISTORY := 5

  datatype Identity = Identity(runId: string, attempt: string)

  datatype Outcome = Compatible | Broken | Unverifiable | ProbeBroken | Unsupported
  datatype RunStatus = Pass | Fail | Incomplete
  datatype ProbeRun = ProbeRun(status: RunStatus, error: string)

  datatype Tested = Tested(at: int, run: Identity, probeRevision: string, outcome: Outcome, detail: string,
                           control: Option<ProbeRun>, candidate: Option<ProbeRun>)

  datatype State = Pending | Judged(outcome: Outcome)

  datatype Row = Row(plugin: Plugin, decky: Decky, state: State, firstSeen: int, staleAlerted: Option<int>,
                     tested: Option<Tested>, history: seq<Tested>)

  datatype Ledger = Ledger(initialized: int, current: seq<string>, pairs: map<string, Row>)

  /** A result of one probe; no outcome is RETRY. */
  datatype ProbeResult = ProbeResult(key: string, probeRevision: string, outcome: Option<Outcome>, detail: string,
                                     control: Option<ProbeRun>, candidate: Option<ProbeRun>)

  datatype Error = UnknownRetest | Untestable | BadResult | NoRow

  // ---------------------------------------------------------------- validate_state

  predicate ValidNumber(s: string) {
    |s| <= 24 && Digits(s) && exists i :: 0 <= i < |s| && s[i] != '0'
  }

  predicate ValidIdentity(r: Identity) {
    ValidNumber(r.runId) && ValidNumber(r.attempt)
  }

  predicate ValidRun(r: Option<ProbeRun>) {
    r.Some? ==> |r.value.error| <= 500
  }

  predicate ValidTested(t: Tested) {
    && t.at > 0 && ValidIdentity(t.run) && Hex(t.probeRevision, 40) && |t.detail| <= 1200
    && ValidRun(t.control) && ValidRun(t.candidate)
  }

  predicate ValidRow(key: string, row: Row) {
    && IsPairKey(key)
    && ValidPlugin(row.plugin) && ValidDecky(row.decky) && PairKey(row.plugin, row.decky) == key
    && row.firstSeen > 0
    && (row.staleAlerted.Some? ==> row.staleAlerted.value > 0)
    && (row.state.Judged? <==> row.tested.Some?)
    && (row.tested.Some? ==> ValidTested(row.tested.value) && row.tested.value.outcome == row.state.outcome)
    && |row.history| <= MAX_HISTORY && forall t :: t in row.history ==> ValidTested(t)
  }

  predicate Distinct(keys: seq<string>) {
    forall i, j :: 0 <= i < j < |keys| ==> keys[i] != keys[j]
  }

  predicate ValidRows(pairs: map<string, Row>) {
    forall key :: key in pairs ==> ValidRow(key, pairs[key])
  }

  predicate Valid(l: Ledger) {
    && l.initialized > 0
    && ValidRows(l.pairs)
    && Distinct(l.current)
    && forall key :: key in l.current ==> key in l.pairs
  }

  function NewLedger(now: int): Ledger {
    Ledger(now, [], map[])
  }

  // ---------------------------------------------------------------- discover

  function With(plugin: Plugin, deckies: seq<Decky>): seq<(Plugin, Decky)> {
    if deckies == [] then [] else [(plugin, deckies[0])] + With(plugin, deckies[1..])
  }

  /** Every release with every runtime, releases first. */
  function Products(plugins: seq<Plugin>, deckies: seq<Decky>): seq<(Plugin, Decky)> {
    if plugins == [] then [] else With(plugins[0], deckies) + Products(plugins[1..], deckies)
  }

  lemma {:induction false} WithAt(plugin: Plugin, deckies: seq<Decky>)
    ensures |With(plugin, deckies)| == |deckies|
    ensures forall j :: 0 <= j < |deckies| ==> With(plugin, deckies)[j] == (plugin, deckies[j])
  {
    if deckies != [] { WithAt(plugin, deckies[1..]); }
  }

  /** The pairs stand release by release, and within one release runtime by runtime. */
  lemma {:induction false} ProductAt(plugins: seq<Plugin>, deckies: seq<Decky>, i: nat, j: nat)
    ensures |Products(plugins, deckies)| == |plugins| * |deckies|
    ensures i < |plugins| && j < |deckies| ==>
              i * |deckies| + j < |plugins| * |deckies|
              && Products(plugins, deckies)[i * |deckies| + j] == (plugins[i], deckies[j])
  {
    if plugins != [] {
      var n := |deckies|;
      WithAt(plugins[0], deckies);
      ProductAt(plugins[1..], deckies, if i > 0 then i - 1 else 0, j);
      assert |plugins| * n == n + |plugins[1..]| * n;
      if i > 0 { assert i * n == n + (i - 1) * n; }
    }
  }

  function Keys(items: seq<(Plugin, Decky)>): (r: seq<string>)
    ensures |r| == |items|
    ensures forall i :: 0 <= i < |items| ==> r[i] == PairKey(items[i].0, items[i].1)
  {
    if items == [] then [] else [PairKey(items[0].0, items[0].1)] + Keys(items[1..])
  }

  /** The rows with every item in them, a new one waiting since `now`. */
  function Track(pairs: map<string, Row>, items: seq<(Plugin, Decky)>, now: int): map<string, Row>
    decreases items
  {
    if items == [] then pairs
    else
      var key := PairKey(items[0].0, items[0].1);
      var row := Row(items[0].0, items[0].1, Pending, now, None, None, []);
      Track(if key in pairs then pairs else pairs[key := row], items[1..], now)
  }

  function Discovered(l: Ledger, items: seq<(Plugin, Decky)>, now: int): Ledger {
    Ledger(l.initialized, Keys(items), Track(l.pairs, items, now))
  }

  /** The keys a retest names, blanks around it aside. */
  function Forced(retest: string, l: Ledger): Result<set<string>, Error> {
    var named := Strip(retest);
    if named == "" then Success({})
    else if named == "current" then Success(set key | key in l.current)
    else if !IsPairKey(named) || named !in l.pairs then Failure(UnknownRetest)
    else Success({named})
  }

  predicate Due(l: Ledger, key: string)
    requires key in l.pairs
  {
    l.pairs[key].state == Pending && l.pairs[key].decky.asset.Some?
  }

  /** The current keys that wait for a test and can have one. */
  function Work(l: Ledger, keys: seq<string>): (r: seq<string>)
    requires forall key :: key in keys ==> key in l.pairs
    ensures forall key :: key in r <==> key in keys && Due(l, key)
  {
    if keys == [] then []
    else if Due(l, keys[0]) then [keys[0]] + Work(l, keys[1..]) else Work(l, keys[1..])
  }

  /** They stand in the plan in the order of the current keys. */
  lemma {:induction false} WorkInOrder(l: Ledger, keys: seq<string>) returns (at: seq<nat>)
    requires forall key :: key in keys ==> key in l.pairs
    ensures Filtered(keys, Work(l, keys), at, key => key in l.pairs && Due(l, key))
  {
    at := [];
    if keys != [] {
      at := WorkInOrder(l, keys[1..]);
      at := FilteredCons(keys[0], keys[1..], Work(l, keys[1..]), at, key => key in l.pairs && Due(l, key));
      assert [keys[0]] + keys[1..] == keys;
      assert [] + Work(l, keys[1..]) == Work(l, keys[1..]);
    }
  }

  predicate Increasing(keys: seq<string>) {
    forall i, j :: 0 <= i < j < |keys| ==> LexLess(Codes(keys[i]), Codes(keys[j]))
  }

  /** The plan for some keys: each with the identities its row holds. */
  function PlanFor(l: Ledger, keys: seq<string>): (r: seq<Pair>)
    requires forall key :: key in keys ==> key in l.pairs
    ensures |r| == |keys|
    ensures forall i :: 0 <= i < |keys| ==> r[i] == Pair(keys[i], l.pairs[keys[i]].plugin, l.pairs[keys[i]].decky)
  {
    if keys == [] then []
    else [Pair(keys[0], l.pairs[keys[0]].plugin, l.pairs[keys[0]].decky)] + PlanFor(l, keys[1..])
  }

  /** A row as discovery adds it, for one of the items. */
  predicate IsNew(key: string, row: Row, items: seq<(Plugin, Decky)>, now: int) {
    && (row.plugin, row.decky) in items
    && PairKey(row.plugin, row.decky) == key
    && row == Row(row.plugin, row.decky, Pending, now, None, None, [])
  }

  lemma {:induction false} TrackHolds(pairs: map<string, Row>, items: seq<(Plugin, Decky)>, now: int)
    ensures var r := Track(pairs, items, now);
      && (forall key :: key in pairs ==> key in r && r[key] == pairs[key])
      && (forall key :: key in Keys(items) ==> key in r)
      && (forall key :: key in r && key !in pairs ==> key in Keys(items) && IsNew(key, r[key], items, now))
    decreases items
  {
    if items != [] {
      var key := PairKey(items[0].0, items[0].1);
      var row := Row(items[0].0, items[0].1, Pending, now, None, None, []);
      TrackHolds(if key in pairs then pairs else pairs[key := row], items[1..], now);
    }
  }

  /** What a discovery that is not refused hands out: the waiting keys, then what the retest adds, in order. */
  ghost predicate IsPlan(l: Ledger, forced: set<string>, plan: seq<Pair>) {
    && (forall key :: key in l.current ==> key in l.pairs)
    && exists extra: seq<string> ::
         && Increasing(extra)
         && (set key | key in extra) == forced - (set key | key in Work(l, l.current))
         && (forall key :: key in extra ==> key in l.pairs)
         && plan == PlanFor(l, Work(l, l.current) + extra)
  }

  /** What a discovery answers on the ledger it leaves: a plan, or why the retest is refused. */
  ghost predicate DiscoverAnswers(l: Ledger, retest: string, r: Result<seq<Pair>, Error>) {
    match Forced(retest, l)
    case Failure(e) => r == Failure(e)
    case Success(forced) =>
      if exists key :: key in forced && key in l.pairs && l.pairs[key].decky.asset == None
      then r == Failure(Untestable)
      else r.Success? && IsPlan(l, forced, r.value)
  }

  lemma ProductsNext(plugins: seq<Plugin>, deckies: seq<Decky>, i: nat)
    requires i < |plugins|
    ensures Products(plugins[i..], deckies) == With(plugins[i], deckies) + Products(plugins[i + 1..], deckies)
  {
    assert plugins[i..][1..] == plugins[i + 1..];
  }

  lemma {:induction false} TrackConcat(pairs: map<string, Row>, a: seq<(Plugin, Decky)>, b: seq<(Plugin, Decky)>,
      now: int)
    ensures Track(pairs, a + b, now) == Track(Track(pairs, a, now), b, now)
    ensures Keys(a + b) == Keys(a) + Keys(b)
    decreases a
  {
    hide PairKey;
    if a == [] {
      assert a + b == b;
    } else {
      assert (a + b)[1..] == a[1..] + b;
      var key := PairKey(a[0].0, a[0].1);
      TrackConcat(if key in pairs then pairs else pairs[key := Row(a[0].0, a[0].1, Pending, now, None, None, [])],
          a[1..], b, now);
    }
  }

  lemma PlanMade(l: Ledger, forced: set<string>, extra: seq<string>)
    requires forall key :: key in l.current ==> key in l.pairs
    requires forall key :: key in forced ==> key in l.pairs
    requires Increasing(extra) && (set key | key in extra) == forced - (set key | key in Work(l, l.current))
    ensures forall key :: key in extra ==> key in l.pairs
    ensures IsPlan(l, forced, PlanFor(l, Work(l, l.current) + extra))
  {
    forall key | key in extra
      ensures key in l.pairs
    {
      var named := set k | k in extra;
      assert key in named;
      assert key in forced;
    }
  }

  // ---------------------------------------------------------------- record

  predicate ValidResult(r: ProbeResult) {
    && IsPairKey(r.key) && Hex(r.probeRevision, 40) && |r.detail| <= 1200
    && ValidRun(r.control) && ValidRun(r.candidate)
  }

  predicate Planned(plan: seq<Pair>, key: string) {
    exists i :: 0 <= i < |plan| && plan[i].key == key
  }

  /** Every result is well formed, planned, and the only one for its pair. */
  predicate Accepted(plan: seq<Pair>, results: seq<ProbeResult>) {
    && (forall i :: 0 <= i < |results| ==> ValidResult(results[i]) && Planned(plan, results[i].key))
    && forall i, j :: 0 <= i < j < |results| ==> results[i].key != results[j].key
  }

  function TestOf(r: ProbeResult, run: Identity, now: int): Tested
    requires r.outcome.Some?
  {
    Tested(now, run, r.probeRevision, r.outcome.value, r.detail, r.control, r.candidate)
  }

  function Latest(tests: seq<Tested>, n: nat): (r: seq<Tested>)
    ensures |r| <= n
  {
    if |tests| < n then tests else tests[..n]
  }

  /** A row with one more result. */
  function Judge(row: Row, t: Tested): Row {
    row.(state := Judged(t.outcome), tested := Some(t), staleAlerted := None,
         history := if row.tested.Some? then Latest([row.tested.value] + row.history, MAX_HISTORY) else row.history)
  }

  function Apply(pairs: map<string, Row>, results: seq<ProbeResult>, run: Identity, now: int)
    : Result<map<string, Row>, Error>
    decreases results
  {
    if results == [] then Success(pairs)
    else
      var r := results[0];
      if r.key !in pairs then Failure(NoRow)
      else Apply(if r.outcome.Some? then pairs[r.key := Judge(pairs[r.key], TestOf(r, run, now))] else pairs,
          results[1..], run, now)
  }

  /** A pair that has waited three days, and was not reported in the last three. */
  predicate Overdue(row: Row, now: int) {
    row.state == Pending && now - row.firstSeen >= STALE_AFTER && now - row.staleAlerted.GetOr(0) >= STALE_AFTER
  }

  /** The rows with the newly overdue pairs marked, and those pairs. */
  function Alert(pairs: map<string, Row>, current: seq<string>, now: int): (r: (map<string, Row>, seq<string>))
    requires forall key :: key in current ==> key in pairs
    decreases current
  {
    if current == [] then (pairs, [])
    else
      var key := current[0];
      if Overdue(pairs[key], now) then
        var rest := Alert(pairs[key := pairs[key].(staleAlerted := Some(now))], current[1..], now);
        (rest.0, [key] + rest.1)
      else Alert(pairs, current[1..], now)
  }

  lemma {:induction false} ApplyKeys(pairs: map<string, Row>, results: seq<ProbeResult>, run: Identity, now: int)
    requires Apply(pairs, results, run, now).Success?
    ensures Apply(pairs, results, run, now).value.Keys == pairs.Keys
    decreases results
  {
    if results != [] {
      var r := results[0];
      ApplyKeys(if r.outcome.Some? then pairs[r.key := Judge(pairs[r.key], TestOf(r, run, now))] else pairs,
          results[1..], run, now);
    }
  }

  function Recorded(l: Ledger, plan: seq<Pair>, results: seq<ProbeResult>, run: Identity, now: int)
    : Result<(Ledger, seq<string>), Error>
    requires forall key :: key in l.current ==> key in l.pairs
  {
    if !Accepted(plan, results) then Failure(BadResult)
    else
      match Apply(l.pairs, results, run, now)
      case Failure(e) => Failure(e)
      case Success(pairs) =>
        ApplyKeys(l.pairs, results, run, now);
        var (marked, overdue) := Alert(pairs, l.current, now);
        Success((Ledger(l.initialized, l.current, marked), overdue))
  }

  // ---------------------------------------------------------------- what a recording leaves of a row

  /** A test that says what a result says, of the run and the moment it was recorded in. */
  predicate AsReported(t: Tested, item: ProbeResult, run: Identity, now: int) {
    && t.at == now && t.run == run
    && t.probeRevision == item.probeRevision && item.outcome == Some(t.outcome) && t.detail == item.detail
    && t.control == item.control && t.candidate == item.candidate
  }

  /** A row after a result with an outcome: the result as its test, the test before at the head of its history. */
  predicate RowRecorded(row: Row, next: Row, item: ProbeResult, run: Identity, now: int) {
    && next.plugin == row.plugin && next.decky == row.decky && next.firstSeen == row.firstSeen
    && next.tested.Some? && AsReported(next.tested.value, item, run, now)
    && next.state == State.Judged(next.tested.value.outcome) && next.staleAlerted == None
    && next.history ==
       if row.tested.None? then row.history
       else [row.tested.value] + if |row.history| < 5 then row.history else row.history[..4]
  }

  /** What a recording leaves of the rows its results name with an outcome. */
  predicate AllRecorded(before: map<string, Row>, after: map<string, Row>, results: seq<ProbeResult>, run: Identity,
                        now: int) {
    forall i :: 0 <= i < |results| && results[i].outcome.Some? ==>
      && results[i].key in before && results[i].key in after
      && RowRecorded(before[results[i].key], after[results[i].key], results[i], run, now)
  }

  lemma {:induction false} ApplyElse(pairs: map<string, Row>, results: seq<ProbeResult>, run: Identity, now: int,
                                       key: string)
    requires Apply(pairs, results, run, now).Success? && key in pairs
    requires forall i :: 0 <= i < |results| ==> results[i].key != key
    ensures key in Apply(pairs, results, run, now).value && Apply(pairs, results, run, now).value[key] == pairs[key]
    decreases results
  {
    hide Judge, TestOf;
    if results != [] {
      var r := results[0];
      ApplyElse(if r.outcome.Some? then pairs[r.key := Judge(pairs[r.key], TestOf(r, run, now))] else pairs,
                results[1..], run, now, key);
    }
  }

  lemma {:induction false} ApplyHere(pairs: map<string, Row>, results: seq<ProbeResult>, run: Identity, now: int,
                                       i: nat)
    requires Apply(pairs, results, run, now).Success? && i < |results| && results[i].outcome.Some?
    requires forall j, k :: 0 <= j < k < |results| ==> results[j].key != results[k].key
    ensures var after := Apply(pairs, results, run, now).value;
      && results[i].key in pairs && results[i].key in after
      && after[results[i].key] == Judge(pairs[results[i].key], TestOf(results[i], run, now))
    decreases results
  {
    hide Judge, TestOf;
    var r := results[0];
    var next := if r.outcome.Some? then pairs[r.key := Judge(pairs[r.key], TestOf(r, run, now))] else pairs;
    if i == 0 {
      forall k | 0 <= k < |results[1..]|
        ensures results[1..][k].key != r.key
      {
        assert results[1..][k] == results[k + 1];
      }
      ApplyElse(next, results[1..], run, now, r.key);
    } else {
      ApplyHere(next, results[1..], run, now, i - 1);
    }
  }

  lemma {:induction false} AlertElse(pairs: map<string, Row>, current: seq<string>, now: int, key: string)
    requires key in pairs && pairs[key].state.Judged? && forall k :: k in current ==> k in pairs
    ensures key in Alert(pairs, current, now).0 && Alert(pairs, current, now).0[key] == pairs[key]
    decreases current
  {
    if current != [] {
      var k := current[0];
      AlertElse(if Overdue(pairs[k], now) then pairs[k := pairs[k].(staleAlerted := Some(now))] else pairs,
                current[1..], now, key);
    }
  }

  /** The pairs reported as waiting too long are those of the current ones that do, in their order. */
  lemma {:induction false} AlertInOrder(pairs: map<string, Row>, current: seq<string>, now: int) returns (at: seq<nat>)
    requires Distinct(current) && forall key :: key in current ==> key in pairs
    ensures Filtered(current, Alert(pairs, current, now).1, at, key => key in pairs && Overdue(pairs[key], now))
    decreases current
  {
    at := [];
    if current != [] {
      var key, rest := current[0], current[1..];
      var next := if Overdue(pairs[key], now) then pairs[key := pairs[key].(staleAlerted := Some(now))] else pairs;
      at := AlertInOrder(next, rest, now);
      assert forall i :: 0 <= i < |rest| ==> rest[i] == current[i + 1] && rest[i] != key;
      var overdue := Alert(next, rest, now).1;
      assert Filtered(rest, overdue, at, k => k in pairs && Overdue(pairs[k], now));
      at := FilteredCons(key, rest, overdue, at, k => k in pairs && Overdue(pairs[k], now));
      assert [key] + rest == current && [] + overdue == overdue;
    }
  }

  /** A recording puts every result with an outcome on its pair's row, field by field. */
  lemma RecordedFields(l: Ledger, plan: seq<Pair>, results: seq<ProbeResult>, run: Identity, now: int)
    requires forall key :: key in l.current ==> key in l.pairs
    requires Recorded(l, plan, results, run, now).Success?
    ensures AllRecorded(l.pairs, Recorded(l, plan, results, run, now).value.0.pairs, results, run, now)
  {
    hide ValidResult, Planned, Apply, Alert;
    var judged := Apply(l.pairs, results, run, now).value;
    ApplyKeys(l.pairs, results, run, now);
    forall i | 0 <= i < |results| && results[i].outcome.Some?
      ensures results[i].key in l.pairs && results[i].key in Recorded(l, plan, results, run, now).value.0.pairs
      ensures RowRecorded(l.pairs[results[i].key], Recorded(l, plan, results, run, now).value.0.pairs[results[i].key],
                          results[i], run, now)
    {
      ApplyHere(l.pairs, results, run, now, i);
      AlertElse(judged, l.current, now, results[i].key);
      JudgeRecords(l.pairs[results[i].key], results[i], run, now);
    }
  }

  lemma JudgeRecords(row: Row, item: ProbeResult, run: Identity, now: int)
    requires item.outcome.Some?
    ensures RowRecorded(row, Judge(row, TestOf(item, run, now)), item, run, now)
    ensures Judge(row, TestOf(item, run, now)).state.Judged?
  {
  }

  // ---------------------------------------------------------------- the ledger in place

  /** The ledger as the coordinator holds it, changed in place. */
  class Monitor {
    var initialized: int
    var current: seq<string>
    var pairs: map<string, Row>

    constructor (l: Ledger)
      ensures Contents() == l
    {
      initialized, current, pairs := l.initialized, l.current, l.pairs;
    }

    function Contents(): Ledger
      reads this
    {
      Ledger(initialized, current, pairs)
    }

    /** Adds a waiting row for every pair of one release not yet in the ledger, and its keys to `keys`. */
    method TrackRelease(plugin: Plugin, deckies: seq<Decky>, now: int, keys: seq<string>) returns (r: seq<string>)
      modifies `pairs
      ensures pairs == Track(old(pairs), With(plugin, deckies), now)
      ensures r == keys + Keys(With(plugin, deckies))
    {
      hide PairKey;
      r := keys;
      for j := 0 to |deckies|
        invariant Track(pairs, With(plugin, deckies[j..]), now) == Track(old(pairs), With(plugin, deckies), now)
        invariant r + Keys(With(plugin, deckies[j..])) == keys + Keys(With(plugin, deckies))
      {
        assert deckies[j..][1..] == deckies[j + 1..];
        assert With(plugin, deckies[j..])[1..] == With(plugin, deckies[j + 1..]);
        var key := PairKey(plugin, deckies[j]);
        ConcatAssociates(r, [key], Keys(With(plugin, deckies[j + 1..])));
        r := r + [key];
        if key !in pairs {
          pairs := pairs[key := Row(plugin, deckies[j], Pending, now, None, None, [])];
        }
      }
      assert deckies[|deckies|..] == [];
    }

    /** Adds a waiting row for every pair not yet in the ledger, and makes the pairs current. */
    method TrackCurrent(plugins: seq<Plugin>, deckies: seq<Decky>, now: int)
      modifies `pairs, `current
      ensures pairs == Track(old(pairs), Products(plugins, deckies), now)
      ensures current == Keys(Products(plugins, deckies))
    {
      var keys: seq<string> := [];
      ghost var items := Products(plugins, deckies);
      for i := 0 to |plugins|
        invariant Track(pairs, Products(plugins[i..], deckies), now) == Track(old(pairs), items, now)
        invariant keys + Keys(Products(plugins[i..], deckies)) == Keys(items)
      {
        ghost var here, after := With(plugins[i], deckies), Products(plugins[i + 1..], deckies);
        ProductsNext(plugins, deckies, i);
        TrackConcat(pairs, here, after, now);
        ConcatAssociates(keys, Keys(here), Keys(after));
        keys := TrackRelease(plugins[i], deckies, now, keys);
      }
      assert plugins[|plugins|..] == [];
      current := keys;
    }

    method Discover(plugins: seq<Plugin>, deckies: seq<Decky>, now: int, retest: string)
      returns (r: Result<seq<Pair>, Error>)
      modifies this
      ensures Contents() == Discovered(old(Contents()), Products(plugins, deckies), now)
      ensures DiscoverAnswers(Contents(), retest, r)
    {
      hide DiscoverAnswers;
      TrackCurrent(plugins, deckies, now);
      TrackHolds(old(pairs), Products(plugins, deckies), now);
      r := Answer(retest);
    }

    /** The plan for the ledger as it stands, or why the retest is refused. */
    method Answer(retest: string) returns (r: Result<seq<Pair>, Error>)
      requires forall key :: key in current ==> key in pairs
      ensures DiscoverAnswers(Contents(), retest, r)
    {
      hide Work, PlanFor, Track, IsPlan, Increasing, Products, IsPairKey, Strip;
      var forced := Forced(retest, Contents());
      if forced.Failure? {
        return Failure(forced.error);
      }
      if exists key :: key in forced.value && pairs[key].decky.asset == None {
        return Failure(Untestable);
      }
      var work := Work(Contents(), current);
      var extra := SortKeys(forced.value - set key | key in work);
      PlanMade(Contents(), forced.value, extra);
      r := Success(PlanFor(Contents(), work + extra));
    }

    method Record(plan: seq<Pair>, results: seq<ProbeResult>, run: Identity, now: int)
      returns (r: Result<seq<string>, Error>)
      requires forall key :: key in current ==> key in pairs
      modifies this
      ensures match Recorded(old(Contents()), plan, results, run, now)
        case Failure(e) => r == Failure(e)
        case Success((l, overdue)) => r == Success(overdue) && Contents() == l
      ensures r.Success? ==> AllRecorded(old(pairs), pairs, results, run, now)
    {
      hide ValidResult, Planned, Overdue;
      for i := 0 to |results|
        invariant forall k :: 0 <= k < i ==> ValidResult(results[k]) && Planned(plan, results[k].key)
        invariant forall j, k :: 0 <= j < k < i ==> results[j].key != results[k].key
      {
        if !ValidResult(results[i]) || !Planned(plan, results[i].key)
           || (exists k :: 0 <= k < i && results[k].key == results[i].key) {
          return Failure(BadResult);
        }
      }
      ghost var before := pairs;
      for i := 0 to |results|
        invariant initialized == old(initialized) && current == old(current)
        invariant Apply(before, results, run, now) == Apply(pairs, results[i..], run, now)
      {
        assert results[i..][1..] == results[i + 1..];
        var item := results[i];
        if item.key !in pairs {
          return Failure(NoRow);
        }
        if item.outcome.Some? {
          var row := pairs[item.key];
          var tested := TestOf(item, run, now);
          var history := if row.tested.Some? then Latest([row.tested.value] + row.history, MAX_HISTORY)
              else row.history;
          row := row.(history := history);
          row := row.(state := Judged(item.outcome.value), tested := Some(tested));
          pairs := pairs[item.key := row.(staleAlerted := None)];
        }
      }
      assert results[|results|..] == [];
      ApplyKeys(before, results, run, now);
      var overdue: seq<string> := [];
      ghost var judged := pairs;
      assert [] + Alert(judged, current, now).1 == Alert(judged, current, now).1;
      for i := 0 to |current|
        invariant initialized == old(initialized) && current == old(current) && pairs.Keys == judged.Keys
        invariant Alert(judged, current, now)
            == (Alert(pairs, current[i..], now).0, overdue + Alert(pairs, current[i..], now).1)
      {
        assert current[i..][1..] == current[i + 1..];
        assert current[i] in current;
        var row := pairs[current[i]];
        if Overdue(row, now) {
          pairs := pairs[current[i] := row.(staleAlerted := Some(now))];
          ghost var rest := Alert(pairs, current[i + 1..], now).1;
          assert overdue + ([current[i]] + rest) == overdue + [current[i]] + rest;
          overdue := overdue + [current[i]];
        }
      }
      assert current[|current|..] == [];
      assert overdue + [] == overdue;
      r := Success(overdue);
      RecordedFields(old(Contents()), plan, results, run, now);
    }
  }

  /** A set of keys as an increasing list. */
  method SortKeys(keys: set<string>) returns (r: seq<string>)
    ensures Increasing(r)
    ensures (set key | key in r) == keys
  {
    r := [];
    var left := keys;
    while left != {}
      invariant Increasing(r)
      invariant (set key | key in r) + left == keys
      invariant forall a, b :: a in r && b in left ==> LexLess(Codes(a), Codes(b))
      decreases left
    {
      var least := Least(left);
      forall b | b in left && b != least
        ensures LexLess(Codes(least), Codes(b))
      {
        CodesOrder(least, b);
      }
      r := r + [least];
      left := left - {least};
    }
  }

  lemma CodesOrder(a: string, b: string)
    requires a != b && !LexLess(Codes(b), Codes(a))
    ensures LexLess(Codes(a), Codes(b))
  {
    LexLessTotal(Codes(a), Codes(b));
    if Codes(a) == Codes(b) {
      CodesInjective(a, b);
    }
  }

  method Least(keys: set<string>) returns (least: string)
    requires keys != {}
    ensures least in keys
    ensures forall b :: b in keys ==> !LexLess(Codes(b), Codes(least))
  {
    least :| least in keys;
    LexLessIrreflexive(Codes(least));
    var rest := keys - {least};
    while rest != {}
      invariant least in keys && rest <= keys
      invariant forall b :: b in keys - rest ==> !LexLess(Codes(b), Codes(least))
      decreases rest
    {
      var b :| b in rest;
      rest := rest - {b};
      if LexLess(Codes(b), Codes(least)) {
        forall c | c in keys - rest
          ensures !LexLess(Codes(c), Codes(b))
        {
          if c != b {
            if LexLess(Codes(c), Codes(b)) { LexLessTransitive(Codes(c), Codes(b), Codes(least)); }
          } else {
            LexLessIrreflexive(Codes(b));
          }
        }
        least := b;
      }
    }
  }
}
