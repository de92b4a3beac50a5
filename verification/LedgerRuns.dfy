/**
 What every run of discoveries and recordings keeps of the compatibility ledger.
 */
module LedgerRuns {
  import opened Ledger
  import opened PairIdentity
  import opened Strings
  import Sequences
  import Utf8
  import opened Wrappers

  /** Identities as the coordinator hands them to a discovery: read from releases and checked. */
  predicate ValidItems(items: seq<(Plugin, Decky)>) {
    forall i :: 0 <= i < |items| ==> ValidPlugin(items[i].0) && ValidDecky(items[i].1)
  }

  // ---------------------------------------------------------------- discover keeps the ledger valid

  lemma NewRowValid(key: string, row: Row, items: seq<(Plugin, Decky)>, now: int)
    requires IsNew(key, row, items, now) && ValidItems(items) && now > 0
    ensures ValidRow(key, row)
  {
    var i :| 0 <= i < |items| && items[i] == (row.plugin, row.decky);
    assert ValidPlugin(items[i].0) && ValidDecky(items[i].1);
    ValidHasKey(row.plugin, row.decky);
  }

  /**
   A discovery keeps the ledger valid exactly when the pairs it finds have different keys. When two
   have one key, the list of current keys repeats it, and the save is refused.
   */
  lemma DiscoverValidExactly(l: Ledger, items: seq<(Plugin, Decky)>, now: int)
    requires Valid(l) && ValidItems(items) && now > 0
    ensures Valid(Discovered(l, items, now)) <==> Distinct(Keys(items))
  {
    hide ValidRow;
    TrackHolds(l.pairs, items, now);
    var pairs := Track(l.pairs, items, now);
    forall key | key in pairs
      ensures ValidRow(key, pairs[key])
    {
      if key !in l.pairs {
        NewRowValid(key, pairs[key], items, now);
      }
    }
  }

  // ---------------------------------------------------------------- what one recording does to a row

  /** The result a recording holds for a key. */
  function ResultFor(results: seq<ProbeResult>, key: string): Option<ProbeResult> {
    if results == [] then None
    else if results[0].key == key then Some(results[0]) else ResultFor(results[1..], key)
  }

  /** The test a recording adds to a pair, if its result is not RETRY. */
  function TestFor(results: seq<ProbeResult>, key: string, run: Identity, now: int): Option<Tested> {
    match ResultFor(results, key)
    case None => None
    case Some(r) => if r.outcome.Some? then Some(TestOf(r, run, now)) else None
  }

  function Judged(row: Row, t: Option<Tested>): Row {
    if t.Some? then Judge(row, t.value) else row
  }

  function Marked(row: Row, now: int): Row {
    if Overdue(row, now) then row.(staleAlerted := Some(now)) else row
  }

  predicate Once(results: seq<ProbeResult>) {
    forall i, j :: 0 <= i < j < |results| ==> results[i].key != results[j].key
  }

  lemma {:induction false} NoResult(results: seq<ProbeResult>, key: string)
    requires forall i :: 0 <= i < |results| ==> results[i].key != key
    ensures ResultFor(results, key) == None
  {
    if results != [] {
      NoResult(results[1..], key);
    }
  }

  lemma {:induction false} ApplyRow(pairs: map<string, Row>, results: seq<ProbeResult>, run: Identity, now: int,
      key: string)
    requires Once(results) && key in pairs
    requires Apply(pairs, results, run, now).Success?
    ensures var after := Apply(pairs, results, run, now).value;
      key in after && after[key] == Judged(pairs[key], TestFor(results, key, run, now))
    decreases results
  {
    hide Judge, TestOf;
    if results != [] {
      var r := results[0];
      var next := if r.outcome.Some? then pairs[r.key := Judge(pairs[r.key], TestOf(r, run, now))] else pairs;
      if r.key == key {
        NoResult(results[1..], key);
      }
      ApplyRow(next, results[1..], run, now, key);
    }
  }

  lemma {:induction false} AlertRow(pairs: map<string, Row>, current: seq<string>, now: int, key: string)
    requires Distinct(current) && key in pairs
    requires forall k :: k in current ==> k in pairs
    ensures var r := Alert(pairs, current, now);
      && r.0.Keys == pairs.Keys
      && r.0[key] == (if key in current then Marked(pairs[key], now) else pairs[key])
      && (key in r.1 <==> key in current && Overdue(pairs[key], now))
    decreases current
  {
    hide Overdue;
    if current != [] {
      var k := current[0];
      var next := if Overdue(pairs[k], now) then pairs[k := pairs[k].(staleAlerted := Some(now))] else pairs;
      assert k !in current[1..];
      assert forall x :: x in current[1..] ==> x in current;
      AlertRow(next, current[1..], now, key);
    }
  }

  /** One recording, seen at one pair: its result judged, then marked if it is overdue. */
  lemma RecordRow(l: Ledger, plan: seq<Pair>, results: seq<ProbeResult>, run: Identity, now: int, key: string)
    requires Distinct(l.current) && (forall k :: k in l.current ==> k in l.pairs)
    requires Recorded(l, plan, results, run, now).Success? && key in l.pairs
    ensures var (after, overdue) := Recorded(l, plan, results, run, now).value;
      var row := Judged(l.pairs[key], TestFor(results, key, run, now));
      && after.initialized == l.initialized && after.current == l.current && after.pairs.Keys == l.pairs.Keys
      && after.pairs[key] == (if key in l.current then Marked(row, now) else row)
      && (key in overdue <==> key in l.current && Overdue(row, now))
  {
    hide Apply, Alert, Judge, TestOf, ValidResult, Planned;
    var pairs := Apply(l.pairs, results, run, now).value;
    ApplyKeys(l.pairs, results, run, now);
    ApplyRow(l.pairs, results, run, now, key);
    AlertRow(pairs, l.current, now, key);
  }

  lemma {:induction false} ResultIsOne(results: seq<ProbeResult>, key: string)
    ensures ResultFor(results, key).Some?
            ==> ResultFor(results, key).value in results && ResultFor(results, key).value.key == key
  {
    if results != [] {
      ResultIsOne(results[1..], key);
    }
  }

  lemma JudgedValid(key: string, row: Row, t: Tested)
    requires ValidRow(key, row) && ValidTested(t)
    ensures ValidRow(key, Judge(row, t))
  {
    hide ValidTested, ValidPlugin, ValidDecky, IsPairKey, PairKey;
    if row.tested.Some? {
      var all := [row.tested.value] + row.history;
      forall x | x in Latest(all, MAX_HISTORY)
        ensures ValidTested(x)
      {
        assert x in all;
      }
    }
  }

  /** A recording that is not refused keeps the ledger valid. */
  lemma RecordValid(l: Ledger, plan: seq<Pair>, results: seq<ProbeResult>, run: Identity, now: int)
    requires Valid(l) && ValidIdentity(run) && now > 0
    requires Recorded(l, plan, results, run, now).Success?
    ensures Valid(Recorded(l, plan, results, run, now).value.0)
  {
    hide Recorded, ValidRow, Judge, Overdue;
    var after := Recorded(l, plan, results, run, now).value.0;
    RecordKeys(l, plan, results, run, now);
    forall key | key in l.pairs
      ensures ValidRow(key, after.pairs[key])
    {
      RecordRow(l, plan, results, run, now, key);
      RecordRowValid(l, plan, results, run, now, key);
    }
  }

  lemma RecordKeys(l: Ledger, plan: seq<Pair>, results: seq<ProbeResult>, run: Identity, now: int)
    requires Distinct(l.current) && (forall k :: k in l.current ==> k in l.pairs)
    requires Recorded(l, plan, results, run, now).Success?
    ensures var after := Recorded(l, plan, results, run, now).value.0;
      after.initialized == l.initialized && after.current == l.current && after.pairs.Keys == l.pairs.Keys
  {
    hide ValidResult, Planned, Judge, TestOf;
    var pairs := Apply(l.pairs, results, run, now).value;
    ApplyKeys(l.pairs, results, run, now);
    AlertKeys(pairs, l.current, now);
  }

  lemma {:induction false} AlertKeys(pairs: map<string, Row>, current: seq<string>, now: int)
    requires forall k :: k in current ==> k in pairs
    ensures Alert(pairs, current, now).0.Keys == pairs.Keys
    decreases current
  {
    if current != [] {
      var k := current[0];
      AlertKeys(if Overdue(pairs[k], now) then pairs[k := pairs[k].(staleAlerted := Some(now))] else pairs,
          current[1..], now);
    }
  }

  lemma RecordRowValid(l: Ledger, plan: seq<Pair>, results: seq<ProbeResult>, run: Identity, now: int, key: string)
    requires forall k :: k in l.current ==> k in l.pairs
    requires Recorded(l, plan, results, run, now).Success?
    requires key in l.pairs && ValidRow(key, l.pairs[key]) && ValidIdentity(run) && now > 0
    ensures var row := Judged(l.pairs[key], TestFor(results, key, run, now));
      ValidRow(key, row) && ValidRow(key, Marked(row, now))
  {
    hide IsPairKey, PairKey, ValidPlugin, ValidDecky, Apply, Alert, Planned;
    ResultIsOne(results, key);
    var t := TestFor(results, key, run, now);
    if t.Some? {
      var r := ResultFor(results, key).value;
      assert ValidResult(r);
      JudgedValid(key, l.pairs[key], t.value);
    }
  }

  // ---------------------------------------------------------------- what a plan holds

  lemma {:induction false} WorkDistinct(l: Ledger, keys: seq<string>)
    requires forall key :: key in keys ==> key in l.pairs
    requires Distinct(keys)
    ensures Distinct(Work(l, keys))
  {
    if keys != [] {
      assert forall i :: 0 <= i < |keys| - 1 ==> keys[1..][i] == keys[i + 1];
      WorkDistinct(l, keys[1..]);
      assert keys[0] !in keys[1..];
    }
  }

  lemma IncreasingDistinct(keys: seq<string>)
    requires Increasing(keys)
    ensures Distinct(keys)
  {
    forall i, j | 0 <= i < j < |keys|
      ensures keys[i] != keys[j]
    {
      Sequences.LexLessIrreflexive(Utf8.Codes(keys[i]));
    }
  }

  lemma PlanKeys(l: Ledger, keys: seq<string>)
    requires forall key :: key in keys ==> key in l.pairs
    requires Distinct(keys) && ValidRows(l.pairs)
    requires forall key :: key in keys ==> l.pairs[key].decky.asset.Some?
    ensures var plan := PlanFor(l, keys);
      && (forall i, j :: 0 <= i < j < |plan| ==> plan[i].key != plan[j].key)
      && (forall i :: 0 <= i < |plan| ==> ValidPair(plan[i]))
      && (forall key :: Planned(plan, key) <==> key in keys)
  {
    hide ValidPlugin, ValidDecky, PairKey;
    var plan := PlanFor(l, keys);
    forall i | 0 <= i < |plan|
      ensures ValidPair(plan[i])
    {
      assert keys[i] in keys;
      assert ValidRow(keys[i], l.pairs[keys[i]]);
    }
    forall key
      ensures Planned(plan, key) <==> key in keys
    {
      if key in keys {
        var i :| 0 <= i < |keys| && keys[i] == key;
        assert plan[i].key == key;
      }
    }
  }

  lemma WorkAndExtra(l: Ledger, forced: set<string>, extra: seq<string>)
    requires Valid(l) && Increasing(extra)
    requires (set key | key in extra) == forced - (set key | key in Work(l, l.current))
    ensures Distinct(Work(l, l.current) + extra)
    ensures forall key :: key in Work(l, l.current) + extra <==> key in Work(l, l.current) || key in forced
  {
    hide Increasing, Work, Distinct, ValidRow;
    var work := Work(l, l.current);
    var added := set key | key in extra;
    assert forall key :: key in extra <==> key in added;
    WorkDistinct(l, l.current);
    IncreasingDistinct(extra);
    DistinctConcat(work, extra);
  }

  lemma DistinctConcat(a: seq<string>, b: seq<string>)
    requires Distinct(a) && Distinct(b) && forall key :: key in b ==> key !in a
    ensures Distinct(a + b)
  {
    forall i, j | 0 <= i < j < |a + b|
      ensures (a + b)[i] != (a + b)[j]
    {
      if i < |a| <= j {
        assert b[j - |a|] in b && a[i] in a;
      }
    }
  }

  /**
   A plan handed out on a valid ledger names no pair twice, holds only pairs `record` accepts, and
   names exactly the current pairs that wait and can be tested, and what the retest asked for.
   */
  lemma PlanSound(l: Ledger, forced: set<string>, plan: seq<Pair>)
    requires Valid(l) && IsPlan(l, forced, plan)
    requires forall key :: key in forced ==> key in l.pairs && l.pairs[key].decky.asset.Some?
    ensures forall i, j :: 0 <= i < j < |plan| ==> plan[i].key != plan[j].key
    ensures forall i :: 0 <= i < |plan| ==> ValidPair(plan[i])
    ensures forall key :: Planned(plan, key) <==>
              (key in l.current && l.pairs[key].state == Pending && l.pairs[key].decky.asset.Some?) || key in forced
  {
    hide ValidRow, Increasing, ValidPair;
    var extra: seq<string> :|
      && Increasing(extra)
      && (set key | key in extra) == forced - (set key | key in Work(l, l.current))
      && (forall key :: key in extra ==> key in l.pairs)
      && plan == PlanFor(l, Work(l, l.current) + extra);
    WorkAndExtra(l, forced, extra);
    PlanKeys(l, Work(l, l.current) + extra);
  }

  /** What the text of a retest asks for, once the blanks around it are gone. */
  predicate Asked(l: Ledger, named: string, key: string) {
    (named == "current" && key in l.current) || (named != "" && named != "current" && key == named)
  }

  /**
   What a discovery hands out, from the retest's text: refused exactly when it names no pair of the ledger, or
   one whose runtime has no executable; otherwise the current pairs that wait and have one, and those asked for.
   */
  lemma PlanExactly(l: Ledger, retest: string, r: Result<seq<Pair>, Error>)
    requires Valid(l) && DiscoverAnswers(l, retest, r)
    ensures var named := Strip(retest);
      && (r.Failure? <==> exists key :: Asked(l, named, key) && (key !in l.pairs || l.pairs[key].decky.asset.None?))
      && (r.Success? ==> forall key :: Planned(r.value, key) <==>
            || (key in l.current && l.pairs[key].state == Pending && l.pairs[key].decky.asset.Some?)
            || Asked(l, named, key))
  {
    hide ValidRow, IsPlan, Planned;
    var named := Strip(retest);
    if named in l.pairs { RowKey(named, l.pairs[named]); }
    hide IsPairKey, Strip;
    if Forced(retest, l).Success? {
      var forced := Forced(retest, l).value;
      assert forall key :: key in forced <==> Asked(l, named, key);
      if r.Success? { PlanSound(l, forced, r.value); }
    } else {
      assert Asked(l, named, named);
    }
  }

  lemma RowKey(key: string, row: Row)
    requires ValidRow(key, row)
    ensures IsPairKey(key)
  {
  }

  /** A pair that already has a result is planned only when the retest named it. */
  lemma JudgedOnlyForced(l: Ledger, forced: set<string>, plan: seq<Pair>, key: string)
    requires Valid(l) && IsPlan(l, forced, plan)
    requires forall key :: key in forced ==> key in l.pairs && l.pairs[key].decky.asset.Some?
    requires Planned(plan, key)
    ensures key in l.pairs && (l.pairs[key].state.Judged? ==> key in forced)
  {
    PlanSound(l, forced, plan);
  }

  // ---------------------------------------------------------------- runs

  /** What one coordinator does to the ledger: discover pairs, or record results. */
  datatype Event =
    | Discovery(items: seq<(Plugin, Decky)>, now: int)
    | Recording(plan: seq<Pair>, results: seq<ProbeResult>, run: Identity, now: int)

  /** What the command line establishes before it touches the ledger. */
  predicate Sensible(e: Event) {
    e.now > 0 &&
    match e
    case Discovery(items, _) => ValidItems(items)
    case Recording(_, _, run, _) => ValidIdentity(run)
  }

  predicate WellIndexed(l: Ledger) {
    Distinct(l.current) && forall k :: k in l.current ==> k in l.pairs
  }

  /** The ledger an event leaves, unless it is refused; the save refuses an invalid one. */
  function After(l: Ledger, e: Event): (r: Option<Ledger>)
    requires WellIndexed(l)
    ensures r.Some? ==> Valid(r.value)
  {
    match e
    case Discovery(items, now) =>
      var next := Discovered(l, items, now);
      if Valid(next) then Some(next) else None
    case Recording(plan, results, run, now) =>
      match Recorded(l, plan, results, run, now)
      case Failure(_) => None
      case Success((next, _)) => if Valid(next) then Some(next) else None
  }

  /** The ledger after a run of saved events, from a new one. */
  function Run(start: int, events: seq<Event>): (r: Option<Ledger>)
    ensures r.Some? ==> Valid(r.value)
  {
    if start <= 0 then None
    else if events == [] then Some(NewLedger(start))
    else
      match Run(start, events[..|events| - 1])
      case None => None
      case Some(l) => After(l, events[|events| - 1])
  }

  /** The save refuses an event for its ledger's sake only when a discovery finds two pairs with one key. */
  lemma SaveRefusesExactly(l: Ledger, e: Event)
    requires Valid(l) && Sensible(e)
    ensures After(l, e) == None <==>
      match e
      case Discovery(items, _) => !Distinct(Keys(items))
      case Recording(plan, results, run, now) => Recorded(l, plan, results, run, now).Failure?
  {
    match e
    case Discovery(items, now) => DiscoverValidExactly(l, items, now);
    case Recording(plan, results, run, now) =>
      if Recorded(l, plan, results, run, now).Success? {
        RecordValid(l, plan, results, run, now);
      }
  }

  /** No event takes a row away, changes what it is about, or makes a judged pair wait again. */
  lemma RowsStay(l: Ledger, e: Event, key: string)
    requires WellIndexed(l) && After(l, e).Some? && key in l.pairs
    ensures key in After(l, e).value.pairs
    ensures var row, next := l.pairs[key], After(l, e).value.pairs[key];
      && next.plugin == row.plugin && next.decky == row.decky && next.firstSeen == row.firstSeen
      && (row.state.Judged? ==> next.state.Judged?)
  {
    match e
    case Discovery(items, now) => TrackHolds(l.pairs, items, now);
    case Recording(plan, results, run, now) => RecordRow(l, plan, results, run, now, key);
  }

  /** The test an event adds to a pair. */
  function TestIn(e: Event, key: string): Option<Tested> {
    match e
    case Discovery(_, _) => None
    case Recording(_, results, run, now) => TestFor(results, key, run, now)
  }

  /** Every result a run recorded for a pair, newest first. */
  function Log(events: seq<Event>, key: string): seq<Tested> {
    if events == [] then []
    else
      var earlier := Log(events[..|events| - 1], key);
      match TestIn(events[|events| - 1], key)
      case None => earlier
      case Some(t) => [t] + earlier
  }

  /** The results a row keeps, newest first. */
  function Kept(row: Row): seq<Tested> {
    if row.tested.Some? then [row.tested.value] + row.history else []
  }

  lemma LatestPush(t: Tested, log: seq<Tested>)
    ensures [t] + Latest(Latest(log, MAX_HISTORY + 1), MAX_HISTORY) == Latest([t] + log, MAX_HISTORY + 1)
  {
  }

  lemma JudgeKeeps(row: Row, t: Tested, log: seq<Tested>)
    requires Kept(row) == Latest(log, MAX_HISTORY + 1)
    requires row.tested == None ==> row.history == []
    ensures Kept(Judge(row, t)) == Latest([t] + log, MAX_HISTORY + 1)
  {
    LatestPush(t, log);
  }

  /** A ledger that holds for a pair the newest six of these results, and lets it wait while there is none. */
  predicate KeepsNewest(l: Ledger, key: string, log: seq<Tested>) {
    if key !in l.pairs then log == []
    else
      && Kept(l.pairs[key]) == Latest(log, MAX_HISTORY + 1)
      && (l.pairs[key].tested == None ==> l.pairs[key].history == [])
      && (l.pairs[key].state == Pending <==> log == [])
  }

  lemma NewestStep(l: Ledger, e: Event, key: string, log: seq<Tested>)
    requires WellIndexed(l) && After(l, e).Some? && KeepsNewest(l, key, log)
    ensures KeepsNewest(After(l, e).value, key, match TestIn(e, key) case None => log case Some(t) => [t] + log)
  {
    hide Valid;
    match e
    case Discovery(items, now) => TrackHolds(l.pairs, items, now);
    case Recording(plan, results, run, now) =>
      hide Recorded;
      RecordKeys(l, plan, results, run, now);
      if key in l.pairs {
        RecordRow(l, plan, results, run, now, key);
        if TestIn(e, key).Some? {
          JudgeKeeps(l.pairs[key], TestIn(e, key).value, log);
        }
      } else {
        UnrecordedUntested(l, plan, results, run, now, key);
      }
  }

  lemma UnrecordedUntested(l: Ledger, plan: seq<Pair>, results: seq<ProbeResult>, run: Identity, now: int, key: string)
    requires WellIndexed(l) && key !in l.pairs
    requires Recorded(l, plan, results, run, now).Success?
    ensures TestFor(results, key, run, now) == None
  {
    hide Alert, ValidResult, Planned;
    UnknownKeyUntested(l.pairs, results, run, now, key);
  }

  /**
   At every point of every run, a pair's row holds the newest six results ever recorded for it, newest
   first, and it waits exactly while there is none.
   */
  lemma {:induction false} NewestSix(start: int, events: seq<Event>, key: string)
    requires Run(start, events).Some?
    ensures KeepsNewest(Run(start, events).value, key, Log(events, key))
    decreases |events|
  {
    if events != [] {
      hide After, KeepsNewest, TestIn;
      var earlier := events[..|events| - 1];
      NewestSix(start, earlier, key);
      NewestStep(Run(start, earlier).value, events[|events| - 1], key, Log(earlier, key));
    }
  }

  /** A result with an outcome, as a run recorded it. */
  datatype Given = Given(result: ProbeResult, run: Identity, at: int)

  /** One of the events records this result for this pair. */
  ghost predicate GivenBy(e: Event, key: string, g: Given) {
    && e.Recording? && g.result in e.results && g.result.key == key && g.result.outcome.Some?
    && g.run == e.run && g.at == e.now
  }

  /** Every result with an outcome that some events record for a pair, newest first. */
  ghost predicate AllGiven(events: seq<Event>, key: string, givens: seq<Given>) {
    if events == [] then givens == []
    else
      var earlier, e := events[..|events| - 1], events[|events| - 1];
      if exists g :: GivenBy(e, key, g) then
        givens != [] && GivenBy(e, key, givens[0]) && AllGiven(earlier, key, givens[1..])
      else AllGiven(earlier, key, givens)
  }

  /** The tests are those results, in the same order, each saying what its result says. */
  predicate Say(tests: seq<Tested>, givens: seq<Given>) {
    |tests| == |givens|
    && forall i :: 0 <= i < |tests| ==> AsReported(tests[i], givens[i].result, givens[i].run, givens[i].at)
  }

  /** In an event that is not refused, a pair's result is the only one there is for it. */
  lemma ResultExactly(results: seq<ProbeResult>, key: string, r: ProbeResult)
    requires Once(results)
    ensures ResultFor(results, key) == Some(r) <==> r in results && r.key == key
  {
    ResultIsOne(results, key);
    if r in results && r.key == key { ResultFound(results, key, r); }
  }

  lemma {:induction false} ResultFound(results: seq<ProbeResult>, key: string, r: ProbeResult)
    requires Once(results) && r in results && r.key == key
    ensures ResultFor(results, key) == Some(r)
  {
    var i :| 0 <= i < |results| && results[i] == r;
    if i > 0 {
      assert results[0].key != results[i].key;
      assert results[1..][i - 1] == r;
      ResultFound(results[1..], key, r);
    }
  }

  lemma TestSays(l: Ledger, e: Event, key: string)
    requires WellIndexed(l) && After(l, e).Some?
    ensures TestIn(e, key).None? ==> forall g :: !GivenBy(e, key, g)
    ensures TestIn(e, key).Some? ==>
              exists g :: GivenBy(e, key, g) && AsReported(TestIn(e, key).value, g.result, g.run, g.at)
  {
    hide Valid;
    match e
    case Discovery(_, _) =>
    case Recording(plan, results, run, now) =>
      assert Once(results);
      hide Recorded;
      ResultIsOne(results, key);
      if TestIn(e, key).Some? {
        var g := Given(ResultFor(results, key).value, run, now);
        assert GivenBy(e, key, g) && AsReported(TestIn(e, key).value, g.result, g.run, g.at);
      } else {
        forall g
          ensures !GivenBy(e, key, g)
        {
          if GivenBy(e, key, g) { ResultFound(results, key, g.result); }
        }
      }
  }

  /** The log of a run is every result with an outcome that its events record for the pair. */
  lemma {:induction false} LogSays(start: int, events: seq<Event>, key: string) returns (givens: seq<Given>)
    requires Run(start, events).Some?
    ensures AllGiven(events, key, givens) && Say(Log(events, key), givens)
    decreases |events|
  {
    if events == [] {
      givens := [];
    } else {
      hide After, TestIn, GivenBy, AsReported;
      var earlier, e := events[..|events| - 1], events[|events| - 1];
      var before := LogSays(start, earlier, key);
      TestSays(Run(start, earlier).value, e, key);
      if TestIn(e, key).Some? {
        var g :| GivenBy(e, key, g) && AsReported(TestIn(e, key).value, g.result, g.run, g.at);
        givens := [g] + before;
        assert givens[1..] == before;
      } else {
        givens := before;
      }
    }
  }

  /**
   At every point of every run, a pair's row says the newest six of the results ever recorded for it, newest
   first, field by field, and waits exactly while there is none.
   */
  lemma NewestSixSaid(start: int, events: seq<Event>, key: string) returns (givens: seq<Given>)
    requires Run(start, events).Some?
    ensures AllGiven(events, key, givens)
    ensures var l := Run(start, events).value;
      if key !in l.pairs then givens == []
      else
        && Say(Kept(l.pairs[key]), if |givens| < 6 then givens else givens[..6])
        && (l.pairs[key].state == Pending <==> givens == [])
  {
    hide Run, AllGiven, Say, Log, Latest;
    givens := LogSays(start, events, key);
    NewestSix(start, events, key);
    SayFirst(Log(events, key), givens);
  }

  lemma SayFirst(log: seq<Tested>, givens: seq<Given>)
    requires Say(log, givens)
    ensures Say(Latest(log, MAX_HISTORY + 1), if |givens| < 6 then givens else givens[..6])
    ensures log == [] <==> givens == []
  {
    hide AsReported;
  }

  /** What a recording reports as waiting too long, in hours: a current pair still waiting, and not just reported. */
  lemma OverdueReported(l: Ledger, plan: seq<Pair>, results: seq<ProbeResult>, run: Identity, now: int, key: string)
    requires WellIndexed(l) && Recorded(l, plan, results, run, now).Success? && key in l.pairs
    requires forall r :: r in results && r.key == key ==> r.outcome.None?
    ensures var (after, overdue) := Recorded(l, plan, results, run, now).value;
      var row, hours := l.pairs[key], 60 * 60;
      && (key in overdue <==>
            && key in l.current && row.state == Pending && now - row.firstSeen >= 72 * hours
            && now - (if row.staleAlerted.Some? then row.staleAlerted.value else 0) >= 72 * hours)
      && key in after.pairs
      && after.pairs[key] == if key in overdue then row.(staleAlerted := Some(now)) else row
  {
    RecordRow(l, plan, results, run, now, key);
    ResultIsOne(results, key);
    hide Recorded;
  }

  /** A recording that is not refused holds no result for a pair the ledger does not. */
  lemma {:induction false} UnknownKeyUntested(pairs: map<string, Row>, results: seq<ProbeResult>, run: Identity,
      now: int, key: string)
    requires Apply(pairs, results, run, now).Success? && key !in pairs
    ensures ResultFor(results, key) == None
    decreases results
  {
    hide Judge, TestOf;
    if results != [] {
      var r := results[0];
      var next := if r.outcome.Some? then pairs[r.key := Judge(pairs[r.key], TestOf(r, run, now))] else pairs;
      UnknownKeyUntested(next, results[1..], run, now, key);
    }
  }

  // ---------------------------------------------------------------- alerts

  /** Whether an event, on the ledger before it, reports a pair as overdue. */
  predicate Alerts(l: Ledger, e: Event, key: string)
    requires WellIndexed(l)
  {
    match e
    case Discovery(_, _) => false
    case Recording(plan, results, run, now) =>
      match Recorded(l, plan, results, run, now)
      case Failure(_) => false
      case Success((_, overdue)) => key in overdue
  }

  /** When a run reported a pair as overdue, newest first. */
  function AlertTimes(start: int, events: seq<Event>, key: string): seq<int>
    requires Run(start, events).Some?
  {
    if events == [] then []
    else
      var earlier, e := events[..|events| - 1], events[|events| - 1];
      var times := AlertTimes(start, earlier, key);
      if Alerts(Run(start, earlier).value, e, key) then [e.now] + times else times
  }

  /** Times of alerts as far apart as they have to be, the oldest long enough after the pair was first seen. */
  predicate Spaced(times: seq<int>, firstSeen: int) {
    && (forall i :: 0 <= i < |times| - 1 ==> times[i] - times[i + 1] >= STALE_AFTER)
    && (times != [] ==> times[|times| - 1] - firstSeen >= STALE_AFTER)
  }

  /** What the ledger knows of the alerts given for a pair. */
  predicate AlertState(l: Ledger, key: string, times: seq<int>) {
    if key !in l.pairs then times == []
    else
      && Spaced(times, l.pairs[key].firstSeen)
      && (l.pairs[key].state == Pending ==> l.pairs[key].staleAlerted == if times == [] then None else Some(times[0]))
  }

  lemma AlertRowStep(row: Row, t: Option<Tested>, now: int, times: seq<int>)
    requires Spaced(times, row.firstSeen)
    requires row.state == Pending ==> row.staleAlerted == if times == [] then None else Some(times[0])
    ensures Overdue(Judged(row, t), now) ==> row.state == Pending && t == None && Spaced([now] + times, row.firstSeen)
  {
  }

  lemma AlertStep(l: Ledger, e: Event, key: string, times: seq<int>)
    requires WellIndexed(l) && After(l, e).Some? && AlertState(l, key, times)
    ensures AlertState(After(l, e).value, key, if Alerts(l, e, key) then [e.now] + times else times)
  {
    hide Valid, Overdue;
    match e
    case Discovery(items, now) => TrackHolds(l.pairs, items, now);
    case Recording(plan, results, run, now) =>
      hide Recorded;
      RecordKeys(l, plan, results, run, now);
      if key in l.pairs {
        RecordRow(l, plan, results, run, now, key);
        AlertRowStep(l.pairs[key], TestIn(e, key), now, times);
      } else {
        AlertsOnlyCurrent(l, plan, results, run, now, key);
      }
  }

  /**
   In every run, alerts for one pair are at least three days apart, none comes earlier than three days
   after the pair was first seen, and the last one is remembered while the pair waits. Nothing is asked
   of the clock between events.
   */
  lemma {:induction false} AlertsSpaced(start: int, events: seq<Event>, key: string)
    requires Run(start, events).Some?
    ensures AlertState(Run(start, events).value, key, AlertTimes(start, events, key))
    decreases |events|
  {
    if events != [] {
      hide After, AlertState, Alerts;
      var earlier := events[..|events| - 1];
      AlertsSpaced(start, earlier, key);
      AlertStep(Run(start, earlier).value, events[|events| - 1], key, AlertTimes(start, earlier, key));
    }
  }

  lemma AlertsOnlyCurrent(l: Ledger, plan: seq<Pair>, results: seq<ProbeResult>, run: Identity, now: int, key: string)
    requires WellIndexed(l) && key !in l.pairs
    requires Recorded(l, plan, results, run, now).Success?
    ensures key !in Recorded(l, plan, results, run, now).value.1
  {
    hide ValidResult, Planned, Judge, TestOf;
    ApplyKeys(l.pairs, results, run, now);
    AlertsWithin(Apply(l.pairs, results, run, now).value, l.current, now);
  }

  lemma {:induction false} AlertsWithin(pairs: map<string, Row>, current: seq<string>, now: int)
    requires forall k :: k in current ==> k in pairs
    ensures forall k :: k in Alert(pairs, current, now).1 ==> k in current
    decreases current
  {
    if current != [] {
      var k := current[0];
      AlertsWithin(if Overdue(pairs[k], now) then pairs[k := pairs[k].(staleAlerted := Some(now))] else pairs,
          current[1..], now);
    }
  }

  /** An alert is only ever given for a pair that no result has been recorded for, in that recording or before. */
  lemma AlertedUntested(start: int, events: seq<Event>, key: string)
    requires events != [] && Run(start, events).Some?
    requires Alerts(Run(start, events[..|events| - 1]).value, events[|events| - 1], key)
    ensures Log(events, key) == []
  {
    hide Spaced, Overdue, Log;
    var earlier, e := events[..|events| - 1], events[|events| - 1];
    var l := Run(start, earlier).value;
    NewestSix(start, events, key);
    AlertsSpaced(start, earlier, key);
    AlertedPending(l, e, key, AlertTimes(start, earlier, key));
  }

  lemma AlertedPending(l: Ledger, e: Event, key: string, times: seq<int>)
    requires WellIndexed(l) && After(l, e).Some? && AlertState(l, key, times) && Alerts(l, e, key)
    ensures key in After(l, e).value.pairs && After(l, e).value.pairs[key].state == Pending
  {
    match e
    case Discovery(_, _) => assert false;
    case Recording(plan, results, run, now) =>
      hide Recorded, Valid;
      RecordKeys(l, plan, results, run, now);
      if key in l.pairs {
        RecordRow(l, plan, results, run, now, key);
        AlertRowStep(l.pairs[key], TestIn(e, key), now, times);
      } else {
        AlertsOnlyCurrent(l, plan, results, run, now, key);
      }
  }
}
