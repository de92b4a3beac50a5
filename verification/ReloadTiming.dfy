/**
 The two timed rules around a reload: how long the plugin's process must stay the same before it is
 taken for the one Decky will keep, and how far apart two reload requests are kept.

 Clock readings are reals in seconds. What the loop sees is given as a trace of its passes.
 */
module ReloadTiming {
  import opened Wrappers

  // ---------- Settling ----------

  const SETTLE := 2.0
  const REPLACEMENT := 10.0
  const SETTLE_TIMEOUT := 30.0

  /** One pass of the loop: the reading that let it in, the processes seen, the reading taken after. */
  datatype Pass = Pass(entered: real, pids: set<int>, noted: real)

  datatype Settled = Settled(yes: bool, window: real, pids: set<int>)

  function Window(confirmed: bool): real {
    if confirmed then SETTLE else REPLACEMENT
  }

  predicate ClockRuns(passes: seq<Pass>) {
    forall i, j :: 0 <= i < j < |passes| ==> passes[i].noted <= passes[j].noted
  }

  predicate SameFrom(passes: seq<Pass>, i: nat, k: nat)
    requires k < |passes|
  {
    forall n :: i <= n <= k ==> passes[n].pids == passes[k].pids
  }

  /** By pass `k` one process and no other has been seen on every pass for the whole window. */
  ghost predicate Steady(passes: seq<Pass>, k: nat, window: real)
    requires k < |passes|
  {
    |passes[k].pids| == 1
    && exists i: nat :: i < k && SameFrom(passes, i, k) && passes[k].noted - passes[i].noted >= window
  }

  predicate Entered(passes: seq<Pass>, k: nat, deadline: real)
    requires k < |passes|
  {
    forall n :: 0 <= n <= k ==> passes[n].entered < deadline
  }

  /** Where the run of equal observations that pass `k` belongs to began. */
  function Since(passes: seq<Pass>, k: nat): (i: nat)
    requires k < |passes|
    ensures i <= k && SameFrom(passes, i, k)
    ensures i > 0 ==> passes[i - 1].pids != passes[k].pids
  {
    if k == 0 || passes[k - 1].pids != passes[k].pids then k else Since(passes, k - 1)
  }

  lemma SinceEarliest(passes: seq<Pass>, i: nat, k: nat)
    requires i <= k < |passes| && SameFrom(passes, i, k)
    ensures Since(passes, k) <= i
  {
    hide Since;
    var from := Since(passes, k);
    assert from > 0 ==> passes[from - 1].pids != passes[k].pids;
  }

  lemma SinceNext(passes: seq<Pass>, n: nat)
    requires n < |passes|
    ensures Since(passes, n) == if n == 0 || passes[n - 1].pids != passes[n].pids then n else Since(passes, n - 1)
  {
  }

  lemma Ordered(passes: seq<Pass>, i: nat, j: nat)
    requires ClockRuns(passes) && j < |passes|
    ensures i <= j ==> passes[i].noted <= passes[j].noted
  {
  }

  lemma SteadyFromSince(passes: seq<Pass>, k: nat, window: real)
    requires k < |passes| && ClockRuns(passes) && window > 0.0
    ensures Steady(passes, k, window)
            <==> |passes[k].pids| == 1 && Since(passes, k) < k
                 && passes[k].noted - passes[Since(passes, k)].noted >= window
  {
    hide Since, SameFrom, ClockRuns;
    var from := Since(passes, k);
    Ordered(passes, from, k);
    if Steady(passes, k, window) {
      var i: nat :| i < k && SameFrom(passes, i, k) && passes[k].noted - passes[i].noted >= window;
      SinceEarliest(passes, i, k);
      Ordered(passes, from, i);
    }
  }

  /**
   Waits for the process Decky will keep. It says so on the first pass, and only on the first, by
   which one and the same process has been all there was for the whole window.
   */
  method WaitForSettledBackend(passes: seq<Pass>, started: real, confirmed: bool)
    returns (result: Settled, ghost at: nat)
    requires ClockRuns(passes) && forall i :: 0 <= i < |passes| ==> started <= passes[i].noted
    ensures result.window == (if confirmed then 2.0 else 10.0)
    ensures result.yes ==>
              && at < |passes| && Entered(passes, at, started + SETTLE_TIMEOUT)
              && Steady(passes, at, result.window) && result.pids == passes[at].pids
              && forall k: nat :: k < at ==> !Steady(passes, k, result.window)
    ensures !result.yes ==>
              forall k: nat :: k < |passes| && Entered(passes, k, started + SETTLE_TIMEOUT)
                               ==> !Steady(passes, k, result.window)
  {
    hide Steady, Since, ClockRuns;
    var settle := Window(confirmed);
    var deadline := started + SETTLE_TIMEOUT;
    var seen: set<int> := {};
    var stableSince := started;
    var n := 0;
    while n < |passes| && passes[n].entered < deadline
      invariant 0 <= n <= |passes| && (n == 0 ==> seen == {} && stableSince == started)
      invariant n > 0 ==> Entered(passes, n - 1, deadline) && seen == passes[n - 1].pids
      invariant n > 0 && seen != {} ==> stableSince == passes[Since(passes, n - 1)].noted
      invariant forall k: nat :: k < n ==> !Steady(passes, k, settle)
    {
      SteadyFromSince(passes, n, settle);
      SinceNext(passes, n);
      var current := passes[n].pids;
      if current != seen {
        seen := current;
        stableSince := passes[n].noted;
      } else if |current| == 1 && passes[n].noted - stableSince >= settle {
        return Settled(true, settle, current), n;
      }
      n := n + 1;
    }
    return Settled(false, settle, seen), n;
  }

  // ---------- Spacing ----------

  const SPACING := 65.0

  /** What is left on disk of earlier requests: the marker, and the newest install record. */
  datatype Left = Left(marker: Option<real>, record: Option<real>)

  function Last(left: Left): Option<real> {
    if left.marker.None? then left.record
    else if left.record.None? then left.marker
    else if left.marker.value >= left.record.value then left.marker
    else left.record
  }

  /** How long to wait before this install goes on, from what is left and the clock now. */
  function Owed(left: Left, now: real): (wait: real)
    ensures 0.0 <= wait <= SPACING
    ensures Last(left).Some? && Last(left).value <= now ==> now + wait >= Last(left).value + SPACING
    ensures Last(left).Some? && Last(left).value > now ==> wait == SPACING
    ensures wait > 0.0 ==> Last(left).Some? && now < Last(left).value + SPACING
  {
    if Last(left).None? then 0.0
    else
      var elapsed := now - Last(left).value;
      var owed := if elapsed < 0.0 then SPACING else SPACING - elapsed;
      if owed <= 0.0 then 0.0 else owed
  }

  /** One install: the clock as it begins and as it asks for the reload, and what it managed to leave. */
  datatype Install = Install(began: real, requested: real, marked: bool, recorded: bool)

  function LeftBy(left: Left, i: Install): Left {
    Left(if i.marked then Some(i.requested) else left.marker,
         if i.recorded then Some(i.requested) else left.record)
  }

  function LeftAfter(left: Left, installs: seq<Install>): Left {
    if installs == [] then left
    else LeftBy(LeftAfter(left, installs[..|installs| - 1]), installs[|installs| - 1])
  }

  /** Each install waits out what it finds owed, and no clock reading is before an earlier one. */
  ghost predicate Sequence(left: Left, installs: seq<Install>) {
    installs != [] ==>
      var before, i := installs[..|installs| - 1], installs[|installs| - 1];
      && Sequence(left, before)
      && (before != [] ==> before[|before| - 1].requested <= i.began)
      && i.requested >= i.began + Owed(LeftAfter(left, before), i.began)
  }

  predicate Noted(i: Install) {
    i.marked || i.recorded
  }

  /** No request is earlier than one before it. */
  lemma {:induction false} RequestsInOrder(left: Left, installs: seq<Install>)
    requires Sequence(left, installs)
    ensures forall i, j :: 0 <= i < j < |installs| ==> installs[i].requested <= installs[j].began
    ensures forall i :: 0 <= i < |installs| ==> installs[i].began <= installs[i].requested
    decreases |installs|
  {
    if installs != [] {
      var before := installs[..|installs| - 1];
      RequestsInOrder(left, before);
      forall i | 0 <= i < |before|
        ensures installs[i].requested <= installs[|installs| - 1].began
      {
        assert before[i].requested <= before[|before| - 1].requested;
      }
    }
  }

  predicate NoLaterThan(left: Left, moment: real) {
    (left.marker.Some? ==> left.marker.value <= moment) && (left.record.Some? ==> left.record.value <= moment)
  }

  /** What is left covers every request that was noted, by either of the two, and is no later than the newest. */
  lemma {:induction false} LeftCovers(left: Left, installs: seq<Install>)
    requires Sequence(left, installs)
    requires installs != [] ==> NoLaterThan(left, installs[0].began)
    ensures forall i :: 0 <= i < |installs| && Noted(installs[i]) ==>
              Last(LeftAfter(left, installs)).Some? && Last(LeftAfter(left, installs)).value >= installs[i].requested
    ensures installs != [] ==> NoLaterThan(LeftAfter(left, installs), installs[|installs| - 1].requested)
    decreases |installs|
  {
    if installs != [] {
      var before, last := installs[..|installs| - 1], installs[|installs| - 1];
      LeftCovers(left, before);
      RequestsInOrder(left, installs);
      forall i | 0 <= i < |installs| && Noted(installs[i])
        ensures Last(LeftAfter(left, installs)).Some?
        ensures Last(LeftAfter(left, installs)).value >= installs[i].requested
      {
        if i < |before| {
          assert before[i] == installs[i];
          assert installs[i].requested <= last.requested;
        }
      }
    }
  }

  /** A reload request is at least the spacing after every earlier one that was noted in either place. */
  lemma NotedSpaced(left: Left, installs: seq<Install>, i: nat, j: nat)
    requires Sequence(left, installs) && i < j < |installs| && Noted(installs[i])
    requires NoLaterThan(left, installs[0].began)
    ensures installs[j].requested >= installs[i].requested + SPACING
  {
    var before, upto := installs[..j], installs[..j + 1];
    SequencePrefix(left, installs, j);
    SequencePrefix(left, installs, j + 1);
    assert upto[..j] == before;
    LeftCovers(left, before);
    RequestsInOrder(left, upto);
    assert before[i] == installs[i] && before[j - 1] == upto[j - 1];
  }

  lemma {:induction false} SequencePrefix(left: Left, installs: seq<Install>, n: nat)
    requires Sequence(left, installs) && n <= |installs|
    ensures Sequence(left, installs[..n])
    decreases |installs|
  {
    if n < |installs| {
      SequencePrefix(left, installs[..|installs| - 1], n);
      assert installs[..|installs| - 1][..n] == installs[..n];
    } else {
      assert installs[..n] == installs;
    }
  }

  /** What each install managed to leave: the marker, and its record. */
  type Kept = seq<(bool, bool)>

  predicate KeptIn(kept: Kept, i: int, j: int) {
    exists k :: 0 <= i <= k < j <= |kept| && (kept[k].0 || kept[k].1)
  }

  predicate Leaves(installs: seq<Install>, kept: Kept) {
    |installs| == |kept|
    && forall n :: 0 <= n < |kept| ==> installs[n].marked == kept[n].0 && installs[n].recorded == kept[n].1
  }

  /** Whatever the clock readings, requests `i` and `j` are the spacing apart when this is what is kept. */
  ghost predicate AlwaysSpaced(kept: Kept, i: nat, j: nat)
    requires i < j < |kept|
  {
    forall left: Left, installs: seq<Install> ::
      Leaves(installs, kept) && Sequence(left, installs) && NoLaterThan(left, installs[0].began)
      ==> installs[j].requested >= installs[i].requested + SPACING
  }

  /**
   Two reload requests are always the spacing apart exactly when the first of them, or one between the
   two, was kept in either place.
   */
  lemma RequestsSpaced(kept: Kept, i: nat, j: nat)
    requires i < j < |kept|
    ensures AlwaysSpaced(kept, i, j) <==> KeptIn(kept, i, j)
  {
    if KeptIn(kept, i, j) {
      var k :| i <= k < j && (kept[k].0 || kept[k].1);
      forall left: Left, installs: seq<Install> |
          Leaves(installs, kept) && Sequence(left, installs) && NoLaterThan(left, installs[0].began)
        ensures installs[j].requested >= installs[i].requested + SPACING
      {
        NotedSpaced(left, installs, k, j);
        RequestsInOrder(left, installs);
        assert i < k ==> installs[i].requested <= installs[k].began <= installs[k].requested;
      }
    } else {
      var installs := Together(kept, i, j, |kept|);
      TogetherRuns(kept, i, j, |kept|);
      TogetherAt(kept, i, j, |kept|, i);
      TogetherAt(kept, i, j, |kept|, j);
      assert Leaves(installs, kept);
      assert NoLaterThan(Left(None, None), installs[0].began);
      assert installs[j].requested == installs[i].requested;
    }
  }

  /** Installs one spacing after another, but for those after `i` up to `j`, which come at once with `i`. */
  function Moment(i: nat, j: nat, n: nat): real {
    SPACING * (if i < n <= j then i else n) as real
  }

  function Together(kept: Kept, i: nat, j: nat, n: nat): (r: seq<Install>)
    requires n <= |kept|
    ensures |r| == n && forall m :: 0 <= m < n ==> r[m].marked == kept[m].0 && r[m].recorded == kept[m].1
  {
    if n == 0 then []
    else
      var t := Moment(i, j, n - 1);
      Together(kept, i, j, n - 1) + [Install(t, t, kept[n - 1].0, kept[n - 1].1)]
  }

  lemma {:induction false} TogetherAt(kept: Kept, i: nat, j: nat, n: nat, m: nat)
    requires m < n <= |kept|
    ensures Together(kept, i, j, n)[m].began == Together(kept, i, j, n)[m].requested == Moment(i, j, m)
  {
    if m < n - 1 { TogetherAt(kept, i, j, n - 1, m); }
  }

  /** What is kept by then is one spacing old at least, so nothing is owed. */
  predicate Spent(left: Left, moment: real) {
    NoLaterThan(left, moment - SPACING)
  }

  lemma {:induction false} TogetherRuns(kept: Kept, i: nat, j: nat, n: nat)
    requires n <= |kept| && i < j < |kept| && !KeptIn(kept, i, j)
    ensures Sequence(Left(None, None), Together(kept, i, j, n))
    ensures Spent(LeftAfter(Left(None, None), Together(kept, i, j, n)), Moment(i, j, n))
  {
    if n > 0 {
      var before, t := Together(kept, i, j, n - 1), Moment(i, j, n - 1);
      var last := Install(t, t, kept[n - 1].0, kept[n - 1].1);
      hide Moment, LeftAfter, Owed, Sequence, KeptIn, Spent;
      TogetherRuns(kept, i, j, n - 1);
      if n > 1 {
        TogetherAt(kept, i, j, n - 1, n - 2);
        MomentsApart(kept, i, j, n - 1);
      }
      OwedNothing(LeftAfter(Left(None, None), before), t);
      SequencePush(Left(None, None), before, last);
      LeftPush(Left(None, None), before, last);
      MomentsApart(kept, i, j, n);
      SpentNext(LeftAfter(Left(None, None), before), last, Moment(i, j, n));
    } else {
      hide Moment;
    }
  }

  lemma OwedNothing(left: Left, moment: real)
    requires Spent(left, moment)
    ensures Owed(left, moment) == 0.0
  {
  }

  lemma SpentNext(left: Left, i: Install, moment: real)
    requires Spent(left, i.requested) && i.requested <= moment
    requires i.marked || i.recorded ==> i.requested <= moment - SPACING
    ensures Spent(LeftBy(left, i), moment)
  {
  }

  lemma MomentsApart(kept: Kept, i: nat, j: nat, n: nat)
    requires 0 < n <= |kept| && i < j < |kept| && !KeptIn(kept, i, j)
    ensures Moment(i, j, n - 1) <= Moment(i, j, n)
    ensures kept[n - 1].0 || kept[n - 1].1 ==> Moment(i, j, n - 1) <= Moment(i, j, n) - SPACING
  {
    assert i <= n - 1 < j ==> !(kept[n - 1].0 || kept[n - 1].1);
  }

  lemma LeftPush(left: Left, before: seq<Install>, i: Install)
    ensures LeftAfter(left, before + [i]) == LeftBy(LeftAfter(left, before), i)
  {
    assert (before + [i])[..|before|] == before;
  }

  lemma SequencePush(left: Left, before: seq<Install>, i: Install)
    requires Sequence(left, before) && (before != [] ==> before[|before| - 1].requested <= i.began)
    requires i.requested >= i.began + Owed(LeftAfter(left, before), i.began)
    ensures Sequence(left, before + [i])
  {
    assert (before + [i])[..|before|] == before;
  }
}
