/**
 Counting the plugin's rows in Steam's panel from the panel's own journal.

 A reload replaces the renderer that draws the panel. The installer reads the records written after
 the reload was asked for, decides of each which side of the reload it belongs to, and counts the
 rows the new renderer still holds. The second half of the module is the panel itself, what it does
 and what it writes down, so that the count can be compared with what is really on screen.
 */
module PanelJournal {
  import opened Wrappers

  /** What a record says of the renderer that wrote it: its name, and when it started in milliseconds. */
  datatype Renderer = Renderer(name: Option<string>, started: Option<real>)

  datatype Event = Mounted | Dismounted | Other

  datatype Entry = Entry(event: Event, instance: Option<string>, renderer: Renderer)

  /** The renderers already on record when the reload was asked for, and when that was, in seconds. */
  datatype Boundary = Boundary(outgoing: set<string>, requestedAt: Option<real>)

  datatype Generation = Outgoing | New | Unknown

  datatype Cardinality = One | Duplicate | Missing | Unverified

  const MARGIN := 0.5

  function GenerationOf(r: Renderer, b: Boundary): Generation {
    if r.name.Some? && r.name.value in b.outgoing then Outgoing
    else if r.started.None? || b.requestedAt.None? then Unknown
    else if r.started.value / 1000.0 > b.requestedAt.value + MARGIN then New
    else Outgoing
  }

  function CardinalityOf(live: nat, unpairable: nat): Cardinality {
    if live > 1 then Duplicate
    else if unpairable > 0 then Unverified
    else if live == 1 then One
    else Missing
  }

  /** The renderers named in the records before the boundary. */
  function Names(before: seq<Entry>): set<string> {
    set e | e in before && e.renderer.name.Some? && e.renderer.name.value != "" :: e.renderer.name.value
  }

  // ---------- The count ----------

  datatype Tally = Tally(live: set<string>, imports: nat, unpairable: nat) {
    function Cardinality(): Cardinality {
      CardinalityOf(|live|, unpairable)
    }
  }

  const NOTHING := Tally({}, 0, 0)

  function Add(t: Tally, e: Entry, b: Boundary): Tally {
    var generation := GenerationOf(e.renderer, b);
    var paired := generation == New && e.instance.Some?;
    if e.event == Other || generation == Outgoing then t
    else if e.event == Mounted then
      if paired then Tally(t.live + {e.instance.value}, t.imports + 1, t.unpairable)
      else Tally(t.live, t.imports + 1, t.unpairable + 1)
    else if paired then t.(live := t.live - {e.instance.value})
    else t
  }

  function Count(t: Tally, entries: seq<Entry>, b: Boundary): Tally {
    if entries == [] then t
    else Add(Count(t, entries[..|entries| - 1], b), entries[|entries| - 1], b)
  }

  predicate MountsAt(entries: seq<Entry>, i: nat, id: string, b: Boundary) {
    i < |entries| && entries[i].event == Mounted && entries[i].instance == Some(id)
    && GenerationOf(entries[i].renderer, b) == New
  }

  predicate DismountsAt(entries: seq<Entry>, i: nat, id: string, b: Boundary) {
    i < |entries| && entries[i].event == Dismounted && entries[i].instance == Some(id)
    && GenerationOf(entries[i].renderer, b) == New
  }

  predicate NotDismountedAfter(entries: seq<Entry>, i: nat, id: string, b: Boundary) {
    forall j :: i < j < |entries| ==> !DismountsAt(entries, j, id, b)
  }

  /** A row is live when the new renderer mounted it and has not dismounted it since. */
  ghost predicate IsLive(entries: seq<Entry>, id: string, b: Boundary) {
    exists i: nat :: MountsAt(entries, i, id, b) && NotDismountedAfter(entries, i, id, b)
  }

  lemma LivePush(entries: seq<Entry>, e: Entry, id: string, b: Boundary)
    ensures IsLive(entries + [e], id, b)
            <==> MountsAt(entries + [e], |entries|, id, b)
                 || (IsLive(entries, id, b) && !DismountsAt(entries + [e], |entries|, id, b))
  {
    var all, n := entries + [e], |entries|;
    if MountsAt(all, n, id, b) { assert NotDismountedAfter(all, n, id, b); }
    if IsLive(entries, id, b) && !DismountsAt(all, n, id, b) {
      var i: nat :| MountsAt(entries, i, id, b) && NotDismountedAfter(entries, i, id, b);
      assert MountsAt(all, i, id, b);
      forall j | i < j < |all|
        ensures !DismountsAt(all, j, id, b)
      {
        if j < n { assert !DismountsAt(entries, j, id, b); }
      }
    }
    if i: nat :| MountsAt(all, i, id, b) && NotDismountedAfter(all, i, id, b) && i != n {
      assert MountsAt(entries, i, id, b);
      forall j | i < j < n
        ensures !DismountsAt(entries, j, id, b)
      {
        assert !DismountsAt(all, j, id, b);
      }
      assert NotDismountedAfter(entries, i, id, b);
    }
  }

  /** The running set holds exactly the rows mounted and not dismounted since. */
  lemma {:induction false} CountsLive(entries: seq<Entry>, b: Boundary)
    ensures forall id :: id in Count(NOTHING, entries, b).live <==> IsLive(entries, id, b)
    decreases |entries|
  {
    if entries != [] {
      var before, e := entries[..|entries| - 1], entries[|entries| - 1];
      CountsLive(before, b);
      assert entries == before + [e];
      forall id
        ensures id in Count(NOTHING, entries, b).live <==> IsLive(entries, id, b)
      {
        LivePush(before, e, id, b);
      }
    }
  }

  /** Reading on from where an earlier reading stopped gives the same as reading it all again. */
  lemma {:induction false} CountContinues(t: Tally, a: seq<Entry>, more: seq<Entry>, b: Boundary)
    ensures Count(t, a + more, b) == Count(Count(t, a, b), more, b)
    decreases |more|
  {
    if more == [] {
      assert a + more == a;
    } else {
      var all := a + more;
      assert all[..|all| - 1] == a + more[..|more| - 1];
      CountContinues(t, a, more[..|more| - 1], b);
    }
  }

  lemma CountPush(t: Tally, entries: seq<Entry>, e: Entry, b: Boundary)
    ensures Count(t, entries + [e], b) == Add(Count(t, entries, b), e, b)
  {
    assert (entries + [e])[..|entries|] == entries;
  }

  /** A longer journal has no fewer imports and no fewer rows it cannot pair: no record changes sides. */
  lemma {:induction false} CountGrows(t: Tally, entries: seq<Entry>, b: Boundary)
    ensures t.imports <= Count(t, entries, b).imports && t.unpairable <= Count(t, entries, b).unpairable
    ensures Count(t, entries, b).unpairable - t.unpairable <= Count(t, entries, b).imports - t.imports
    decreases |entries|
  {
    if entries != [] { CountGrows(t, entries[..|entries| - 1], b); }
  }

  /** What one reading of the journal reports; nothing when the stretch could not be read whole. */
  method InstancesAfter(appended: Option<seq<Entry>>, b: Boundary)
    returns (imports: nat, live: nat, unpairable: nat, readable: bool)
    ensures readable == appended.Some?
    ensures readable ==>
              && imports == Count(NOTHING, appended.value, b).imports
              && live == |Count(NOTHING, appended.value, b).live|
              && unpairable == Count(NOTHING, appended.value, b).unpairable
    ensures !readable ==> imports == live == unpairable == 0
  {
    if appended.None? { return 0, 0, 0, false; }
    var entries := appended.value;
    imports, unpairable := 0, 0;
    var rows: set<string> := {};
    for n := 0 to |entries|
      invariant Tally(rows, imports, unpairable) == Count(NOTHING, entries[..n], b)
    {
      var e := entries[n];
      assert entries[..n + 1][..n] == entries[..n];
      if e.event == Other { continue; }
      var generation := GenerationOf(e.renderer, b);
      if generation == Outgoing { continue; }
      var instance := if generation == Unknown then None else e.instance;
      if e.event == Mounted {
        imports := imports + 1;
        if instance.None? { unpairable := unpairable + 1; } else { rows := rows + {instance.value}; }
      } else if instance.Some? {
        rows := rows - {instance.value};
      }
    }
    assert entries[..|entries|] == entries;
    return imports, |rows|, unpairable, true;
  }

  // ---------- The panel ----------

  /** One row: the renderer holding it, its own identity, and whether its records carry that identity. */
  datatype Row = Row(renderer: Renderer, id: string, told: bool) {
    function Record(event: Event): Entry {
      Entry(event, if told then Some(id) else None, renderer)
    }
  }

  /** The rows on screen, those that went with their renderer unrecorded, and every identity used. */
  datatype Screen = Screen(rows: seq<Row>, lost: seq<Row>, used: set<string>)

  /** An import takes down what its renderer holds, and some time later puts its own row up. */
  datatype Act = TakeDown(renderer: Renderer) | PutUp(row: Row) | Replace(renderer: Renderer) | Note(renderer: Renderer)

  function Held(rows: seq<Row>, r: Renderer): seq<Row> {
    if rows == [] then []
    else (if rows[0].renderer == r then [rows[0]] else []) + Held(rows[1..], r)
  }

  function NotHeld(rows: seq<Row>, r: Renderer): seq<Row> {
    if rows == [] then []
    else (if rows[0].renderer == r then [] else [rows[0]]) + NotHeld(rows[1..], r)
  }

  function Dismounts(rows: seq<Row>): seq<Entry> {
    if rows == [] then [] else Dismounts(rows[..|rows| - 1]) + [rows[|rows| - 1].Record(Dismounted)]
  }

  predicate Possible(s: Screen, act: Act) {
    act.PutUp? ==> act.row.id !in s.used
  }

  function Step(s: Screen, act: Act): Screen {
    match act
    case TakeDown(r) => s.(rows := NotHeld(s.rows, r))
    case PutUp(row) => s.(rows := s.rows + [row], used := s.used + {row.id})
    case Replace(r) => s.(rows := NotHeld(s.rows, r), lost := s.lost + Held(s.rows, r))
    case Note(_) => s
  }

  function Written(s: Screen, act: Act): seq<Entry> {
    match act
    case TakeDown(r) => Dismounts(Held(s.rows, r))
    case PutUp(row) => [row.Record(Mounted)]
    case Replace(_) => []
    case Note(r) => [Entry(Other, None, r)]
  }

  ghost predicate Happens(s: Screen, acts: seq<Act>) {
    acts != [] ==>
      Happens(s, acts[..|acts| - 1]) && Possible(After(s, acts[..|acts| - 1]), acts[|acts| - 1])
  }

  function After(s: Screen, acts: seq<Act>): Screen {
    if acts == [] then s else Step(After(s, acts[..|acts| - 1]), acts[|acts| - 1])
  }

  function Journal(s: Screen, acts: seq<Act>): seq<Entry> {
    if acts == [] then []
    else
      var before := acts[..|acts| - 1];
      Journal(s, before) + Written(After(s, before), acts[|acts| - 1])
  }

  predicate Incoming(row: Row, b: Boundary) {
    GenerationOf(row.renderer, b) != Outgoing
  }

  predicate Pairable(row: Row, b: Boundary) {
    row.told && GenerationOf(row.renderer, b) == New
  }

  predicate AllOutgoing(rows: seq<Row>, b: Boundary) {
    forall row :: row in rows ==> !Incoming(row, b)
  }

  /** No two rows share an identity, and every identity on them is a used one. */
  predicate Distinct(rows: seq<Row>, used: set<string>) {
    && (forall i, j :: 0 <= i < j < |rows| ==> rows[i].id != rows[j].id)
    && (forall row :: row in rows ==> row.id in used)
  }

  /** What a reload starts from: only outgoing rows, all of them different, and nothing lost yet. */
  predicate AtBoundary(s: Screen, b: Boundary) {
    AllOutgoing(s.rows, b) && Distinct(s.rows, s.used) && s.lost == []
  }

  /** Where the record ends when the reload is asked for: the renderers it names, and that moment. */
  function PanelBoundary(before: seq<Entry>, requestedAt: real): Boundary {
    Boundary(Names(before), Some(requestedAt))
  }

  /** Some entry of the record gives the renderer's name, and it has one. */
  predicate OnRecord(r: Renderer, before: seq<Entry>) {
    r.name.Some? && r.name.value != "" && exists e :: e in before && e.renderer.name == r.name
  }

  /** A renderer that started no later than the moment, the margin allowed for. */
  predicate StartedBy(r: Renderer, moment: real) {
    r.started.Some? && r.started.value / 1000.0 <= moment + MARGIN
  }

  /**
   The panel a boundary is taken of starts from it exactly when every renderer that holds a row is on
   record already, or started by the time the reload was asked for: then everything that is counted
   afterwards was put up afterwards.
   */
  lemma BoundaryExactly(s: Screen, before: seq<Entry>, requestedAt: real)
    requires Distinct(s.rows, s.used) && s.lost == []
    ensures AtBoundary(s, PanelBoundary(before, requestedAt))
            <==> forall row :: row in s.rows ==>
                   OnRecord(row.renderer, before) || StartedBy(row.renderer, requestedAt)
  {
    var b := PanelBoundary(before, requestedAt);
    forall row | row in s.rows
      ensures !Incoming(row, b) <==> OnRecord(row.renderer, before) || StartedBy(row.renderer, requestedAt)
    {
    }
  }

  /** The rows a reader should count: those of the incoming renderers, on screen. */
  function Current(rows: seq<Row>, b: Boundary): seq<Row> {
    if rows == [] then []
    else Current(rows[..|rows| - 1], b) + if Incoming(rows[|rows| - 1], b) then [rows[|rows| - 1]] else []
  }

  ghost function PairableIds(rows: seq<Row>, b: Boundary): set<string> {
    set row | row in rows && Pairable(row, b) :: row.id
  }

  // ---------- What a step does to the rows ----------

  lemma {:induction false} HeldRows(rows: seq<Row>, r: Renderer)
    ensures forall row :: row in Held(rows, r) <==> row in rows && row.renderer == r
    ensures forall row :: row in NotHeld(rows, r) <==> row in rows && row.renderer != r
  {
    if rows != [] {
      HeldRows(rows[1..], r);
      assert rows == [rows[0]] + rows[1..];
    }
  }

  predicate DistinctIds(rows: seq<Row>) {
    forall i, j :: 0 <= i < j < |rows| ==> rows[i].id != rows[j].id
  }

  predicate NoSharedId(a: seq<Row>, c: seq<Row>) {
    forall x, y :: x in a && y in c ==> x.id != y.id
  }

  lemma DistinctJoin(a: seq<Row>, c: seq<Row>)
    requires DistinctIds(a) && DistinctIds(c) && NoSharedId(a, c)
    ensures DistinctIds(a + c)
  {
    forall i, j | 0 <= i < j < |a + c|
      ensures (a + c)[i].id != (a + c)[j].id
    {
      if i < |a| <= j { assert a[i] in a && c[j - |a|] in c; }
    }
  }

  lemma DistinctSplit(a: seq<Row>, c: seq<Row>)
    requires DistinctIds(a + c)
    ensures DistinctIds(a) && DistinctIds(c) && NoSharedId(a, c)
  {
    var all := a + c;
    forall i, j | 0 <= i < j < |c|
      ensures c[i].id != c[j].id
    {
      assert all[|a| + i].id != all[|a| + j].id;
    }
    forall i, j | 0 <= i < j < |a|
      ensures a[i].id != a[j].id
    {
      assert all[i].id != all[j].id;
    }
    forall x, y | x in a && y in c
      ensures x.id != y.id
    {
      var i :| 0 <= i < |a| && a[i] == x;
      var j :| 0 <= j < |c| && c[j] == y;
      assert all[i].id != all[|a| + j].id;
    }
  }

  lemma {:induction false} HeldDistinct(rows: seq<Row>, r: Renderer)
    requires DistinctIds(rows)
    ensures DistinctIds(Held(rows, r)) && DistinctIds(NotHeld(rows, r))
    ensures NoSharedId(Held(rows, r), NotHeld(rows, r))
  {
    if rows != [] {
      assert rows == [rows[0]] + rows[1..];
      DistinctSplit([rows[0]], rows[1..]);
      HeldDistinct(rows[1..], r);
      HeldRows(rows[1..], r);
      assert rows[0] in [rows[0]];
      DistinctJoin(if rows[0].renderer == r then [rows[0]] else [], Held(rows[1..], r));
      DistinctJoin(if rows[0].renderer == r then [] else [rows[0]], NotHeld(rows[1..], r));
    }
  }

  // ---------- What the count knows of the screen ----------

  /** What the count and the screen have in common after any run of steps. */
  ghost predicate Agree(s: Screen, t: Tally, b: Boundary) {
    && t.live == PairableIds(s.rows + s.lost, b)
    && Known(s)
    && (t.unpairable == 0 ==> AllPairable(s.rows, b))
  }

  ghost predicate Known(s: Screen) {
    DistinctIds(s.rows + s.lost) && forall row :: row in s.rows + s.lost ==> row.id in s.used
  }

  predicate AllPairable(rows: seq<Row>, b: Boundary) {
    forall row :: row in rows && Incoming(row, b) ==> Pairable(row, b)
  }

  lemma {:induction false} PairableIdsPush(before: seq<Row>, row: Row, b: Boundary)
    ensures PairableIds(before + [row], b) == PairableIds(before, b) + if Pairable(row, b) then {row.id} else {}
  {
  }

  /** Taking rows down removes exactly their identities from the count, and nothing else. */
  lemma {:induction false} CountDismounts(t: Tally, rows: seq<Row>, b: Boundary)
    ensures Count(t, Dismounts(rows), b) == t.(live := t.live - PairableIds(rows, b))
    decreases |rows|
  {
    if rows != [] {
      var before, row := rows[..|rows| - 1], rows[|rows| - 1];
      hide Count, PairableIds;
      CountDismounts(t, before, b);
      CountPush(t, Dismounts(before), row.Record(Dismounted), b);
      PairableIdsPush(before, row, b);
    }
  }

  lemma SplitRows(s: Screen, r: Renderer)
    requires Known(s)
    ensures var held, rest := Held(s.rows, r), NotHeld(s.rows, r);
            && Known(s.(rows := rest))
            && Known(s.(rows := rest, lost := s.lost + held))
            && NoSharedId(held, rest + s.lost)
  {
    var held, rest := Held(s.rows, r), NotHeld(s.rows, r);
    DistinctSplit(s.rows, s.lost);
    HeldDistinct(s.rows, r);
    HeldRows(s.rows, r);
    DistinctJoin(rest, s.lost);
    DistinctJoin(s.lost, held);
    DistinctJoin(rest, s.lost + held);
  }

  lemma AgreeTakeDown(s: Screen, t: Tally, r: Renderer, b: Boundary)
    requires Agree(s, t, b)
    ensures Agree(Step(s, TakeDown(r)), Count(t, Written(s, TakeDown(r)), b), b)
  {
    var held, rest := Held(s.rows, r), NotHeld(s.rows, r);
    CountDismounts(t, held, b);
    SplitRows(s, r);
    HeldRows(s.rows, r);
    assert forall row :: row in s.rows <==> row in held || row in rest;
    assert PairableIds(s.rows + s.lost, b) - PairableIds(held, b) == PairableIds(rest + s.lost, b);
  }

  lemma AgreePutUp(s: Screen, t: Tally, row: Row, b: Boundary)
    requires Agree(s, t, b) && row.id !in s.used
    ensures Agree(Step(s, PutUp(row)), Count(t, Written(s, PutUp(row)), b), b)
  {
    var e := row.Record(Mounted);
    assert [e][..0] == [];
    assert Count(t, [e], b) == Add(t, e, b);
    DistinctSplit(s.rows, s.lost);
    DistinctJoin(s.rows, [row]);
    DistinctJoin(s.rows + [row], s.lost);
    assert PairableIds((s.rows + [row]) + s.lost, b)
        == PairableIds(s.rows + s.lost, b) + if Pairable(row, b) then {row.id} else {};
  }

  lemma AgreeReplace(s: Screen, t: Tally, r: Renderer, b: Boundary)
    requires Agree(s, t, b)
    ensures Agree(Step(s, Replace(r)), Count(t, Written(s, Replace(r)), b), b)
  {
    SplitRows(s, r);
    HeldRows(s.rows, r);
    var held, rest := Held(s.rows, r), NotHeld(s.rows, r);
    assert forall row :: row in s.rows + s.lost <==> row in rest + (s.lost + held);
  }

  lemma AgreeNote(s: Screen, t: Tally, r: Renderer, b: Boundary)
    requires Agree(s, t, b)
    ensures Agree(Step(s, Note(r)), Count(t, Written(s, Note(r)), b), b)
  {
    assert [Entry(Other, None, r)][..0] == [];
  }

  lemma AgreeStep(s: Screen, t: Tally, act: Act, b: Boundary)
    requires Agree(s, t, b) && Possible(s, act)
    ensures Agree(Step(s, act), Count(t, Written(s, act), b), b)
  {
    hide Agree, Step, Count, Written;
    match act
    case TakeDown(r) => AgreeTakeDown(s, t, r, b);
    case PutUp(row) => AgreePutUp(s, t, row, b);
    case Replace(r) => AgreeReplace(s, t, r, b);
    case Note(r) => AgreeNote(s, t, r, b);
  }

  lemma {:induction false} AgreeAfter(s: Screen, acts: seq<Act>, b: Boundary)
    requires AtBoundary(s, b) && Happens(s, acts)
    ensures Agree(After(s, acts), Count(NOTHING, Journal(s, acts), b), b)
    decreases |acts|
  {
    if acts == [] {
      assert PairableIds(s.rows + s.lost, b) == {};
    } else {
      hide Agree, Step, Written;
      var before := acts[..|acts| - 1];
      AgreeAfter(s, before, b);
      AgreeStep(After(s, before), Count(NOTHING, Journal(s, before), b), acts[|acts| - 1], b);
      CountContinues(NOTHING, Journal(s, before), Written(After(s, before), acts[|acts| - 1]), b);
    }
  }

  lemma DistinctFromLast(before: seq<Row>, row: Row, b: Boundary)
    requires DistinctIds(before + [row])
    ensures DistinctIds(before) && row.id !in PairableIds(before, b)
  {
    DistinctSplit(before, [row]);
    assert row in [row];
  }

  /** Rows with different identities are as many as their identities. */
  lemma {:induction false} IdsCounted(rows: seq<Row>, b: Boundary)
    requires DistinctIds(rows)
    ensures |PairableIds(rows, b)| <= |Current(rows, b)|
    ensures AllPairable(rows, b) ==> |PairableIds(rows, b)| == |Current(rows, b)|
    decreases |rows|
  {
    if rows != [] {
      hide PairableIds, DistinctIds;
      var before, row := rows[..|rows| - 1], rows[|rows| - 1];
      assert rows == before + [row];
      DistinctFromLast(before, row, b);
      IdsCounted(before, b);
      PairableIdsPush(before, row, b);
      if AllPairable(rows, b) { assert row in rows && AllPairable(before, b); }
    }
  }

  ghost predicate NothingLost(s: Screen, b: Boundary) {
    PairableIds(s.lost, b) == {}
  }

  /** The rows the count calls live are those on screen, exactly when none went with a replaced renderer. */
  lemma LiveExactly(s: Screen, acts: seq<Act>, b: Boundary)
    requires AtBoundary(s, b) && Happens(s, acts)
    ensures var end, live := After(s, acts), Count(NOTHING, Journal(s, acts), b).live;
            && PairableIds(end.rows, b) <= live
            && (live == PairableIds(end.rows, b) <==> NothingLost(end, b))
  {
    var end := After(s, acts);
    AgreeAfter(s, acts, b);
    DistinctSplit(end.rows, end.lost);
    assert PairableIds(end.rows + end.lost, b) == PairableIds(end.rows, b) + PairableIds(end.lost, b);
    assert PairableIds(end.rows, b) !! PairableIds(end.lost, b);
  }

  /** No step replaced an incoming renderer that then held a row the count knows of. */
  ghost predicate NoneTaken(s: Screen, acts: seq<Act>, b: Boundary) {
    acts != [] ==>
      var before, act := acts[..|acts| - 1], acts[|acts| - 1];
      && NoneTaken(s, before, b)
      && (act.Replace? ==> PairableIds(Held(After(s, before).rows, act.renderer), b) == {})
  }

  lemma {:induction false} NoneTakenExactly(s: Screen, acts: seq<Act>, b: Boundary)
    requires s.lost == []
    ensures NoneTaken(s, acts, b) <==> NothingLost(After(s, acts), b)
    decreases |acts|
  {
    if acts != [] {
      var before, act := acts[..|acts| - 1], acts[|acts| - 1];
      NoneTakenExactly(s, before, b);
      var now := After(s, before);
      if act.Replace? { PairableJoin(now.lost, Held(now.rows, act.renderer), b); }
    }
  }

  lemma PairableJoin(a: seq<Row>, c: seq<Row>, b: Boundary)
    ensures PairableIds(a + c, b) == PairableIds(a, b) + PairableIds(c, b)
  {
  }

  /** What an answer says of how many rows there are; `Unverified` says nothing. */
  predicate Right(answer: Cardinality, rows: nat) {
    && (answer == One ==> rows == 1)
    && (answer == Duplicate ==> rows >= 2)
    && (answer == Missing ==> rows == 0)
  }

  /** How many rows the count knows of went when their renderer was replaced. */
  ghost function TakenCount(s: Screen, acts: seq<Act>, b: Boundary): nat {
    if acts == [] then 0
    else
      var before, act := acts[..|acts| - 1], acts[|acts| - 1];
      TakenCount(s, before, b)
      + if act.Replace? then |PairableIds(Held(After(s, before).rows, act.renderer), b)| else 0
  }

  lemma {:induction false} TakenCounted(s: Screen, acts: seq<Act>, b: Boundary)
    requires AtBoundary(s, b) && Happens(s, acts)
    ensures TakenCount(s, acts, b) == |PairableIds(After(s, acts).lost, b)|
    decreases |acts|
  {
    if acts == [] {
      assert PairableIds(s.lost, b) == {};
    } else {
      var before, act := acts[..|acts| - 1], acts[|acts| - 1];
      TakenCounted(s, before, b);
      AgreeAfter(s, before, b);
      if act.Replace? { LostPush(After(s, before), act.renderer, b); }
    }
  }

  lemma LostPush(now: Screen, r: Renderer, b: Boundary)
    requires Known(now)
    ensures |PairableIds(now.lost + Held(now.rows, r), b)|
         == |PairableIds(now.lost, b)| + |PairableIds(Held(now.rows, r), b)|
  {
    SplitRows(now, r);
    PairableJoin(now.lost, Held(now.rows, r), b);
    assert PairableIds(now.lost, b) !! PairableIds(Held(now.rows, r), b);
  }

  /** An incoming renderer put up a row whose records do not say which row it is, or of which reload. */
  predicate Unpaired(acts: seq<Act>, b: Boundary) {
    exists i :: 0 <= i < |acts| && acts[i].PutUp? && Incoming(acts[i].row, b) && !Pairable(acts[i].row, b)
  }

  lemma {:induction false} UnpairedExactly(s: Screen, acts: seq<Act>, b: Boundary)
    ensures Count(NOTHING, Journal(s, acts), b).unpairable > 0 <==> Unpaired(acts, b)
    decreases |acts|
  {
    if acts != [] {
      var before, act := acts[..|acts| - 1], acts[|acts| - 1];
      UnpairedExactly(s, before, b);
      UnpairedPush(before, act, b);
      assert acts == before + [act];
      CountContinues(NOTHING, Journal(s, before), Written(After(s, before), act), b);
      UnpairedWritten(Count(NOTHING, Journal(s, before), b), After(s, before), act, b);
    }
  }

  lemma UnpairedPush(before: seq<Act>, act: Act, b: Boundary)
    ensures Unpaired(before + [act], b)
            <==> Unpaired(before, b) || (act.PutUp? && Incoming(act.row, b) && !Pairable(act.row, b))
  {
    var acts := before + [act];
    if i :| 0 <= i < |before| && before[i].PutUp? && Incoming(before[i].row, b) && !Pairable(before[i].row, b) {
      assert acts[i] == before[i];
    }
    assert acts[|before|] == act;
  }

  lemma UnpairedWritten(t: Tally, now: Screen, act: Act, b: Boundary)
    ensures Count(t, Written(now, act), b).unpairable
         == t.unpairable + if act.PutUp? && Incoming(act.row, b) && !Pairable(act.row, b) then 1 else 0
  {
    match act
    case TakeDown(r) => CountDismounts(t, Held(now.rows, r), b);
    case PutUp(row) =>
      CountPush(t, [], row.Record(Mounted), b);
      assert [] + [row.Record(Mounted)] == [row.Record(Mounted)];
    case Replace(_) =>
    case Note(r) =>
      CountPush(t, [], Entry(Other, None, r), b);
      assert [] + [Entry(Other, None, r)] == [Entry(Other, None, r)];
  }

  /**
   When the answer is right about the panel, whatever the imports did and however they overlapped: exactly
   when no incoming renderer was replaced with a row up, or there are two rows all the same, or a row that
   could not be paired keeps the answer back from the only paired one, which went.
   */
  lemma VerdictRightExactly(s: Screen, acts: seq<Act>, b: Boundary)
    requires AtBoundary(s, b) && Happens(s, acts)
    ensures var end := After(s, acts);
            var rows := |Current(end.rows, b)|;
            Right(Count(NOTHING, Journal(s, acts), b).Cardinality(), rows)
            <==> NoneTaken(s, acts, b) || rows >= 2
                 || (Unpaired(acts, b) && TakenCount(s, acts, b) + |PairableIds(end.rows, b)| <= 1)
  {
    hide Count, NoneTaken, Current, Journal, After, PairableIds, TakenCount, Unpaired;
    var end, t := After(s, acts), Count(NOTHING, Journal(s, acts), b);
    NoneTakenExactly(s, acts, b);
    TakenCounted(s, acts, b);
    UnpairedExactly(s, acts, b);
    AgreeAfter(s, acts, b);
    DistinctSplit(end.rows, end.lost);
    IdsCounted(end.rows, b);
    LiveParts(end, t, b);
  }

  lemma LiveParts(end: Screen, t: Tally, b: Boundary)
    requires Agree(end, t, b)
    ensures |t.live| == |PairableIds(end.rows, b)| + |PairableIds(end.lost, b)|
  {
    DistinctSplit(end.rows, end.lost);
    PairableJoin(end.rows, end.lost, b);
    assert PairableIds(end.rows, b) !! PairableIds(end.lost, b);
  }

  /**
   What each answer means when no incoming renderer was replaced with a row up: `Duplicate` means two rows
   at least, and when every import could be paired the answer is exactly how many rows there are.
   */
  lemma VerdictExactly(s: Screen, acts: seq<Act>, b: Boundary)
    requires AtBoundary(s, b) && Happens(s, acts) && NoneTaken(s, acts, b)
    ensures var rows, t := |Current(After(s, acts).rows, b)|, Count(NOTHING, Journal(s, acts), b);
            && (t.Cardinality() == Duplicate ==> rows >= 2)
            && (t.unpairable == 0 ==>
                  && (t.Cardinality() == One <==> rows == 1)
                  && (t.Cardinality() == Duplicate <==> rows >= 2)
                  && (t.Cardinality() == Missing <==> rows == 0))
            && (t.unpairable > 0 ==> t.Cardinality() in {Duplicate, Unverified})
  {
    hide Count, NoneTaken;
    var end := After(s, acts);
    NoneTakenExactly(s, acts, b);
    LiveExactly(s, acts, b);
    AgreeAfter(s, acts, b);
    DistinctSplit(end.rows, end.lost);
    IdsCounted(end.rows, b);
  }

  // ---------- Imports that do not overlap ----------

  /** Whether every row an incoming renderer puts up finds none of its own there: imports one at a time. */
  ghost predicate OneAtATime(acts: seq<Act>, r: Renderer) {
    acts != [] ==>
      var before, act := acts[..|acts| - 1], acts[|acts| - 1];
      && OneAtATime(before, r)
      && (act.PutUp? && act.row.renderer == r ==> LastOwn(before, r) == Some(TakeDown(r)))
  }

  /** The last step of `r` itself: what it took down or put up most recently. */
  function LastOwn(acts: seq<Act>, r: Renderer): Option<Act> {
    if acts == [] then None
    else
      var act := acts[|acts| - 1];
      if (act.TakeDown? && act.renderer == r) || (act.PutUp? && act.row.renderer == r) then Some(act)
      else LastOwn(acts[..|acts| - 1], r)
  }

  /** Only `r` is incoming: every other row put up belongs to an outgoing renderer, and `r` stays. */
  predicate OnlyIncoming(acts: seq<Act>, r: Renderer, b: Boundary) {
    && GenerationOf(r, b) == New
    && (forall act :: act in acts && act.PutUp? ==> act.row.renderer == r || !Incoming(act.row, b))
    && (forall act :: act in acts && act.PutUp? && act.row.renderer == r ==> act.row.told)
    && Replace(r) !in acts
  }

  /** The rows `r` holds: the one it put up last, if that was the last thing it did. */
  ghost predicate HoldsLast(s: Screen, acts: seq<Act>, r: Renderer, b: Boundary) {
    var end, last := After(s, acts), LastOwn(acts, r);
    && Current(end.rows, b) == (if last.Some? && last.value.PutUp? then [last.value.row] else [])
    && (forall row :: row in end.lost ==> !Incoming(row, b))
    && (last.Some? && last.value.PutUp? ==> last.value.row.renderer == r)
  }

  lemma {:induction false} CurrentRows(rows: seq<Row>, b: Boundary)
    ensures forall row :: row in Current(rows, b) <==> row in rows && Incoming(row, b)
    decreases |rows|
  {
    if rows != [] {
      CurrentRows(rows[..|rows| - 1], b);
      assert rows == rows[..|rows| - 1] + [rows[|rows| - 1]];
    }
  }

  lemma {:induction false} NoneIncoming(rows: seq<Row>, b: Boundary)
    requires AllOutgoing(rows, b)
    ensures Current(rows, b) == []
    decreases |rows|
  {
    if rows != [] { NoneIncoming(rows[..|rows| - 1], b); }
  }

  lemma {:induction false} CurrentJoin(a: seq<Row>, c: seq<Row>, b: Boundary)
    ensures Current(a + c, b) == Current(a, b) + Current(c, b)
    decreases |c|
  {
    if c == [] {
      assert a + c == a;
    } else {
      assert (a + c)[..|a + c| - 1] == a + c[..|c| - 1];
      CurrentJoin(a, c[..|c| - 1], b);
    }
  }

  lemma CurrentOne(row: Row, b: Boundary)
    ensures Current([row], b) == if Incoming(row, b) then [row] else []
  {
    assert [row][..0] == [];
  }

  /** Taking away an outgoing renderer's rows leaves the incoming ones; taking away their own leaves the rest. */
  lemma {:induction false} CurrentNotHeld(rows: seq<Row>, x: Renderer, b: Boundary)
    ensures GenerationOf(x, b) == Outgoing ==> Current(NotHeld(rows, x), b) == Current(rows, b)
    ensures (forall row :: row in Current(rows, b) ==> row.renderer == x) && GenerationOf(x, b) != Outgoing
            ==> Current(NotHeld(rows, x), b) == []
    ensures (forall row :: row in Current(rows, b) ==> row.renderer != x)
            ==> Current(NotHeld(rows, x), b) == Current(rows, b)
  {
    if rows != [] {
      assert rows == [rows[0]] + rows[1..];
      CurrentJoin([rows[0]], rows[1..], b);
      CurrentOne(rows[0], b);
      CurrentNotHeld(rows[1..], x, b);
      CurrentJoin(if rows[0].renderer == x then [] else [rows[0]], NotHeld(rows[1..], x), b);
      assert Current([], b) == [];
    }
  }

  lemma HoldsPutUp(s: Screen, before: seq<Act>, row: Row, r: Renderer, b: Boundary)
    requires HoldsLast(s, before, r, b) && (row.renderer == r || !Incoming(row, b)) && GenerationOf(r, b) == New
    requires row.renderer == r ==> LastOwn(before, r) == Some(TakeDown(r))
    ensures HoldsLast(s, before + [PutUp(row)], r, b)
  {
    assert (before + [PutUp(row)])[..|before|] == before;
    CurrentJoin(After(s, before).rows, [row], b);
    CurrentOne(row, b);
  }

  lemma AfterPush(s: Screen, before: seq<Act>, act: Act, r: Renderer)
    ensures After(s, before + [act]) == Step(After(s, before), act)
    ensures LastOwn(before + [act], r)
         == if (act.TakeDown? && act.renderer == r) || (act.PutUp? && act.row.renderer == r) then Some(act)
            else LastOwn(before, r)
  {
    assert (before + [act])[..|before|] == before;
  }

  lemma HoldsTakenDown(s: Screen, before: seq<Act>, x: Renderer, r: Renderer, b: Boundary)
    requires HoldsLast(s, before, r, b) && GenerationOf(r, b) == New
    ensures HoldsLast(s, before + [TakeDown(x)], r, b)
  {
    hide After, LastOwn, Current, NotHeld;
    var now := After(s, before);
    AfterPush(s, before, TakeDown(x), r);
    CurrentNotHeld(now.rows, x, b);
  }

  lemma HoldsReplaced(s: Screen, before: seq<Act>, x: Renderer, r: Renderer, b: Boundary)
    requires HoldsLast(s, before, r, b) && GenerationOf(r, b) == New && x != r
    ensures HoldsLast(s, before + [Replace(x)], r, b)
  {
    hide After, LastOwn, Current, NotHeld, Held;
    var now := After(s, before);
    AfterPush(s, before, Replace(x), r);
    CurrentNotHeld(now.rows, x, b);
    HeldRows(now.rows, x);
    CurrentRows(now.rows, b);
    forall row | row in now.lost + Held(now.rows, x)
      ensures !Incoming(row, b)
    {
      if row in Held(now.rows, x) { assert row !in Current(now.rows, b); }
    }
  }

  lemma {:induction false} HoldsAfter(s: Screen, acts: seq<Act>, r: Renderer, b: Boundary)
    requires AtBoundary(s, b) && OnlyIncoming(acts, r, b) && OneAtATime(acts, r)
    ensures HoldsLast(s, acts, r, b)
    decreases |acts|
  {
    if acts == [] {
      NoneIncoming(s.rows, b);
    } else {
      var before, act := acts[..|acts| - 1], acts[|acts| - 1];
      assert acts == before + [act];
      assert OnlyIncoming(before, r, b);
      HoldsAfter(s, before, r, b);
      match act
      case PutUp(row) => HoldsPutUp(s, before, row, r, b);
      case Note(_) =>
      case TakeDown(x) => HoldsTakenDown(s, before, x, r, b);
      case Replace(x) => HoldsReplaced(s, before, x, r, b);
    }
  }

  /** Any number of imports one after another, whatever the outgoing renderers do meanwhile: one row. */
  lemma ImportsOneAtATime(s: Screen, acts: seq<Act>, r: Renderer, b: Boundary)
    requires AtBoundary(s, b) && Happens(s, acts) && OnlyIncoming(acts, r, b) && OneAtATime(acts, r)
    requires LastOwn(acts, r).Some? && LastOwn(acts, r).value.PutUp?
    ensures Count(NOTHING, Journal(s, acts), b).Cardinality() == One
  {
    hide Count, Journal, After;
    HoldsAfter(s, acts, r, b);
    NothingUnpaired(s, acts, r, b);
    NoneIncomingLost(After(s, acts), b);
    NoneTakenExactly(s, acts, b);
    VerdictExactly(s, acts, b);
  }

  lemma NoneIncomingLost(end: Screen, b: Boundary)
    requires forall row :: row in end.lost ==> !Incoming(row, b)
    ensures NothingLost(end, b)
  {
  }

  /** A tally no record of `entries` makes less certain. */
  lemma {:induction false} CertainEntries(t: Tally, entries: seq<Entry>, b: Boundary)
    requires forall e :: e in entries && e.event == Mounted && GenerationOf(e.renderer, b) != Outgoing
                         ==> e.instance.Some? && GenerationOf(e.renderer, b) == New
    ensures Count(t, entries, b).unpairable == t.unpairable
    decreases |entries|
  {
    if entries != [] {
      CertainEntries(t, entries[..|entries| - 1], b);
      assert entries[|entries| - 1] in entries;
    }
  }

  lemma {:induction false} DismountsOnly(rows: seq<Row>)
    ensures forall e :: e in Dismounts(rows) ==> e.event == Dismounted
    decreases |rows|
  {
    if rows != [] { DismountsOnly(rows[..|rows| - 1]); }
  }

  lemma {:induction false} NothingUnpaired(s: Screen, acts: seq<Act>, r: Renderer, b: Boundary)
    requires OnlyIncoming(acts, r, b)
    ensures Count(NOTHING, Journal(s, acts), b).unpairable == 0
    decreases |acts|
  {
    if acts != [] {
      var before, act := acts[..|acts| - 1], acts[|acts| - 1];
      assert acts == before + [act];
      NothingUnpaired(s, before, r, b);
      var now := After(s, before);
      if act.TakeDown? { DismountsOnly(Held(now.rows, act.renderer)); }
      CountContinues(NOTHING, Journal(s, before), Written(now, act), b);
      CertainEntries(Count(NOTHING, Journal(s, before), b), Written(now, act), b);
    }
  }

  // ---------- Two limits ----------

  const FIRST := Renderer(Some("a"), Some(3000.0))
  const SECOND := Renderer(Some("b"), Some(4000.0))
  const ASKED := Boundary({}, Some(1.0))
  const EMPTY := Screen([], [], {})

  /** Whether nothing from step `i` on took down what `r` holds, or replaced it. */
  predicate Untouched(acts: seq<Act>, i: nat, r: Renderer) {
    forall k :: i <= k < |acts| ==> acts[k] != TakeDown(r) && acts[k] != Replace(r)
  }

  /** A row put up and not touched since is on screen. */
  lemma {:induction false} RowStays(s: Screen, acts: seq<Act>, i: nat, row: Row)
    requires i < |acts| && acts[i] == PutUp(row) && Untouched(acts, i + 1, row.renderer)
    ensures row in After(s, acts).rows
    decreases |acts|
  {
    var before, act := acts[..|acts| - 1], acts[|acts| - 1];
    if i == |acts| - 1 {
      assert row in After(s, before).rows + [row];
    } else {
      assert acts[|acts| - 1] != TakeDown(row.renderer) && acts[|acts| - 1] != Replace(row.renderer);
      RowStays(s, before, i, row);
      if act.TakeDown? || act.Replace? { HeldRows(After(s, before).rows, act.renderer); }
    }
  }

  /**
   Two imports that overlap: the second row goes up with nothing of that renderer taken down since the
   first. Whatever else happens, both rows are on screen and the answer is `Duplicate`.
   */
  lemma OverlapIsSeen(s: Screen, acts: seq<Act>, i: nat, j: nat, b: Boundary)
    requires AtBoundary(s, b) && Happens(s, acts) && i < j < |acts| && acts[i].PutUp? && acts[j].PutUp?
    requires Pairable(acts[i].row, b) && Pairable(acts[j].row, b) && acts[i].row.renderer == acts[j].row.renderer
    requires Untouched(acts, i + 1, acts[i].row.renderer)
    ensures acts[i].row in After(s, acts).rows && acts[j].row in After(s, acts).rows && acts[i].row.id != acts[j].row.id
    ensures Count(NOTHING, Journal(s, acts), b).Cardinality() == Duplicate
  {
    hide Count, After, Journal, Happens;
    RowStays(s, acts, i, acts[i].row);
    RowStays(s, acts, j, acts[j].row);
    NewId(s, acts, i, j);
    AgreeAfter(s, acts, b);
    var ids, live := {acts[i].row.id, acts[j].row.id}, Count(NOTHING, Journal(s, acts), b).live;
    assert ids <= live;
    assert |live| >= |ids| by { assert live == ids + (live - ids); }
  }

  /** No identity is used twice. */
  lemma {:induction false} NewId(s: Screen, acts: seq<Act>, i: nat, j: nat)
    requires Happens(s, acts) && i < j < |acts| && acts[i].PutUp? && acts[j].PutUp?
    ensures acts[i].row.id != acts[j].row.id
    decreases |acts|
  {
    if j < |acts| - 1 {
      NewId(s, acts[..|acts| - 1], i, j);
    } else {
      IdUsed(s, acts[..|acts| - 1], i);
    }
  }

  lemma {:induction false} IdUsed(s: Screen, acts: seq<Act>, i: nat)
    requires i < |acts| && acts[i].PutUp?
    ensures acts[i].row.id in After(s, acts).used
    decreases |acts|
  {
    if i < |acts| - 1 { IdUsed(s, acts[..|acts| - 1], i); }
  }

  lemma Unmoved(s: Screen)
    ensures After(s, []) == s && Journal(s, []) == []
  {
  }

  lemma WrittenNext(s: Screen, before: seq<Act>, act: Act)
    ensures Journal(s, before + [act]) == Journal(s, before) + Written(After(s, before), act)
    ensures After(s, before + [act]) == Step(After(s, before), act)
  {
    assert (before + [act])[..|before|] == before;
  }

  lemma TwoCounted(e1: Entry, e2: Entry)
    requires e1.event == Mounted && e1.instance == Some("1") && GenerationOf(e1.renderer, ASKED) == New
    requires e2.event == Mounted && e2.instance == Some("2") && GenerationOf(e2.renderer, ASKED) == New
    ensures Count(NOTHING, [e1] + [e2], ASKED).Cardinality() == Duplicate
  {
    CountPush(NOTHING, [], e1, ASKED);
    assert [] + [e1] == [e1];
    CountPush(NOTHING, [e1], e2, ASKED);
    var live := Count(NOTHING, [e1] + [e2], ASKED).live;
    assert "1"[0] != "2"[0];
    assert live == {"1", "2"};
    assert |live| == 2;
  }

  /** When the incoming renderer is itself replaced, its row is still counted: one on screen, two reported. */
  lemma ReplacedAgainIsMiscounted()
    ensures var acts := [PutUp(Row(FIRST, "1", true)), Replace(FIRST), PutUp(Row(SECOND, "2", true))];
            && |Current(After(EMPTY, acts).rows, ASKED)| == 1
            && Count(NOTHING, Journal(EMPTY, acts), ASKED).Cardinality() == Duplicate
  {
    hide Count, After, Journal, Current;
    var one, two := Row(FIRST, "1", true), Row(SECOND, "2", true);
    var a1 := [PutUp(one)];
    var a2 := a1 + [Replace(FIRST)];
    Unmoved(EMPTY);
    WrittenNext(EMPTY, [], PutUp(one));
    assert [] + a1 == a1;
    WrittenNext(EMPTY, a1, Replace(FIRST));
    WrittenNext(EMPTY, a2, PutUp(two));
    assert After(EMPTY, a1).rows == [one] && [one][1..] == [];
    assert NotHeld([one], FIRST) == [];
    assert After(EMPTY, a2 + [PutUp(two)]).rows == [two];
    assert Journal(EMPTY, a2 + [PutUp(two)]) == [one.Record(Mounted)] + [two.Record(Mounted)];
    CurrentOne(two, ASKED);
    TwoCounted(one.Record(Mounted), two.Record(Mounted));
    assert a2 + [PutUp(two)] == [PutUp(one), Replace(FIRST), PutUp(two)];
  }
}
