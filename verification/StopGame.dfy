/**
 Stopping a game by signalling the processes that declare its AppID, over a process table that changes
 all the while. What each reading of the table, the clock and each signal meets is given.
 */
module StopGame {
  import opened Wrappers

  const SHORTCUT_TYPE := 0x02000000
  const MAX_APP_ID := 0xFFFFFFFF
  const MAX_SCANNED := 32768
  const KILL_SETTLE := 5.0

  // ---------- Game ids ----------

  function GameId(app: int, shortcut: bool): (r: Result<int, ()>)
    ensures r.Success? <==> 1 <= app <= MAX_APP_ID
  {
    if app < 1 || app > MAX_APP_ID then Failure(())
    else Success(if shortcut then app * 0x1_0000_0000 + SHORTCUT_TYPE else app)
  }

  /** No two of the games there can be, store apps and shortcuts, have one game id. */
  lemma GameIdsDiffer(a: int, aShortcut: bool, b: int, bShortcut: bool)
    requires GameId(a, aShortcut).Success? && GameId(b, bShortcut).Success?
    ensures GameId(a, aShortcut) == GameId(b, bShortcut) <==> a == b && aShortcut == bShortcut
  {
  }

  // ---------- Ancestors ----------

  /** The process `n` steps above another, while there is one that can be read above the first. */
  function Above(parents: map<int, int>, pid: int, n: nat): Option<int>
    decreases n
  {
    if pid <= 1 then None
    else if n == 0 then Some(pid)
    else if pid !in parents then None
    else Above(parents, parents[pid], n - 1)
  }

  ghost predicate IsAbove(parents: map<int, int>, pid: int, p: int) {
    exists n: nat :: Above(parents, pid, n) == Some(p)
  }

  lemma {:induction false} AboveNext(parents: map<int, int>, pid: int, n: nat)
    ensures Above(parents, pid, n + 1)
            == match Above(parents, pid, n)
               case None => None
               case Some(p) => if p in parents && parents[p] > 1 then Some(parents[p]) else None
    decreases n
  {
    if pid > 1 && pid in parents && n > 0 {
      AboveNext(parents, parents[pid], n - 1);
    } else if pid > 1 && pid in parents {
      assert Above(parents, parents[pid], 0) == if parents[pid] > 1 then Some(parents[pid]) else None;
    }
  }

  /** Everything above a process, itself among it: as many steps as end in a process seen before. */
  predicate ClosedAbove(parents: map<int, int>, seen: set<int>) {
    forall p :: p in seen && p in parents && parents[p] > 1 ==> parents[p] in seen
  }

  lemma {:induction false} ClosedHasAll(parents: map<int, int>, pid: int, seen: set<int>, n: nat)
    requires ClosedAbove(parents, seen) && (pid > 1 ==> pid in seen)
    ensures Above(parents, pid, n).Some? ==> Above(parents, pid, n).value in seen
  {
    if n > 0 {
      ClosedHasAll(parents, pid, seen, n - 1);
      AboveNext(parents, pid, n - 1);
    }
  }

  /** Walks up from a process until there is nothing more to read or it has been there: any parents will do. */
  method Ancestors(own: int, parents: map<int, int>) returns (seen: set<int>)
    ensures forall p :: p in seen <==> IsAbove(parents, own, p)
  {
    seen := {};
    var pid := own;
    ghost var n: nat := 0;
    while pid > 1 && pid !in seen
      invariant forall p :: p in seen ==> IsAbove(parents, own, p)
      invariant pid > 1 ==> Above(parents, own, n) == Some(pid)
      invariant own > 1 ==> own in seen || pid == own
      invariant forall p :: p in seen && p in parents && parents[p] > 1 ==> parents[p] in seen || parents[p] == pid
      invariant forall p :: p in seen ==> p in parents
      decreases |parents.Keys - seen|
    {
      assert IsAbove(parents, own, pid);
      seen := seen + {pid};
      if pid !in parents { break; }
      AboveNext(parents, own, n);
      Fewer(parents.Keys - (seen - {pid}), parents.Keys - seen, pid);
      pid, n := parents[pid], n + 1;
    }
    assert ClosedAbove(parents, seen);
    forall p | IsAbove(parents, own, p)
      ensures p in seen
    {
      var k: nat :| Above(parents, own, k) == Some(p);
      ClosedHasAll(parents, own, seen, k);
    }
  }

  lemma Fewer(a: set<int>, c: set<int>, x: int)
    requires x in a && x !in c && c <= a
    ensures |c| < |a|
  {
    assert a == c + (a - c);
    assert x in a - c;
  }

  // ---------- A scan ----------

  /** A process as one scan reads it: whose it is, or that it could not be read. */
  datatype Kind = Game | Owned | Other | Unreadable

  datatype Process = Process(pid: int, kind: Kind)

  type Table = seq<Process>

  predicate Listed(table: Table, pid: int, kind: Kind) {
    Process(pid, kind) in table
  }

  /** The processes of one kind in a scan, none of them protected. */
  ghost predicate Scanned(pids: seq<int>, table: Table, kind: Kind, protected: set<int>) {
    forall pid :: pid in pids <==> Listed(table, pid, kind) && pid !in protected
  }

  method GameProcesses(table: Table, protected: set<int>) returns (r: Result<(seq<int>, seq<int>), ()>)
    ensures r.Success? <==> |table| <= MAX_SCANNED
    ensures r.Success? ==> Scanned(r.value.0, table, Game, protected) && Scanned(r.value.1, table, Owned, protected)
  {
    if |table| > MAX_SCANNED { return Failure(()); }
    var game, owned := [], [];
    for n := 0 to |table|
      invariant Scanned(game, table[..n], Game, protected) && Scanned(owned, table[..n], Owned, protected)
    {
      var p := table[n];
      assert table[..n + 1] == table[..n] + [p];
      if p.pid in protected || p.kind == Unreadable || p.kind == Other { continue; }
      if p.kind == Owned { owned := owned + [p.pid]; } else { game := game + [p.pid]; }
    }
    assert table[..|table|] == table;
    return Success((game, owned));
  }

  // ---------- Stopping ----------

  datatype Number = Term | Kill

  /** One signal sent: to whom, which, and after how many scans. */
  datatype Signal = Signal(pid: int, number: Number, scan: nat)

  /** What the machine does meanwhile: its table at each scan, its clock, and which signals find nobody. */
  datatype Machine = Machine(tables: nat -> Table, clock: nat -> real, gone: (nat, int) -> bool)

  /** The clock goes on by at least the shorter wait from one scan to the next. */
  predicate ClockAdvances(m: Machine, scan: nat) {
    m.clock(scan + 1) >= m.clock(scan) + 0.5
  }

  datatype Stopped = Stopped(running: bool, terminated: seq<int>, killed: seq<int>, survivors: seq<int>)

  datatype Refusal = UnreadableTable | StillAttached

  /** The signals of one round: each process listed, unless it was gone, once and in order. */
  method SignalAll(m: Machine, pids: seq<int>, number: Number, scan: nat)
    returns (sent: seq<int>, signals: seq<Signal>)
    ensures |signals| == |sent| && forall i :: 0 <= i < |sent| ==> signals[i] == Signal(sent[i], number, scan)
    ensures forall pid :: pid in sent <==> pid in pids && !m.gone(scan, pid)
  {
    sent, signals := [], [];
    for n := 0 to |pids|
      invariant |signals| == |sent| && forall i :: 0 <= i < |sent| ==> signals[i] == Signal(sent[i], number, scan)
      invariant forall pid :: pid in sent <==> pid in pids[..n] && !m.gone(scan, pid)
    {
      assert pids[..n + 1] == pids[..n] + [pids[n]];
      if !m.gone(scan, pids[n]) {
        sent := sent + [pids[n]];
        signals := signals + [Signal(pids[n], number, scan)];
      }
    }
    assert pids[..|pids|] == pids;
  }

  /** Nothing of CE Decky's is in the first scan. */
  predicate NoneOwned(m: Machine, protected: set<int>) {
    forall p :: p in m.tables(0) && p.kind == Owned ==> p.pid in protected
  }

  /**
   A signal that may be sent: the process is this game's in the scan it follows, and is neither the
   helper nor above it; TERM follows the first scan alone, with nothing of CE Decky's in it.
   */
  predicate Allowed(m: Machine, s: Signal, protected: set<int>) {
    && s.scan >= 1 && s.pid !in protected && Listed(m.tables(s.scan - 1), s.pid, Game)
    && (s.number == Term ==> s.scan == 1 && NoneOwned(m, protected))
    && (s.number == Kill ==> s.scan >= 2)
  }

  predicate AllAllowed(m: Machine, signals: seq<Signal>, protected: set<int>) {
    forall s :: s in signals ==> Allowed(m, s, protected)
  }

  lemma RoundAllowed(m: Machine, pids: seq<int>, sent: seq<int>, signals: seq<Signal>, number: Number, scan: nat,
                     protected: set<int>)
    requires |signals| == |sent| && forall i :: 0 <= i < |sent| ==> signals[i] == Signal(sent[i], number, scan)
    requires forall pid :: pid in sent ==> pid in pids
    requires scan >= 1 && Scanned(pids, m.tables(scan - 1), Game, protected)
    requires number == Term ==> scan == 1 && NoneOwned(m, protected)
    requires number == Kill ==> scan >= 2
    ensures AllAllowed(m, signals, protected)
  {
    forall s | s in signals
      ensures Allowed(m, s, protected)
    {
      var i :| 0 <= i < |signals| && signals[i] == s;
      assert sent[i] in sent;
    }
  }

  /** No process of this game was left unprotected in one scan. */
  predicate NoneLeft(m: Machine, scan: nat, protected: set<int>) {
    forall p :: p in m.tables(scan) && p.kind == Game ==> p.pid in protected
  }

  /** Everything of this game in one scan was gone by the signals after it. */
  predicate AllGone(m: Machine, scan: nat, protected: set<int>) {
    forall p :: p in m.tables(scan) && p.kind == Game && p.pid !in protected ==> m.gone(scan + 1, p.pid)
  }

  /** The pids of one round are exactly this game's in the scan before it that were still there. */
  ghost predicate Round(m: Machine, sent: seq<int>, scan: nat, protected: set<int>) {
    forall pid :: pid in sent
                  <==> Listed(m.tables(scan), pid, Game) && pid !in protected && !m.gone(scan + 1, pid)
  }

  /** No scan from `first` up to the one before scan `last` could have ended a wait that began at `started`. */
  predicate GoneOn(m: Machine, protected: set<int>, started: real, wait: real, first: nat, last: nat) {
    forall k :: first <= k < last ==>
      |m.tables(k)| <= MAX_SCANNED && !NoneLeft(m, k, protected) && m.clock(k + 1) - started < wait
  }

  /** What was sent: TERM to the one list after the first scan, then KILL to the other. */
  predicate SentTo(signals: seq<Signal>, terminated: seq<int>, killed: seq<int>) {
    && |signals| == |terminated| + |killed|
    && (forall i :: 0 <= i < |terminated| ==> signals[i] == Signal(terminated[i], Term, 1))
    && forall i :: 0 <= i < |killed| ==>
         signals[|terminated| + i].pid == killed[i] && signals[|terminated| + i].number == Kill
  }

  /**
   A KILL round after scan `k`: the first scan of the wait that ended it, by the time it took, and what was
   still there then; what is called running afterwards is there after the settling time too.
   */
  ghost predicate KilledAfter(m: Machine, protected: set<int>, wait: real, r: Stopped, k: nat, scans: nat) {
    && 1 <= k <= scans && Round(m, r.killed, k, protected)
    && GoneOn(m, protected, m.clock(1), wait, 1, k) && m.clock(k + 1) - m.clock(1) >= wait
    && GoneOn(m, protected, m.clock(k + 1), KILL_SETTLE, k + 1, scans)
    && (r.running ==> m.clock(scans + 1) - m.clock(k + 1) >= KILL_SETTLE)
  }

  /** Scans until the game has gone or the wait is over; `n` is how many scans there have been. */
  method AwaitEnd(m: Machine, protected: set<int>, started: real, wait: real, first: nat)
    returns (left: Result<seq<int>, Refusal>, n: nat)
    requires forall k: nat :: ClockAdvances(m, k)
    ensures n > first && (left.Failure? ==> left.error == UnreadableTable)
    ensures left.Success? ==> Scanned(left.value, m.tables(n - 1), Game, protected)
    ensures left.Success? && left.value != [] ==> m.clock(n) - started >= wait
    ensures left.Success? <==> |m.tables(n - 1)| <= MAX_SCANNED
    ensures GoneOn(m, protected, started, wait, first, n - 1)
  {
    hide NoneLeft, GoneOn;
    GoneOnNone(m, protected, started, wait, first);
    n := first;
    while true
      invariant n >= first && GoneOn(m, protected, started, wait, first, n)
      decreases 2.0 * (started + wait - m.clock(n)) + 1.0
    {
      var scan := GameProcesses(m.tables(n), protected);
      assert ClockAdvances(m, n);
      n := n + 1;
      if scan.Failure? { return Failure(UnreadableTable), n; }
      if scan.value.0 == [] || m.clock(n) - started >= wait { return Success(scan.value.0), n; }
      SomeLeft(m, n - 1, protected, scan.value.0);
      GoneOnNext(m, protected, started, wait, first, n);
    }
  }

  lemma GoneOnNone(m: Machine, protected: set<int>, started: real, wait: real, first: nat)
    ensures GoneOn(m, protected, started, wait, first, first)
  {
  }

  lemma GoneOnNext(m: Machine, protected: set<int>, started: real, wait: real, first: nat, n: nat)
    requires first < n && GoneOn(m, protected, started, wait, first, n - 1)
    requires |m.tables(n - 1)| <= MAX_SCANNED && !NoneLeft(m, n - 1, protected) && m.clock(n) - started < wait
    ensures GoneOn(m, protected, started, wait, first, n)
  {
    hide NoneLeft;
  }

  lemma SomeLeft(m: Machine, scan: nat, protected: set<int>, game: seq<int>)
    requires game != [] && Scanned(game, m.tables(scan), Game, protected)
    ensures !NoneLeft(m, scan, protected)
  {
    assert game[0] in game && Listed(m.tables(scan), game[0], Game);
    assert Process(game[0], Game) in m.tables(scan);
  }

  method Stop(m: Machine, own: int, parents: map<int, int>, wait: real)
    returns (outcome: Result<Stopped, Refusal>, signals: seq<Signal>, ghost protected: set<int>, ghost scans: nat)
    requires forall k: nat :: ClockAdvances(m, k)
    ensures forall p :: p in protected <==> IsAbove(parents, own, p)
    ensures AllAllowed(m, signals, protected)
    ensures outcome == Failure(StillAttached) ==> signals == [] && !NoneOwned(m, protected)
    ensures outcome.Success? ==>
              && Round(m, outcome.value.terminated, 0, protected)
              && (outcome.value.running <==> outcome.value.survivors != [])
              && (outcome.value.running ==> Scanned(outcome.value.survivors, m.tables(scans), Game, protected))
              && (!outcome.value.running ==> NoneLeft(m, scans, protected) || AllGone(m, scans, protected))
              && SentTo(signals, outcome.value.terminated, outcome.value.killed)
              && (outcome.value.killed == [] ==> !outcome.value.running)
              && (outcome.value.killed != [] ==>
                    exists k: nat :: KilledAfter(m, protected, wait, outcome.value, k, scans))
  {
    hide Round, NoneLeft, AllGone, Allowed, GoneOn;
    signals, scans := [], 0;
    var above := Ancestors(own, parents);
    protected := above;
    var scan := GameProcesses(m.tables(0), above);
    if scan.Failure? { return Failure(UnreadableTable), signals, protected, scans; }
    var (game, owned) := scan.value;
    if owned != [] {
      assert owned[0] in owned && Process(owned[0], Owned) in m.tables(0);
      return Failure(StillAttached), signals, protected, scans;
    }
    if game == [] {
      NothingLeft(m, 0, above, game);
      return Success(Stopped(false, [], [], [])), signals, protected, scans;
    }
    var started := m.clock(1);
    var terminated, terms := SignalAll(m, game, Term, 1);
    RoundAllowed(m, game, terminated, terms, Term, 1, above);
    RoundSent(m, game, terminated, 0, above);
    signals := terms;
    var left, n := AwaitEnd(m, above, started, wait, 1);
    if left.Failure? { return Failure(left.error), signals, protected, scans; }
    scans := n - 1;
    if left.value == [] {
      NothingLeft(m, n - 1, above, left.value);
      return Success(Stopped(false, terminated, [], [])), signals, protected, scans;
    }
    var killed, kills := SignalAll(m, left.value, Kill, n);
    RoundAllowed(m, left.value, killed, kills, Kill, n, above);
    RoundSent(m, left.value, killed, n - 1, above);
    signals := signals + kills;
    if killed == [] {
      NobodySent(m, n - 1, above);
      return Success(Stopped(false, terminated, [], [])), signals, protected, scans;
    }
    ghost var after := n - 1;
    var survivors, later := AwaitEnd(m, above, m.clock(n), KILL_SETTLE, n);
    if survivors.Failure? { return Failure(survivors.error), signals, protected, scans; }
    scans := later - 1;
    assert Round(m, killed, after, above);
    if survivors.value == [] { NothingLeft(m, scans, above, survivors.value); }
    outcome := Success(Stopped(survivors.value != [], terminated, killed, survivors.value));
    assert KilledAfter(m, protected, wait, outcome.value, after, scans);
    return outcome, signals, protected, scans;
  }

  lemma NothingLeft(m: Machine, scan: nat, protected: set<int>, game: seq<int>)
    requires game == [] && Scanned(game, m.tables(scan), Game, protected)
    ensures NoneLeft(m, scan, protected) && Round(m, [], scan, protected)
  {
    forall p | p in m.tables(scan) && p.kind == Game
      ensures p.pid in protected
    {
      assert Listed(m.tables(scan), p.pid, Game) <==> p in m.tables(scan);
    }
  }

  lemma RoundSent(m: Machine, pids: seq<int>, sent: seq<int>, scan: nat, protected: set<int>)
    requires Scanned(pids, m.tables(scan), Game, protected)
    requires forall pid :: pid in sent <==> pid in pids && !m.gone(scan + 1, pid)
    ensures Round(m, sent, scan, protected)
  {
  }

  lemma NobodySent(m: Machine, scan: nat, protected: set<int>)
    requires Round(m, [], scan, protected)
    ensures AllGone(m, scan, protected)
  {
    forall p | p in m.tables(scan) && p.kind == Game && p.pid !in protected
      ensures m.gone(scan + 1, p.pid)
    {
      var none: seq<int> := [];
      assert p.pid !in none;
      assert Listed(m.tables(scan), p.pid, Game) <==> p in m.tables(scan);
    }
  }
}
