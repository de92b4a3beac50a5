/**
 The branch the compatibility ledger lives on, and any number of coordinators that load it, change
 it and save it at the same time.

 The server is what the monitor relies on: commits that never change once made, and refs of which an
 update without force only fast-forwards. A commit's id is its place among the commits, so a parent
 always has the smaller id. How a status page is rendered is a parameter.
 */
module LedgerBranch {
  import opened Ledger
  import opened LedgerRuns
  import opened Wrappers

  const BRANCH := "compatibility-monitor-state"
  const BRANCH_FILES := {"README.md", "decky-compatibility.json", "STATUS.md"}

  type Id = nat

  datatype Commit = Commit(parent: Option<Id>, ledger: Ledger, page: Option<string>)

  datatype Server = Server(commits: seq<Commit>, refs: map<string, Id>)

  // ---------------------------------------------------------------- what the server does

  datatype Request =
    | Get
    | PostTree(paths: seq<string>)
    | PostCommit(parents: seq<Id>, ledger: Ledger, page: Option<string>)
    | PostRef(name: string, id: Id)
    | PatchRef(name: string, id: Id, force: bool)
    | Other

  /** The only requests that leave the coordinator's process. */
  predicate Allowed(r: Request) {
    match r
    case Get => true
    case PostTree(paths) => paths != [] && forall p :: p in paths ==> p in BRANCH_FILES
    case PostCommit(parents, _, _) => |parents| <= 1
    case PostRef(name, _) => name == BRANCH
    case PatchRef(name, _, force) => name == BRANCH && !force
    case Other => false
  }

  /** Every commit was made after its parent. */
  predicate Ordered(commits: seq<Commit>) {
    forall i :: 0 <= i < |commits| ==> commits[i].parent.Some? ==> commits[i].parent.value < i
  }

  predicate WellFormed(s: Server) {
    && Ordered(s.commits)
    && (forall name :: name in s.refs ==> s.refs[name] < |s.commits|)
  }

  /** Whether `a` is `c` or comes before it in its history. */
  predicate Ancestor(commits: seq<Commit>, a: Id, c: Id)
    requires Ordered(commits) && c < |commits|
    decreases c
  {
    a == c || (commits[c].parent.Some? && Ancestor(commits, a, commits[c].parent.value))
  }

  /** What a request changes, if the server accepts it. A commit that exists already is not made again. */
  function Serve(s: Server, r: Request): (r': Server)
    requires WellFormed(s)
    ensures WellFormed(r')
  {
    match r
    case PostCommit(parents, ledger, page) =>
      if |parents| == 0 then Server(s.commits + [Commit(None, ledger, page)], s.refs)
      else if |parents| == 1 && parents[0] < |s.commits| then
        Server(s.commits + [Commit(Some(parents[0]), ledger, page)], s.refs)
      else s
    case PostRef(name, id) =>
      if name in s.refs || id >= |s.commits| then s else Server(s.commits, s.refs[name := id])
    case PatchRef(name, id, force) =>
      if name !in s.refs || id >= |s.commits| || !(force || Ancestor(s.commits, s.refs[name], id)) then s
      else Server(s.commits, s.refs[name := id])
    case _ => s
  }

  function ServeAll(s: Server, requests: seq<Request>): (r: Server)
    requires WellFormed(s)
    ensures WellFormed(r)
    decreases requests
  {
    if requests == [] then s else ServeAll(Serve(s, requests[0]), requests[1..])
  }

  lemma {:induction false} AncestorStays(commits: seq<Commit>, more: seq<Commit>, a: Id, c: Id)
    requires Ordered(commits) && Ordered(commits + more) && c < |commits|
    ensures Ancestor(commits + more, a, c) <==> Ancestor(commits, a, c)
    decreases c
  {
    if commits[c].parent.Some? {
      AncestorStays(commits, more, a, commits[c].parent.value);
    }
  }

  lemma {:induction false} AncestorTransitive(commits: seq<Commit>, a: Id, b: Id, c: Id)
    requires Ordered(commits) && b < |commits| && c < |commits|
    requires Ancestor(commits, a, b) && Ancestor(commits, b, c)
    ensures Ancestor(commits, a, c)
    decreases c
  {
    if b != c {
      AncestorTransitive(commits, a, b, commits[c].parent.value);
    }
  }

  /** The branch as it was is still part of the branch as it is, and no other ref has moved. */
  ghost predicate Advanced(s: Server, t: Server)
    requires WellFormed(s) && WellFormed(t)
  {
    && s.commits <= t.commits
    && (forall name :: name != BRANCH ==>
          (name in s.refs <==> name in t.refs) && (name in s.refs ==> s.refs[name] == t.refs[name]))
    && (BRANCH in s.refs ==> BRANCH in t.refs && Ancestor(t.commits, s.refs[BRANCH], t.refs[BRANCH]))
  }

  lemma AllowedAdvances(s: Server, r: Request)
    requires WellFormed(s) && Allowed(r)
    ensures Advanced(s, Serve(s, r))
  {
    var t := Serve(s, r);
    assert s.commits <= t.commits;
  }

  lemma AdvancedTransitive(s: Server, t: Server, u: Server)
    requires WellFormed(s) && WellFormed(t) && WellFormed(u)
    requires Advanced(s, t) && Advanced(t, u)
    ensures Advanced(s, u)
  {
    if BRANCH in s.refs {
      var more := u.commits[|t.commits|..];
      assert u.commits == t.commits + more;
      AncestorStays(t.commits, more, s.refs[BRANCH], t.refs[BRANCH]);
      AncestorTransitive(u.commits, s.refs[BRANCH], t.refs[BRANCH], u.refs[BRANCH]);
    }
  }

  /**
   Whatever the coordinators send, in whatever order, as long as each request is one they allow
   themselves, nothing is ever taken off the branch and no other ref moves.
   */
  lemma {:induction false} AllowedNeverRewinds(s: Server, requests: seq<Request>)
    requires WellFormed(s) && forall r :: r in requests ==> Allowed(r)
    ensures Advanced(s, ServeAll(s, requests))
    decreases requests
  {
    if requests != [] {
      assert requests[0] in requests;
      AllowedAdvances(s, requests[0]);
      AllowedNeverRewinds(Serve(s, requests[0]), requests[1..]);
      AdvancedTransitive(s, Serve(s, requests[0]), ServeAll(s, requests));
    }
  }

  // ---------------------------------------------------------------- the coordinators

  type Render = Ledger -> string

  /** Where one coordinator stands. */
  datatype Coordinator =
    | Idle
    | AtHead(base: Id)                                                  // knows which commit the branch is at
    | Holding(base: Id, ledger: Ledger, page: Option<string>)           // has read that commit's files
    | Ready(base: Id, event: Event, next: Ledger)                       // has computed the ledger to save
    | Made(base: Id, event: Event, commit: Id)                          // has made the commit
    | Starting(start: int)                                              // found no branch
    | StartMade(start: int, commit: Id)                                 // has made the first commit

  /**
   The whole system. `landed` and the two fields after it record what has reached the branch: the
   commits in order, when the ledger was begun, and the event each later commit saved.
   */
  datatype System = System(server: Server, coordinators: seq<Coordinator>, landed: seq<Id>, start: int,
      events: seq<Event>)

  datatype Step =
    | ReadHead(c: nat)
    | ReadFiles(c: nat)
    | Work(c: nat, event: Event)
    | MakeCommit(c: nat, id: Id)
    | Patch(c: nat)
    | FindNoBranch(c: nat, now: int)
    | MakeFirst(c: nat, id: Id)
    | CreateRef(c: nat)
    | GiveUp(c: nat)

  function Move(s: System, c: nat, to: Coordinator): System
    requires c < |s.coordinators|
  {
    s.(coordinators := s.coordinators[c := to])
  }

  /**
   Asks for a commit. The server makes it, unless the same commit exists already: then `id` may be
   that one, since a commit's name is its content.
   */
  function WithCommit(s: System, commit: Commit, id: Id): Option<System> {
    if id < |s.server.commits| && s.server.commits[id] == commit then Some(s)
    else if id == |s.server.commits| && (commit.parent.Some? ==> commit.parent.value < id)
    then Some(s.(server := Server(s.server.commits + [commit], s.server.refs)))
    else None
  }

  /** One step of one coordinator. A step it cannot take changes nothing. */
  function Take(s: System, step: Step, render: Render): System
    requires WellFormed(s.server)
  {
    if step.c >= |s.coordinators| then s
    else
      var me := s.coordinators[step.c];
      var refs := s.server.refs;
      match step
      case ReadHead(c) => if me.Idle? && BRANCH in refs then Move(s, c, AtHead(refs[BRANCH])) else s
      case ReadFiles(c) =>
        if me.AtHead? && me.base < |s.server.commits| then
          var at := s.server.commits[me.base];
          Move(s, c, if Valid(at.ledger) then Holding(me.base, at.ledger, at.page) else Idle)
        else s
      case Work(c, event) =>
        if me.Holding? && WellIndexed(me.ledger) then
          match After(me.ledger, event)
          case None => Move(s, c, Idle)
          case Some(next) =>
            if next != me.ledger || me.page != Some(render(next)) then Move(s, c, Ready(me.base, event, next))
            else Move(s, c, Idle)
        else s
      case MakeCommit(c, id) =>
        if me.Ready? then
          match WithCommit(s, Commit(Some(me.base), me.next, Some(render(me.next))), id)
          case None => s
          case Some(s') => Move(s', c, Made(me.base, me.event, id))
        else s
      case Patch(c) =>
        if me.Made? then
          var after := Serve(s.server, PatchRef(BRANCH, me.commit, false));
          var moved := BRANCH in refs && BRANCH in after.refs && after.refs[BRANCH] != refs[BRANCH];
          Move(System(after, s.coordinators, if moved then s.landed + [me.commit] else s.landed, s.start,
                      if moved then s.events + [me.event] else s.events), c, Idle)
        else s
      case FindNoBranch(c, now) => if me.Idle? && BRANCH !in refs then Move(s, c, Starting(now)) else s
      case MakeFirst(c, id) =>
        if me.Starting? && Valid(NewLedger(me.start)) then
          match WithCommit(s, Commit(None, NewLedger(me.start), Some(render(NewLedger(me.start)))), id)
          case None => s
          case Some(s') => Move(s', c, StartMade(me.start, id))
        else s
      case CreateRef(c) =>
        if me.StartMade? then
          var after := Serve(s.server, PostRef(BRANCH, me.commit));
          var made := BRANCH !in refs && BRANCH in after.refs;
          var landed, start := if made then [me.commit] else s.landed, if made then me.start else s.start;
          Move(System(after, s.coordinators, landed, start, s.events), c, Idle)
        else s
      case GiveUp(c) => Move(s, c, Idle)
  }

  function TakeAll(s: System, steps: seq<Step>, render: Render): (r: System)
    requires WellFormed(s.server)
    ensures WellFormed(r.server)
    decreases steps
  {
    if steps == [] then s
    else
      StepWellFormed(s, steps[0], render);
      TakeAll(Take(s, steps[0], render), steps[1..], render)
  }

  lemma StepWellFormed(s: System, step: Step, render: Render)
    requires WellFormed(s.server)
    ensures WellFormed(Take(s, step, render).server)
    ensures s.server.commits <= Take(s, step, render).server.commits
  {
    hide Valid, After, Ancestor;
  }

  /** The repository before the monitor's first run: any commits, no branch, everyone idle. */
  predicate Initial(s: System) {
    && WellFormed(s.server) && BRANCH !in s.server.refs
    && s.landed == [] && s.events == []
    && forall c :: c in s.coordinators ==> c == Idle
  }

  // ---------------------------------------------------------------- what always holds

  /** The landed commits are one unbroken line from a first commit to the branch's head. */
  predicate Linear(s: System) {
    && (BRANCH in s.server.refs <==> s.landed != [])
    && (s.landed != [] ==> s.server.refs[BRANCH] == s.landed[|s.landed| - 1])
    && (forall i :: 0 <= i < |s.landed| ==> s.landed[i] < |s.server.commits|)
    && (forall i :: 0 <= i < |s.landed| ==>
          s.server.commits[s.landed[i]].parent == if i == 0 then None else Some(s.landed[i - 1]))
  }

  /** Each landed commit saves the ledger its event makes of the one before it, and that ledger's own page. */
  predicate Truthful(s: System, render: Render)
    requires Linear(s)
  {
    && |s.events| == (if s.landed == [] then 0 else |s.landed| - 1)
    && forall i :: 0 <= i < |s.landed| ==> Saved(s.server.commits[s.landed[i]], s.start, s.events[..i], render)
  }

  /** A commit holds the ledger of a run, and that ledger's page. */
  predicate Saved(commit: Commit, start: int, events: seq<Event>, render: Render) {
    && Run(start, events) == Some(commit.ledger)
    && commit.page == Some(render(commit.ledger))
  }

  /** What a coordinator holds came from a landed commit, and stands for what it says. */
  predicate Honest(s: System, c: Coordinator, render: Render) {
    match c
    case Idle => true
    case AtHead(base) => base in s.landed && base < |s.server.commits|
    case Holding(base, ledger, page) =>
      base in s.landed && base < |s.server.commits| && s.server.commits[base].ledger == ledger && Valid(ledger)
    case Ready(base, event, next) =>
      && base in s.landed && base < |s.server.commits|
      && Valid(s.server.commits[base].ledger) && After(s.server.commits[base].ledger, event) == Some(next)
    case Made(base, event, commit) =>
      && base in s.landed && base < |s.server.commits| && commit < |s.server.commits|
      && Valid(s.server.commits[base].ledger)
      && After(s.server.commits[base].ledger, event) == Some(s.server.commits[commit].ledger)
      && s.server.commits[commit].parent == Some(base)
      && s.server.commits[commit].page == Some(render(s.server.commits[commit].ledger))
    case Starting(_) => true
    case StartMade(start, commit) =>
      && start > 0 && commit < |s.server.commits|
      && s.server.commits[commit] == Commit(None, NewLedger(start), Some(render(NewLedger(start))))
  }

  predicate Inv(s: System, render: Render) {
    && WellFormed(s.server)
    && Linear(s) && Truthful(s, render)
    && forall i :: 0 <= i < |s.coordinators| ==> Honest(s, s.coordinators[i], render)
  }

  lemma {:induction false} AncestorNotLater(commits: seq<Commit>, a: Id, c: Id)
    requires Ordered(commits) && c < |commits| && Ancestor(commits, a, c)
    ensures a <= c
    decreases c
  {
    if a != c {
      AncestorNotLater(commits, a, commits[c].parent.value);
    }
  }

  /** On a linear history, a landed commit comes before another exactly when it landed before it. */
  lemma {:induction false} LandedOrder(s: System, i: nat, j: nat)
    requires WellFormed(s.server) && Linear(s) && i < |s.landed| && j < |s.landed|
    ensures Ancestor(s.server.commits, s.landed[i], s.landed[j]) <==> i <= j
    decreases j
  {
    if i < j {
      assert s.server.commits[s.landed[j]].parent == Some(s.landed[j - 1]);
      LandedOrder(s, i, j - 1);
    } else if j < i {
      LandedIncreasing(s, j, i);
      if Ancestor(s.server.commits, s.landed[i], s.landed[j]) {
        AncestorNotLater(s.server.commits, s.landed[i], s.landed[j]);
      }
    }
  }

  lemma {:induction false} LandedIncreasing(s: System, i: nat, j: nat)
    requires WellFormed(s.server) && Linear(s) && i < j < |s.landed|
    ensures s.landed[i] < s.landed[j]
    decreases j
  {
    assert s.server.commits[s.landed[j]].parent == Some(s.landed[j - 1]);
    if i < j - 1 {
      LandedIncreasing(s, i, j - 1);
    }
  }

  /**
   For a commit made on a landed one, a fast-forward is a compare-and-swap: the server accepts it
   exactly when the branch is still at the commit it was made on, or already at it.
   */
  lemma FastForwardIsCompareAndSwap(s: System, base: Id, commit: Id)
    requires WellFormed(s.server) && Linear(s)
    requires base in s.landed && commit < |s.server.commits| && s.server.commits[commit].parent == Some(base)
    ensures BRANCH in s.server.refs
    ensures Ancestor(s.server.commits, s.server.refs[BRANCH], commit) <==>
        s.server.refs[BRANCH] == base || s.server.refs[BRANCH] == commit
  {
    var i :| 0 <= i < |s.landed| && s.landed[i] == base;
    LandedOrder(s, |s.landed| - 1, i);
    if i < |s.landed| - 1 {
      LandedIncreasing(s, i, |s.landed| - 1);
    }
  }

  // ---------------------------------------------------------------- every step keeps it

  lemma InitialInv(s: System, render: Render)
    requires Initial(s)
    ensures Inv(s, render)
  {
    forall i | 0 <= i < |s.coordinators|
      ensures Honest(s, s.coordinators[i], render)
    {
      assert s.coordinators[i] in s.coordinators;
    }
  }

  /** More commits take nothing away from what a coordinator holds, or from the line of landed commits. */
  lemma CommitsKeep(s: System, t: System, render: Render)
    requires WellFormed(s.server) && WellFormed(t.server) && s.server.commits <= t.server.commits
    requires t.server.refs == s.server.refs && t.landed == s.landed && t.start == s.start && t.events == s.events
    requires Linear(s) && Truthful(s, render)
    ensures Linear(t) && Truthful(t, render)
  {
    hide Saved, Ordered;
    forall i | 0 <= i < |s.landed|
      ensures Saved(t.server.commits[t.landed[i]], t.start, t.events[..i], render)
    {
      assert Saved(s.server.commits[s.landed[i]], s.start, s.events[..i], render);
    }
  }

  lemma HonestKept(s: System, t: System, c: Coordinator, render: Render)
    requires s.server.commits <= t.server.commits && forall id :: id in s.landed ==> id in t.landed
    requires Honest(s, c, render)
    ensures Honest(t, c, render)
  {
    hide Valid, After;
  }

  /** A step that moves one coordinator keeps the invariant if the line of commits and that coordinator stand. */
  lemma OthersKept(s: System, t: System, c: nat, me: Coordinator, render: Render)
    requires Inv(s, render) && WellFormed(t.server) && c < |s.coordinators|
    requires t.coordinators == s.coordinators[c := me]
    requires s.server.commits <= t.server.commits && forall id :: id in s.landed ==> id in t.landed
    requires Linear(t) && Truthful(t, render) && Honest(t, me, render)
    ensures Inv(t, render)
  {
    hide Linear, Truthful, Honest;
    forall i | 0 <= i < |t.coordinators|
      ensures Honest(t, t.coordinators[i], render)
    {
      if i != c {
        HonestKept(s, t, s.coordinators[i], render);
      }
    }
  }

  lemma HeadLanded(s: System)
    requires WellFormed(s.server) && Linear(s) && BRANCH in s.server.refs
    ensures s.server.refs[BRANCH] in s.landed
  {
  }

  /** A patch that lands puts one commit on top of the one it was computed from. */
  lemma PatchLands(s: System, c: nat, render: Render)
    requires Inv(s, render) && c < |s.coordinators| && s.coordinators[c].Made?
    ensures var t := Take(s, Patch(c), render);
      && Linear(t) && Truthful(t, render)
      && (t.landed == s.landed || (s.landed != [] && s.coordinators[c].base == s.landed[|s.landed| - 1]
            && t.landed == s.landed + [s.coordinators[c].commit]))
  {
    hide Valid, After, Run;
    var me := s.coordinators[c];
    assert Honest(s, me, render);
    FastForwardIsCompareAndSwap(s, me.base, me.commit);
    var t := Take(s, Patch(c), render);
    if t.landed != s.landed {
      assert me.base == s.landed[|s.landed| - 1];
      OneMoreLanded(s, t, me, render);
    } else {
      assert t.server.refs == s.server.refs;
      CommitsKeep(s, t, render);
    }
  }

  /** A line of commits with one more on top. */
  lemma OneMoreLanded(s: System, t: System, me: Coordinator, render: Render)
    requires WellFormed(s.server) && Linear(s) && Truthful(s, render) && me.Made? && Honest(s, me, render)
    requires s.landed != [] && me.base == s.landed[|s.landed| - 1]
    requires t.server == Server(s.server.commits, s.server.refs[BRANCH := me.commit])
    requires t.landed == s.landed + [me.commit] && t.start == s.start && t.events == s.events + [me.event]
    ensures Linear(t) && Truthful(t, render)
  {
    hide Valid, After, Run, Ordered;
    var n := |s.landed|;
    forall i | 0 <= i < |t.landed|
      ensures Saved(t.server.commits[t.landed[i]], t.start, t.events[..i], render)
    {
      if i < n {
        assert t.events[..i] == s.events[..i];
      } else {
        assert t.events[..i] == s.events + [me.event];
        assert s.events[..n - 1] == s.events;
        assert Saved(s.server.commits[s.landed[n - 1]], s.start, s.events[..n - 1], render);
        RunStep(s.start, s.events, me.event);
      }
    }
  }

  lemma RunStep(start: int, events: seq<Event>, e: Event)
    ensures Run(start, events + [e]) == match Run(start, events) case None => None case Some(l) => After(l, e)
  {
    var all := events + [e];
    assert all[..|all| - 1] == events && all[|all| - 1] == e;
  }

  lemma FirstLands(s: System, c: nat, render: Render)
    requires Inv(s, render) && c < |s.coordinators| && s.coordinators[c].StartMade?
    ensures var t := Take(s, CreateRef(c), render);
      && Linear(t) && Truthful(t, render)
      && (t.landed == s.landed || (s.landed == [] && t.landed == [s.coordinators[c].commit]))
  {
    hide Valid, After, Ordered, Ancestor;
    var me := s.coordinators[c];
    assert Honest(s, me, render);
    var t := Take(s, CreateRef(c), render);
    if t.landed != s.landed {
      assert t.events == [] && t.events[..0] == [];
      assert Saved(t.server.commits[me.commit], me.start, [], render);
    } else {
      CommitsKeep(s, t, render);
    }
  }

  /** Every step of every coordinator keeps all of it. */
  lemma StepInv(s: System, step: Step, render: Render)
    requires Inv(s, render)
    ensures Inv(Take(s, step, render), render)
    ensures s.landed <= Take(s, step, render).landed
  {
    var t := Take(s, step, render);
    StepWellFormed(s, step, render);
    if step.c < |s.coordinators| && t != s {
      var me := s.coordinators[step.c];
      assert Honest(s, me, render);
      match step
      case Patch(c) =>
        PatchLands(s, c, render);
        OthersKept(s, t, c, Idle, render);
      case CreateRef(c) =>
        FirstLands(s, c, render);
        OthersKept(s, t, c, Idle, render);
      case _ =>
        QuietStep(s, step, render);
    }
  }

  lemma ValidStart(now: int)
    requires Valid(NewLedger(now))
    ensures now > 0
  {
  }

  /** The steps that move no ref. */
  lemma QuietStep(s: System, step: Step, render: Render)
    requires Inv(s, render) && step.c < |s.coordinators|
    requires !step.Patch? && !step.CreateRef? && Take(s, step, render) != s
    ensures Inv(Take(s, step, render), render)
    ensures s.landed == Take(s, step, render).landed
  {
    hide Valid, After, Run, Linear, Truthful, Ancestor;
    var t := Take(s, step, render);
    var me, next := s.coordinators[step.c], t.coordinators[step.c];
    assert Honest(s, me, render);
    StepWellFormed(s, step, render);
    CommitsKeep(s, t, render);
    if step.ReadHead? {
      HeadLanded(s);
    } else if me.Starting? && Valid(NewLedger(me.start)) {
      ValidStart(me.start);
    }
    OthersKept(s, t, step.c, next, render);
  }

  lemma {:induction false} RunInv(s: System, steps: seq<Step>, render: Render)
    requires Inv(s, render)
    ensures Inv(TakeAll(s, steps, render), render)
    ensures s.landed <= TakeAll(s, steps, render).landed
    decreases steps
  {
    hide Take, Linear, Truthful, Honest, Ordered;
    if steps != [] {
      StepInv(s, steps[0], render);
      RunInv(Take(s, steps[0], render), steps[1..], render);
    }
  }

  // ---------------------------------------------------------------- the theorems

  /**
   Whatever any number of coordinators do, in any order: the branch is one line of commits, each made
   on the one that was the branch's head when it landed and holding what its event makes of that one's
   ledger, with that ledger's own status page; and nothing that landed is ever taken off it.
   */
  lemma BranchIsLinear(s: System, steps: seq<Step>, more: seq<Step>, render: Render)
    requires Initial(s)
    ensures var t := TakeAll(s, steps, render); var u := TakeAll(t, more, render);
      && WellFormed(t.server) && WellFormed(u.server)
      && Linear(t) && Truthful(t, render)
      && Linear(u) && t.landed <= u.landed
  {
    InitialInv(s, render);
    RunInv(s, steps, render);
    RunInv(TakeAll(s, steps, render), more, render);
  }

  /**
   The branch's head in `t` is the commit made, with what its event makes of the ledger loaded, and that
   ledger's page.
   */
  ghost predicate HeadHolds(s: System, me: Coordinator, t: System, render: Render)
    requires me.Made?
  {
    && BRANCH in t.server.refs && t.server.refs[BRANCH] == me.commit
    && me.base < |s.server.commits| && me.commit < |t.server.commits|
    && WellIndexed(s.server.commits[me.base].ledger)
    && var head := t.server.commits[me.commit];
    && After(s.server.commits[me.base].ledger, me.event) == Some(head.ledger)
    && head.page == Some(render(head.ledger))
  }

  /** A save that is told it succeeded finds its own ledger and page at the head of the branch. */
  lemma SaveIsSeen(s: System, c: nat, render: Render)
    requires Inv(s, render) && c < |s.coordinators| && s.coordinators[c].Made?
    requires BRANCH in s.server.refs
    requires Ancestor(s.server.commits, s.server.refs[BRANCH], s.coordinators[c].commit)
    ensures s.server.refs[BRANCH] == s.coordinators[c].base || s.server.refs[BRANCH] == s.coordinators[c].commit
    ensures HeadHolds(s, s.coordinators[c], Take(s, Patch(c), render), render)
  {
    hide Valid, After, Run, Truthful;
    var me := s.coordinators[c];
    assert Honest(s, me, render);
    FastForwardIsCompareAndSwap(s, me.base, me.commit);
    ValidIsIndexed(s.server.commits[me.base].ledger);
  }

  lemma ValidIsIndexed(l: Ledger)
    ensures Valid(l) ==> WellIndexed(l)
  {
  }

  /** Every ledger the branch ever shows is valid, and keeps the newest six results of everything that landed. */
  lemma BranchKeepsHistory(s: System, steps: seq<Step>, render: Render, key: string)
    requires Initial(s)
    ensures var t := TakeAll(s, steps, render);
      BRANCH in t.server.refs ==>
        && t.server.refs[BRANCH] < |t.server.commits|
        && var ledger := t.server.commits[t.server.refs[BRANCH]].ledger;
           && Valid(ledger)
           && KeepsNewest(ledger, key, Log(t.events, key))
           && Run(t.start, t.events) == Some(ledger)
           && AlertState(ledger, key, AlertTimes(t.start, t.events, key))
  {
    InitialInv(s, render);
    RunInv(s, steps, render);
    var t := TakeAll(s, steps, render);
    if BRANCH in t.server.refs {
      assert t.events[..|t.landed| - 1] == t.events;
      NewestSix(t.start, t.events, key);
      AlertsSpaced(t.start, t.events, key);
    }
  }

  // ---------------------------------------------------------------- what a coordinator left alone brings about

  /** A commit may get this id: the next free one, or that of the same commit if it was made before. */
  predicate MayBe(commits: seq<Commit>, commit: Commit, id: Id) {
    id == |commits| || (id < |commits| && commits[id] == commit)
  }

  /** The branch is at that commit, whatever else was there before is as it was, and no other commit was made. */
  ghost predicate NowAt(before: Server, after: Server, commit: Commit, id: Id) {
    && BRANCH in after.refs && after.refs[BRANCH] == id
    && id < |after.commits| && after.commits[id] == commit
    && before.commits <= after.commits && |after.commits| <= |before.commits| + 1
    && (forall name :: name != BRANCH ==>
          (name in before.refs <==> name in after.refs)
          && (name in before.refs ==> before.refs[name] == after.refs[name]))
  }

  lemma ThreeSteps(s: System, a: Step, b: Step, c: Step, render: Render)
    requires WellFormed(s.server)
    ensures WellFormed(Take(s, a, render).server) && WellFormed(Take(Take(s, a, render), b, render).server)
    ensures TakeAll(s, [a, b, c], render) == Take(Take(Take(s, a, render), b, render), c, render)
  {
    hide Take, Ordered;
    StepWellFormed(s, a, render);
    StepWellFormed(Take(s, a, render), b, render);
    OneStep(s, a, [b, c], render);
    OneStep(Take(s, a, render), b, [c], render);
    StepWellFormed(Take(Take(s, a, render), b, render), c, render);
    OneStep(Take(Take(s, a, render), b, render), c, [], render);
    assert [a, b, c] == [a] + [b, c] && [b, c] == [b] + [c] && [c] == [c] + [];
  }

  lemma TwoSteps(s: System, a: Step, b: Step, render: Render)
    requires WellFormed(s.server)
    ensures WellFormed(Take(s, a, render).server)
    ensures TakeAll(s, [a, b], render) == Take(Take(s, a, render), b, render)
  {
    hide Take, Ordered;
    StepWellFormed(s, a, render);
    OneStep(s, a, [b], render);
    OneStep(Take(s, a, render), b, [], render);
    assert [a, b] == [a] + [b] && [b] == [b] + [];
  }

  lemma OneStep(s: System, a: Step, rest: seq<Step>, render: Render)
    requires WellFormed(s.server)
    ensures WellFormed(Take(s, a, render).server)
    ensures TakeAll(s, [a] + rest, render) == TakeAll(Take(s, a, render), rest, render)
  {
    hide Take, Ordered;
    StepWellFormed(s, a, render);
    assert ([a] + rest)[0] == a && ([a] + rest)[1..] == rest;
  }

  lemma {:induction false} TakeConcat(s: System, first: seq<Step>, rest: seq<Step>, render: Render)
    requires WellFormed(s.server)
    ensures TakeAll(s, first + rest, render) == TakeAll(TakeAll(s, first, render), rest, render)
    decreases first
  {
    hide Take, Ordered;
    if first == [] {
      assert first + rest == rest;
    } else {
      assert (first + rest)[1..] == first[1..] + rest;
      StepWellFormed(s, first[0], render);
      TakeConcat(Take(s, first[0], render), first[1..], rest, render);
    }
  }

  /**
   A coordinator left alone to initialise, where there is no branch, makes it: its head is one commit
   without a parent that holds an empty ledger begun at `start`, and its page.
   */
  lemma InitialisesAlone(s: System, c: nat, start: int, id: Id, render: Render)
    requires Initial(s) && c < |s.coordinators| && start > 0
    requires var first := Ledger(start, [], map[]);
      MayBe(s.server.commits, Commit(None, first, Some(render(first))), id)
    ensures var first := Ledger(start, [], map[]);
      var t := TakeAll(s, [FindNoBranch(c, start), MakeFirst(c, id), CreateRef(c)], render);
      && NowAt(s.server, t.server, Commit(None, first, Some(render(first))), id)
      && t.coordinators == s.coordinators
  {
    hide Ancestor, Ordered;
    hide Take, Valid;
    assert s.coordinators[c] in s.coordinators;
    ThreeSteps(s, FindNoBranch(c, start), MakeFirst(c, id), CreateRef(c), render);
    EmptyIsValid(start);
    FirstTwo(s, c, start, id, render);
    var first := Commit(None, NewLedger(start), Some(render(NewLedger(start))));
    var t2 := Move(s.(server := Plus(s.server, first, id)), c, StartMade(start, id));
    CreatesRef(t2, c, start, id, render);
    assert t2.coordinators[c := Idle] == s.coordinators;
  }

  lemma FirstTwo(s: System, c: nat, start: int, id: Id, render: Render)
    requires WellFormed(s.server) && BRANCH !in s.server.refs && c < |s.coordinators| && s.coordinators[c] == Idle
    requires Valid(NewLedger(start))
    requires MayBe(s.server.commits, Commit(None, NewLedger(start), Some(render(NewLedger(start)))), id)
    ensures var first := Commit(None, NewLedger(start), Some(render(NewLedger(start))));
      var t1 := Take(s, FindNoBranch(c, start), render);
      && WellFormed(t1.server) && WellFormed(Plus(s.server, first, id))
      && Take(t1, MakeFirst(c, id), render)
         == Move(s.(server := Plus(s.server, first, id)), c, StartMade(start, id))
  {
    hide Valid, Ancestor;
    var t1 := Take(s, FindNoBranch(c, start), render);
    assert t1 == Move(s, c, Starting(start));
    assert s.coordinators[c := Starting(start)][c := StartMade(start, id)] == s.coordinators[c := StartMade(start, id)];
  }

  lemma CreatesRef(s: System, c: nat, start: int, id: Id, render: Render)
    requires WellFormed(s.server) && BRANCH !in s.server.refs && c < |s.coordinators| && id < |s.server.commits|
    requires s.coordinators[c] == StartMade(start, id)
    ensures var t := Take(s, CreateRef(c), render);
      && t.server == Server(s.server.commits, s.server.refs[BRANCH := id])
      && t.coordinators == s.coordinators[c := Idle]
  {
    hide Valid, Ancestor, Ordered;
  }

  lemma EmptyIsValid(start: int)
    requires start > 0
    ensures NewLedger(start) == Ledger(start, [], map[]) && Valid(NewLedger(start))
  {
  }

  /** A coordinator that finds the branch there initialises nothing. */
  lemma InitialisesOnce(s: System, c: nat, start: int, id: Id, render: Render)
    requires WellFormed(s.server) && BRANCH in s.server.refs && c < |s.coordinators| && s.coordinators[c] == Idle
    ensures TakeAll(s, [FindNoBranch(c, start), MakeFirst(c, id), CreateRef(c)], render).server == s.server
  {
    hide Ancestor, Ordered, Valid;
    ThreeSteps(s, FindNoBranch(c, start), MakeFirst(c, id), CreateRef(c), render);
  }

  /** The commit that saves a ledger on top of the head. */
  function SavingCommit(head: Id, next: Ledger, render: Render): Commit {
    Commit(Some(head), next, Some(render(next)))
  }

  function SaveSteps(c: nat, event: Event, id: Id): seq<Step> {
    [ReadHead(c), ReadFiles(c), Work(c, event)] + [MakeCommit(c, id), Patch(c)]
  }

  /** A coordinator that reads the head while nobody else acts has worked out what to save, or needs to save nothing. */
  lemma WorksAlone(s: System, c: nat, event: Event, render: Render)
    requires WellFormed(s.server) && BRANCH in s.server.refs && c < |s.coordinators| && s.coordinators[c] == Idle
    requires Valid(s.server.commits[s.server.refs[BRANCH]].ledger)
    requires WellIndexed(s.server.commits[s.server.refs[BRANCH]].ledger)
    ensures var base := s.server.refs[BRANCH]; var head := s.server.commits[base];
      var next := After(head.ledger, event);
      TakeAll(s, [ReadHead(c), ReadFiles(c), Work(c, event)], render)
      == if next.Some? && (next.value != head.ledger || head.page != Some(render(next.value)))
         then Move(s, c, Ready(base, event, next.value)) else s
  {
    hide Ancestor, Ordered, Valid, After, WellIndexed;
    var base := s.server.refs[BRANCH];
    var head := s.server.commits[base];
    ThreeSteps(s, ReadHead(c), ReadFiles(c), Work(c, event), render);
    var t1 := Take(s, ReadHead(c), render);
    assert t1 == Move(s, c, AtHead(base));
    var t2 := Take(t1, ReadFiles(c), render);
    assert t2 == Move(s, c, Holding(base, head.ledger, head.page));
    assert s.coordinators[c := Idle] == s.coordinators;
    var next := After(head.ledger, event);
    var t3 := Take(t2, Work(c, event), render);
    if next.Some? && (next.value != head.ledger || head.page != Some(render(next.value))) {
      assert t3 == Move(s, c, Ready(base, event, next.value));
    } else {
      assert t3 == Move(s, c, Idle);
    }
  }

  /** Everything a coordinator sends to start the branch, or to save on top of a commit, is let out of its process. */
  lemma WritesAllowed(ledger: Ledger, page: string, head: Id, id: Id)
    ensures Allowed(Get)
    ensures Allowed(PostTree(["README.md", "STATUS.md", "decky-compatibility.json"]))
    ensures Allowed(PostCommit([], ledger, Some(page))) && Allowed(PostRef(BRANCH, id))
    ensures Allowed(PostTree(["STATUS.md", "decky-compatibility.json"]))
    ensures Allowed(PostCommit([head], ledger, Some(page))) && Allowed(PatchRef(BRANCH, id, false))
  {
  }

  /** A server that has a commit under this id. */
  function Plus(s: Server, commit: Commit, id: Id): Server {
    if id < |s.commits| then s else Server(s.commits + [commit], s.refs)
  }

  lemma Committed(s: System, commit: Commit, id: Id)
    requires MayBe(s.server.commits, commit, id) && (commit.parent.Some? ==> commit.parent.value < |s.server.commits|)
    requires WellFormed(s.server) && BRANCH in s.server.refs && commit.parent == Some(s.server.refs[BRANCH])
    ensures WithCommit(s, commit, id) == Some(s.(server := Plus(s.server, commit, id)))
    ensures var after := Plus(s.server, commit, id);
      && WellFormed(after) && id < |after.commits| && after.commits[id] == commit
      && Ancestor(after.commits, s.server.refs[BRANCH], id)
  {
    var after := Plus(s.server, commit, id);
    assert after.commits[id] == commit;
    assert Ancestor(after.commits, s.server.refs[BRANCH], s.server.refs[BRANCH]);
  }

  lemma MakesAlone(s: System, c: nat, event: Event, next: Ledger, id: Id, render: Render)
    requires WellFormed(s.server) && BRANCH in s.server.refs && c < |s.coordinators|
    requires s.coordinators[c] == Ready(s.server.refs[BRANCH], event, next)
    requires MayBe(s.server.commits, SavingCommit(s.server.refs[BRANCH], next, render), id)
    ensures var commit := SavingCommit(s.server.refs[BRANCH], next, render);
      && WellFormed(Plus(s.server, commit, id))
      && Take(s, MakeCommit(c, id), render)
         == Move(s.(server := Plus(s.server, commit, id)), c, Made(s.server.refs[BRANCH], event, id))
  {
    hide After, Valid, Ancestor, WithCommit, Plus, Ordered;
    Committed(s, SavingCommit(s.server.refs[BRANCH], next, render), id);
  }

  /** The commit and the fast-forward, while nobody else acts. */
  lemma LandsAlone(s: System, c: nat, event: Event, next: Ledger, id: Id, render: Render)
    requires WellFormed(s.server) && BRANCH in s.server.refs && c < |s.coordinators|
    requires s.coordinators[c] == Ready(s.server.refs[BRANCH], event, next)
    requires MayBe(s.server.commits, SavingCommit(s.server.refs[BRANCH], next, render), id)
    ensures var t := TakeAll(s, [MakeCommit(c, id), Patch(c)], render);
      && NowAt(s.server, t.server, SavingCommit(s.server.refs[BRANCH], next, render), id)
      && t.coordinators == s.coordinators[c := Idle]
  {
    hide After, Valid, Ancestor, WithCommit, Ordered, Take;
    var base := s.server.refs[BRANCH];
    var commit := SavingCommit(base, next, render);
    TwoSteps(s, MakeCommit(c, id), Patch(c), render);
    MakesAlone(s, c, event, next, id, render);
    Committed(s, commit, id);
    var t1 := Move(s.(server := Plus(s.server, commit, id)), c, Made(base, event, id));
    FastForwards(t1, c, base, event, id, render);
    assert t1.coordinators[c := Idle] == s.coordinators[c := Idle];
  }

  lemma FastForwards(s: System, c: nat, base: Id, event: Event, id: Id, render: Render)
    requires WellFormed(s.server) && BRANCH in s.server.refs && c < |s.coordinators| && id < |s.server.commits|
    requires s.coordinators[c] == Made(base, event, id)
    requires Ancestor(s.server.commits, s.server.refs[BRANCH], id)
    ensures var t := Take(s, Patch(c), render);
      && t.server == Server(s.server.commits, s.server.refs[BRANCH := id])
      && t.coordinators == s.coordinators[c := Idle]
  {
    hide After, Valid, Ancestor, WithCommit, Ordered;
  }

  /**
   A coordinator left alone with an event moves the branch to one commit on the old head, with the ledger
   the event makes of the head's and that ledger's page, exactly when the event is accepted and that ledger
   or its page is not what the head has already; otherwise it changes nothing.
   */
  lemma SavesAlone(s: System, before: seq<Step>, c: nat, event: Event, id: Id, render: Render)
    requires Initial(s)
    requires var t := TakeAll(s, before, render);
      BRANCH in t.server.refs && c < |t.coordinators| && t.coordinators[c] == Idle
    ensures var t := TakeAll(s, before, render); var u := TakeAll(t, SaveSteps(c, event, id), render);
      var base := t.server.refs[BRANCH];
      && base < |t.server.commits| && WellIndexed(t.server.commits[base].ledger)
      && var head := t.server.commits[base];
      var next := After(head.ledger, event);
      if next.Some? && (next.value != head.ledger || head.page != Some(render(next.value))) then
        MayBe(t.server.commits, SavingCommit(base, next.value, render), id) ==>
          NowAt(t.server, u.server, SavingCommit(base, next.value, render), id) && u.coordinators == t.coordinators
      else u == t
  {
    hide After, Valid, Linear, Truthful, Honest, Take, Ordered, WellIndexed, Ancestor;
    var t := TakeAll(s, before, render);
    InitialInv(s, render);
    RunInv(s, before, render);
    HeadValid(t, render);
    ValidIsIndexed(t.server.commits[t.server.refs[BRANCH]].ledger);
    WorksAlone(t, c, event, render);
    TakeConcat(t, [ReadHead(c), ReadFiles(c), Work(c, event)], [MakeCommit(c, id), Patch(c)], render);
    var base := t.server.refs[BRANCH];
    var head := t.server.commits[base];
    var next := After(head.ledger, event);
    if next.Some? && (next.value != head.ledger || head.page != Some(render(next.value))) {
      if MayBe(t.server.commits, SavingCommit(base, next.value, render), id) {
        LandsAlone(Move(t, c, Ready(base, event, next.value)), c, event, next.value, id, render);
        assert t.coordinators[c := Ready(base, event, next.value)][c := Idle] == t.coordinators;
      }
    } else {
      NothingToMake(t, c, id, render);
    }
  }

  lemma NothingToMake(s: System, c: nat, id: Id, render: Render)
    requires WellFormed(s.server) && c < |s.coordinators| && s.coordinators[c] == Idle
    ensures TakeAll(s, [MakeCommit(c, id), Patch(c)], render) == s
  {
    hide After, Valid, Ancestor, Ordered;
    TwoSteps(s, MakeCommit(c, id), Patch(c), render);
    assert Take(s, MakeCommit(c, id), render) == s && Take(s, Patch(c), render) == s;
  }

  lemma HeadValid(s: System, render: Render)
    requires Inv(s, render) && BRANCH in s.server.refs
    ensures s.server.refs[BRANCH] < |s.server.commits|
    ensures Valid(s.server.commits[s.server.refs[BRANCH]].ledger)
  {
    hide Valid, After, Honest, Ordered;
    var n := |s.landed|;
    assert Saved(s.server.commits[s.landed[n - 1]], s.start, s.events[..n - 1], render);
  }

  /** A save made on a commit that is no longer the head, and not there already, is refused: nothing moves. */
  lemma StaleSaveRefused(s: System, c: nat, render: Render)
    requires Inv(s, render) && c < |s.coordinators| && s.coordinators[c].Made? && BRANCH in s.server.refs
    ensures var me := s.coordinators[c]; var head := s.server.refs[BRANCH];
      Take(s, Patch(c), render).server
      == if head == me.base || head == me.commit then Server(s.server.commits, s.server.refs[BRANCH := me.commit])
         else s.server
  {
    hide Valid, After, Run, Truthful;
    var me := s.coordinators[c];
    assert Honest(s, me, render);
    FastForwardIsCompareAndSwap(s, me.base, me.commit);
    var after := Serve(s.server, PatchRef(BRANCH, me.commit, false));
    assert after == if Ancestor(s.server.commits, s.server.refs[BRANCH], me.commit)
                    then Server(s.server.commits, s.server.refs[BRANCH := me.commit]) else s.server;
  }
}
