/**
 What a control that reports success means for the sessions themselves.

 The backend holds one log per session; a batch is taken only at the log's next generation, whoever
 writes it. Between any two calls of the client, other writers may append, the bridge may acknowledge
 what is in a log, and a new session may replace the current one. An answer may be late, lost or
 refused, and is otherwise true of the moment it is given.
 */
module RuntimeSession {
  import opened Wrappers
  import opened RuntimeControl

  /** One command in a log, with the number of the client's call that put it there, if one did. */
  datatype Logged = Logged(command: Command, call: Option<nat>)

  datatype Session = Session(identity: Identity, log: seq<Logged>, acks: map<int, Acknowledgement>)

  datatype World = World(sessions: seq<Session>) {
    function Last(): Session
      requires sessions != []
    {
      sessions[|sessions| - 1]
    }

    function WithSession(k: nat, session: Session): World
      requires k < |sessions|
    {
      World(sessions[k := session])
    }
  }

  datatype Move = Open(identity: Identity) | OtherWrites(commands: seq<Command>)
    | Acknowledge(k: nat, result: Acknowledgement)

  /** What happens before one call, and whether the backend is willing to take a batch then. */
  datatype Turn = Turn(moves: seq<Move>, willing: bool)

  function Entries(commands: seq<Command>, call: Option<nat>): (r: seq<Logged>)
    ensures |r| == |commands| && forall i :: 0 <= i < |r| ==> r[i] == Logged(commands[i], call)
  {
    seq(|commands|, i requires 0 <= i < |commands| => Logged(commands[i], call))
  }

  /** A batch is taken only when its generations are the next ones of the current log. */
  predicate Fits(w: World, commands: seq<Command>) {
    w.sessions != [] && Numbered(commands, |w.Last().log| + 1)
  }

  function Append(w: World, commands: seq<Command>, call: Option<nat>): World
    requires w.sessions != []
  {
    var last := w.Last();
    w.WithSession(|w.sessions| - 1, last.(log := last.log + Entries(commands, call)))
  }

  predicate UnusedSession(w: World, id: string) {
    forall k :: 0 <= k < |w.sessions| ==> w.sessions[k].identity.session != id
  }

  /** The bridge acknowledges a command in the log once, for the record it names. */
  predicate MayAcknowledge(s: Session, a: Acknowledgement) {
    && a.generation.Some? && 1 <= a.generation.value <= |s.log| && a.generation.value !in s.acks
    && a.record == Some(s.log[a.generation.value - 1].command.record)
  }

  function Step(w: World, move: Move): World {
    match move
    case Open(identity) =>
      if UnusedSession(w, identity.session) then World(w.sessions + [Session(identity, [], map[])]) else w
    case OtherWrites(commands) =>
      if Fits(w, commands) then Append(w, commands, None) else w
    case Acknowledge(k, a) =>
      if k < |w.sessions| && MayAcknowledge(w.sessions[k], a) then
        w.WithSession(k, w.sessions[k].(acks := w.sessions[k].acks[a.generation.value := a]))
      else w
  }

  function Steps(w: World, moves: seq<Move>): World {
    if moves == [] then w else Step(Steps(w, moves[..|moves| - 1]), moves[|moves| - 1])
  }

  predicate Takes(w: World, call: Call, willing: bool) {
    call.Write? && willing && Fits(w, call.commands)
  }

  function Handle(w: World, n: nat, call: Call, willing: bool): World {
    if Takes(w, call, willing) then Append(w, call.commands, Some(n)) else w
  }

  /** The world as call `n` reaches the backend. */
  function Before(w: World, turns: nat -> Turn, calls: seq<Call>, n: nat): World
    requires n < |calls|
    decreases n, 1
  {
    Steps(At(w, turns, calls, n), turns(n).moves)
  }

  /** The world once `n` calls have been handled; call `n - 1` is answered from it. */
  function At(w: World, turns: nat -> Turn, calls: seq<Call>, n: nat): World
    requires n <= |calls|
    decreases n, 0
  {
    if n == 0 then w
    else Handle(Before(w, turns, calls, n - 1), n - 1, calls[n - 1], turns(n - 1).willing)
  }

  /** The reported results are acknowledgements of the session that reports them. */
  predicate ReportedBy(s: Session, identity: Identity, results: seq<Acknowledgement>) {
    && s.identity == identity
    && forall a :: a in results && a.generation.Some? ==>
         a.generation.value in s.acks && s.acks[a.generation.value] == a
  }

  ghost predicate TrueStatus(e: Envelope, w: World) {
    && (e.prepared.Some? ==> w.sessions != [] && e.prepared.value.identity == w.Last().identity)
    && (e.status.Some? ==> exists k :: 0 <= k < |w.sessions|
                                       && ReportedBy(w.sessions[k], e.status.value.identity, e.status.value.results))
  }

  /** Each answer is lost, or is true of the world it is given from. */
  ghost predicate Truthful(w: World, turns: nat -> Turn, calls: seq<Call>, answers: nat -> Answer, n: nat)
    requires n < |calls|
  {
    match answers(n)
    case Raised => true
    case Current(e) => calls[n].GetStatus? && TrueStatus(e, At(w, turns, calls, n + 1))
    case Receipt(ok, _, _) => calls[n].Write? && (ok ==> Takes(Before(w, turns, calls, n), calls[n], turns(n).willing))
  }

  ghost predicate Honest(w: World, turns: nat -> Turn, calls: seq<Call>, answers: nat -> Answer) {
    forall n: nat :: n < |calls| ==> Truthful(w, turns, calls, answers, n)
  }

  // ---------- What every step keeps ----------

  /** Every acknowledgement is of a command in its own session's log, for that command's record. */
  predicate SoundSession(s: Session) {
    && (forall i :: 0 <= i < |s.log| ==> s.log[i].command.generation == i + 1)
    && (forall g :: g in s.acks ==>
          1 <= g <= |s.log| && s.acks[g].generation == Some(g) && s.acks[g].record == Some(s.log[g - 1].command.record))
  }

  ghost predicate Sound(w: World) {
    && (forall k :: 0 <= k < |w.sessions| ==> SoundSession(w.sessions[k]))
    && (forall j, k :: 0 <= j < k < |w.sessions| ==> w.sessions[j].identity.session != w.sessions[k].identity.session)
  }

  predicate SessionGrows(a: Session, c: Session) {
    && a.identity == c.identity && a.log <= c.log
    && (forall g :: g in a.acks ==> g in c.acks && c.acks[g] == a.acks[g])
  }

  predicate Grows(a: World, c: World) {
    |a.sessions| <= |c.sessions|
    && forall k :: 0 <= k < |a.sessions| ==> SessionGrows(a.sessions[k], c.sessions[k])
  }

  lemma GrowsThrough(a: World, b: World, c: World)
    requires Grows(a, b) && Grows(b, c)
    ensures Grows(a, c)
  {
    forall k | 0 <= k < |a.sessions|
      ensures SessionGrows(a.sessions[k], c.sessions[k])
    {
      assert SessionGrows(a.sessions[k], b.sessions[k]) && SessionGrows(b.sessions[k], c.sessions[k]);
    }
  }

  lemma AppendKeeps(w: World, commands: seq<Command>, call: Option<nat>)
    requires Sound(w) && Fits(w, commands)
    ensures Sound(Append(w, commands, call)) && Grows(w, Append(w, commands, call))
  {
    var last := w.Last();
    var more := last.(log := last.log + Entries(commands, call));
    assert SoundSession(last);
    assert SoundSession(more);
  }

  lemma AcknowledgedIsSound(s: Session, a: Acknowledgement)
    requires SoundSession(s) && MayAcknowledge(s, a)
    ensures SoundSession(s.(acks := s.acks[a.generation.value := a]))
    ensures SessionGrows(s, s.(acks := s.acks[a.generation.value := a]))
  {
  }

  lemma Replaced(w: World, k: nat, more: Session)
    requires Sound(w) && k < |w.sessions| && SoundSession(more) && SessionGrows(w.sessions[k], more)
    ensures Sound(w.WithSession(k, more)) && Grows(w, w.WithSession(k, more))
  {
    hide SoundSession;
    assert more.identity == w.sessions[k].identity;
    SessionGrowsItself(w);
    hide SessionGrows;
  }

  lemma SessionGrowsItself(w: World)
    ensures forall k :: 0 <= k < |w.sessions| ==> SessionGrows(w.sessions[k], w.sessions[k])
  {
  }

  lemma AcknowledgeKeeps(w: World, k: nat, a: Acknowledgement)
    requires Sound(w)
    ensures Sound(Step(w, Acknowledge(k, a))) && Grows(w, Step(w, Acknowledge(k, a)))
  {
    if k < |w.sessions| && MayAcknowledge(w.sessions[k], a) {
      var s := w.sessions[k];
      AcknowledgedIsSound(s, a);
      Replaced(w, k, s.(acks := s.acks[a.generation.value := a]));
    }
  }

  lemma StepKeeps(w: World, move: Move)
    requires Sound(w)
    ensures Sound(Step(w, move)) && Grows(w, Step(w, move))
  {
    match move
    case Open(_) =>
    case OtherWrites(commands) => if Fits(w, commands) { AppendKeeps(w, commands, None); }
    case Acknowledge(k, a) => AcknowledgeKeeps(w, k, a);
  }

  lemma {:induction false} StepsKeep(w: World, moves: seq<Move>)
    requires Sound(w)
    ensures Sound(Steps(w, moves)) && Grows(w, Steps(w, moves))
    decreases |moves|
  {
    hide Step, Grows, Sound;
    if moves == [] {
      GrowsSame(w);
    } else {
      var before := moves[..|moves| - 1];
      StepsKeep(w, before);
      StepKeeps(Steps(w, before), moves[|moves| - 1]);
      GrowsThrough(w, Steps(w, before), Steps(w, moves));
    }
  }

  lemma GrowsSame(w: World)
    ensures Grows(w, w)
  {
  }

  lemma HandleKeeps(w: World, n: nat, call: Call, willing: bool)
    requires Sound(w)
    ensures Sound(Handle(w, n, call, willing)) && Grows(w, Handle(w, n, call, willing))
  {
    if Takes(w, call, willing) { AppendKeeps(w, call.commands, Some(n)); } else { GrowsSame(w); }
  }

  /** Whatever happens between and during the calls, logs and acknowledgements only ever grow. */
  lemma {:induction false} AtKeeps(w: World, turns: nat -> Turn, calls: seq<Call>, m: nat, n: nat)
    requires Sound(w) && m <= n <= |calls|
    ensures Sound(At(w, turns, calls, n)) && Grows(At(w, turns, calls, m), At(w, turns, calls, n))
    ensures m < n ==> Grows(At(w, turns, calls, m), Before(w, turns, calls, n - 1))
                      && Grows(Before(w, turns, calls, n - 1), At(w, turns, calls, n))
    decreases n
  {
    hide Step, Steps, Handle, Grows, Sound;
    if n == 0 {
      GrowsSame(w);
    } else {
      AtKeeps(w, turns, calls, if m < n then m else n - 1, n - 1);
      var last := At(w, turns, calls, n - 1);
      StepsKeep(last, turns(n - 1).moves);
      var before := Before(w, turns, calls, n - 1);
      HandleKeeps(before, n - 1, calls[n - 1], turns(n - 1).willing);
      if m < n {
        GrowsThrough(At(w, turns, calls, m), last, before);
        GrowsThrough(At(w, turns, calls, m), before, At(w, turns, calls, n));
      } else {
        GrowsSame(At(w, turns, calls, n));
      }
    }
  }

  // ---------- What the client's checks mean ----------

  /** Two moments whose current session is the same have had no other session between them. */
  lemma SameSession(a: World, b: World)
    requires Sound(b) && Grows(a, b) && a.sessions != [] && b.sessions != []
    requires a.Last().identity == b.Last().identity
    ensures |a.sessions| == |b.sessions|
  {
    var k := |a.sessions| - 1;
    assert SessionGrows(a.sessions[k], b.sessions[k]);
  }

  /** A batch taken into session `k` is there, in order, at its own generations. */
  ghost predicate Holds(s: Session, commands: seq<Command>, start: int, call: nat) {
    && 1 <= start && start + |commands| - 1 <= |s.log|
    && forall i :: 0 <= i < |commands| ==> s.log[start - 1 + i] == Logged(commands[i], Some(call))
  }

  lemma HoldsOn(a: Session, c: Session, commands: seq<Command>, start: int, call: nat)
    requires SessionGrows(a, c) && Holds(a, commands, start, call)
    ensures Holds(c, commands, start, call)
  {
  }

  lemma TakenIsHeld(w: World, n: nat, call: Call, willing: bool, start: int)
    requires Takes(w, call, willing) && call.commands != [] && Numbered(call.commands, start)
    ensures Holds(Handle(w, n, call, willing).Last(), call.commands, start, n)
    ensures start == |w.Last().log| + 1
  {
    assert call.commands[0].generation == start;
  }

  /** A status that names a session reports that session's acknowledgements and no other's. */
  lemma ReportedFrom(w: World, e: Envelope, k: nat, a: Acknowledgement)
    requires Sound(w) && TrueStatus(e, w) && e.status.Some? && k < |w.sessions|
    requires e.status.value.identity == w.sessions[k].identity
    requires a in e.Results() && a.generation.Some?
    ensures a.generation.value in w.sessions[k].acks && w.sessions[k].acks[a.generation.value] == a
  {
    var j :| 0 <= j < |w.sessions| && ReportedBy(w.sessions[j], e.status.value.identity, e.status.value.results);
    assert j == k;
  }

  /** The acknowledgements of one batch are the session's own, each for the command at its generation. */
  ghost predicate Acked(s: Session, acks: seq<Acknowledgement>, commands: seq<Command>, start: int) {
    && |acks| == |commands|
    && forall i: nat :: i < |acks| ==> AckedAt(s, acks, commands, start, i)
  }

  ghost predicate AckedAt(s: Session, acks: seq<Acknowledgement>, commands: seq<Command>, start: int, i: nat)
    requires i < |acks| == |commands|
  {
    && start + i in s.acks && s.acks[start + i] == acks[i]
    && acks[i].generation == Some(start + i) && acks[i].record == Some(commands[i].record)
  }

  lemma AckOn(a: Session, c: Session, g: int, result: Acknowledgement)
    requires SessionGrows(a, c) && g in a.acks && a.acks[g] == result
    ensures g in c.acks && c.acks[g] == result
  {
  }

  /** The one session of a whole control: current from its first answer to its last. */
  ghost predicate OneSession(w: World, turns: nat -> Turn, calls: seq<Call>, k: nat, identity: Identity) {
    forall n: nat :: 1 <= n <= |calls| ==>
      var now := At(w, turns, calls, n).sessions;
      |now| == k + 1 && now[k].identity == identity
  }

  lemma BetweenSessions(w: World, turns: nat -> Turn, calls: seq<Call>, m: nat)
    requires Sound(w) && 1 <= m <= |calls|
    requires var first, last := At(w, turns, calls, 1), At(w, turns, calls, |calls|);
             && first.sessions != [] && last.sessions != [] && first.Last().identity == last.Last().identity
    ensures var k := |At(w, turns, calls, 1).sessions| - 1;
            var now := At(w, turns, calls, m).sessions;
            |now| == k + 1 && now[k].identity == At(w, turns, calls, 1).Last().identity
  {
    hide At, Sound, SessionGrows;
    var first, last := At(w, turns, calls, 1), At(w, turns, calls, |calls|);
    AtKeeps(w, turns, calls, 1, |calls|);
    AtKeeps(w, turns, calls, 1, m);
    AtKeeps(w, turns, calls, m, |calls|);
    SameSession(first, last);
    SameIdentity(first.sessions[|first.sessions| - 1], At(w, turns, calls, m).sessions[|first.sessions| - 1]);
  }

  lemma SameIdentity(a: Session, c: Session)
    requires SessionGrows(a, c)
    ensures a.identity == c.identity
  {
  }

  /** What one acknowledgement seen at one answer is, at the end of everything. */
  lemma SeenIsAcked(w: World, turns: nat -> Turn, calls: seq<Call>, answers: nat -> Answer, n: nat, k: nat,
                    identity: Identity, a: Acknowledgement)
    requires Sound(w) && n < |calls| && Truthful(w, turns, calls, answers, n)
    requires OneSession(w, turns, calls, k, identity)
    requires answers(n).Current? && answers(n).envelope.status.Some?
    requires answers(n).envelope.status.value.identity == identity
    requires a in answers(n).envelope.Results() && a.generation.Some?
    ensures var end := At(w, turns, calls, |calls|).sessions;
            |end| == k + 1 && a.generation.value in end[k].acks && end[k].acks[a.generation.value] == a
  {
    hide At, Sound, SessionGrows, TrueStatus;
    var now, end := At(w, turns, calls, n + 1), At(w, turns, calls, |calls|);
    AtKeeps(w, turns, calls, n + 1, |calls|);
    AtKeeps(w, turns, calls, 0, n + 1);
    ReportedFrom(now, answers(n).envelope, k, a);
    AckOn(now.sessions[k], end.sessions[k], a.generation.value, a);
  }

  /** A batch whose receipt was good is in the session's log at the end, where its generations say. */
  lemma ReceivedIsHeld(w: World, turns: nat -> Turn, calls: seq<Call>, answers: nat -> Answer, n: nat, k: nat,
                       identity: Identity, commands: seq<Command>, start: int)
    requires Sound(w) && 1 <= n < |calls| && Truthful(w, turns, calls, answers, n)
    requires OneSession(w, turns, calls, k, identity)
    requires calls[n].Write? && calls[n].commands == commands && commands != [] && Numbered(commands, start)
    requires answers(n).Receipt? && answers(n).ok
    ensures var end := At(w, turns, calls, |calls|).sessions; |end| == k + 1 && Holds(end[k], commands, start, n)
    ensures var was := At(w, turns, calls, n).sessions; |was| == k + 1 && |was[k].log| < start
  {
    hide Sound, SessionGrows, Holds, Numbered, Takes, Handle, Steps;
    AtKeeps(w, turns, calls, n + 1, |calls|);
    AtKeeps(w, turns, calls, n, n + 1);
    var before := Before(w, turns, calls, n);
    TakenSession(before, n, calls[n], turns(n).willing);
    TakenIsHeld(before, n, calls[n], turns(n).willing, start);
    LogGrows(At(w, turns, calls, n).sessions[k], before.sessions[k]);
    HoldsOn(At(w, turns, calls, n + 1).sessions[k], At(w, turns, calls, |calls|).sessions[k], commands, start, n);
  }

  lemma TakenSession(w: World, n: nat, call: Call, willing: bool)
    requires Takes(w, call, willing)
    ensures w.sessions != [] && |Handle(w, n, call, willing).sessions| == |w.sessions|
  {
  }

  lemma LogGrows(a: Session, c: Session)
    requires SessionGrows(a, c)
    ensures |a.log| <= |c.log|
  {
  }

  // ---------- The verdict ----------

  /** Every status the client saw after the first was of the session it began with. */
  lemma LastStatusIsSame(app: int, sha: string, actions: seq<Action>, answers: nat -> Answer, calls: seq<Call>,
                         polls: nat, report: Report)
    requires ControlMet(app, sha, actions, answers, calls, polls, report)
    ensures |calls| >= 3 && answers(0).Current? && answers(0).envelope.IdentityOf() == Some(report.identity)
    ensures var last := answers(|calls| - 1); last.Current? && last.envelope.IdentityOf() == Some(report.identity)
  {
    hide Acknowledged, Permitted, ReadFor, Polls;
    if report.readback.Some? {
      var before := answers(0).envelope;
      assert QueryMet(app, Records(actions), Some(before), answers, 2 + polls, calls[2 + polls..],
          report.readback.value);
      assert AllowedBy(Some(before), answers, |calls| - 1, app);
    } else {
      assert SameAt(answers, |calls| - 1, app, answers(0).envelope, false);
    }
  }

  lemma ControlInOneSession(w: World, turns: nat -> Turn, app: int, sha: string, actions: seq<Action>,
                            answers: nat -> Answer, calls: seq<Call>, polls: nat, report: Report)
    requires Sound(w) && Honest(w, turns, calls, answers)
    requires ControlMet(app, sha, actions, answers, calls, polls, report)
    ensures |calls| >= 3 && At(w, turns, calls, 1).sessions != []
    ensures OneSession(w, turns, calls, |At(w, turns, calls, 1).sessions| - 1, report.identity)
  {
    LastStatusIsSame(app, sha, actions, answers, calls, polls, report);
    hide At, Sound, ControlMet, Takes;
    assert Truthful(w, turns, calls, answers, 0) && Truthful(w, turns, calls, answers, |calls| - 1);
    forall n: nat | 1 <= n <= |calls|
      ensures var now, k := At(w, turns, calls, n).sessions, |At(w, turns, calls, 1).sessions| - 1;
              |now| == k + 1 && now[k].identity == report.identity
    {
      BetweenSessions(w, turns, calls, n);
    }
  }

  lemma SomethingAsked(actions: seq<Action>)
    requires Permitted(actions)
    ensures actions != []
  {
  }

  /** The mutations are in the session's log at their generations, each acknowledged as reported. */
  lemma MutationsHappened(w: World, turns: nat -> Turn, app: int, sha: string, actions: seq<Action>,
                          answers: nat -> Answer, calls: seq<Call>, polls: nat, report: Report, k: nat)
    requires Sound(w) && Honest(w, turns, calls, answers) && OneSession(w, turns, calls, k, report.identity)
    requires ControlMet(app, sha, actions, answers, calls, polls, report)
    ensures var end, commands := At(w, turns, calls, |calls|).sessions, Mutations(actions, report.start);
            && |end| == k + 1
            && Holds(end[k], commands, report.start, 1)
            && Acked(end[k], report.acknowledged, commands, report.start)
  {
    hide At, Sound, SoundSession, Permitted, QueryMet, Polls, TrueStatus, Takes, Holds;
    var commands := Mutations(actions, report.start);
    assert Truthful(w, turns, calls, answers, 1);
    SomethingAsked(actions);
    ReceivedIsHeld(w, turns, calls, answers, 1, k, report.identity, commands, report.start);
    var end := At(w, turns, calls, |calls|).sessions;
    forall i: nat | i < |commands|
      ensures AckedAt(end[k], report.acknowledged, commands, report.start, i)
    {
      var a := report.acknowledged[i];
      assert SeenIn(a, answers, 2, polls);
      var n :| 2 <= n < 2 + polls && StatusFrom(answers, n)
               && Reported(answers(n).envelope.Results(), |answers(n).envelope.Results()|, a);
      assert SameAt(answers, n, app, answers(0).envelope, false) && Truthful(w, turns, calls, answers, n);
      SeenIsAcked(w, turns, calls, answers, n, k, report.identity, a);
    }
  }

  /** The queries are in the same log after the mutations, and the readback is what they were answered. */
  lemma ReadbackHappened(w: World, turns: nat -> Turn, app: int, sha: string, actions: seq<Action>,
                         answers: nat -> Answer, calls: seq<Call>, polls: nat, report: Report, k: nat, start: int)
    requires Sound(w) && Honest(w, turns, calls, answers) && OneSession(w, turns, calls, k, report.identity)
    requires ControlMet(app, sha, actions, answers, calls, polls, report) && report.readback.Some?
    requires answers(2 + polls).Current? && answers(2 + polls).envelope.nextGeneration == Some(start)
    ensures var end, queries := At(w, turns, calls, |calls|).sessions, Queries(Records(actions), start);
            && |end| == k + 1
            && Holds(end[k], queries, start, 3 + polls)
            && Acked(end[k], report.readback.value.results, queries, start)
    ensures report.start + |actions| <= start
  {
    hide At, Sound, SoundSession, Permitted, Acknowledged, TrueStatus, Takes, Holds, Polls,
         AllSame, Ready, TableSha, Latest;
    var records, before := Records(actions), answers(0).envelope;
    var more, results, queries := calls[2 + polls..], report.readback.value.results, Queries(records, start);
    assert QueryMet(app, records, Some(before), answers, 2 + polls, more, report.readback.value);
    assert calls[3 + polls] == more[1];
    assert Truthful(w, turns, calls, answers, 3 + polls) && Truthful(w, turns, calls, answers, |calls| - 1);
    SomethingAsked(actions);
    ReceivedIsHeld(w, turns, calls, answers, 3 + polls, k, report.identity, queries, start);
    AfterMutations(w, turns, app, sha, actions, answers, calls, polls, report, k);
    LastReports(w, turns, app, actions, answers, calls, polls, report, k, start, before);
  }

  /** By the time of the queries the mutations were in the log. */
  lemma AfterMutations(w: World, turns: nat -> Turn, app: int, sha: string, actions: seq<Action>,
                       answers: nat -> Answer, calls: seq<Call>, polls: nat, report: Report, k: nat)
    requires Sound(w) && Honest(w, turns, calls, answers) && OneSession(w, turns, calls, k, report.identity)
    requires ControlMet(app, sha, actions, answers, calls, polls, report) && 3 + polls < |calls|
    ensures var was := At(w, turns, calls, 3 + polls).sessions;
            |was| == k + 1 && report.start + |actions| - 1 <= |was[k].log|
  {
    hide Sound, SoundSession, Permitted, Acknowledged, QueryMet, Polls, TrueStatus, SessionGrows,
         Numbered, Takes, Handle, Steps, Holds;
    var commands := Mutations(actions, report.start);
    assert Truthful(w, turns, calls, answers, 1);
    SomethingAsked(actions);
    MutationsNumbered(actions, report.start);
    var mid := Before(w, turns, calls, 1);
    TakenSession(mid, 1, calls[1], turns(1).willing);
    TakenIsHeld(mid, 1, calls[1], turns(1).willing, report.start);
    AtKeeps(w, turns, calls, 2, 3 + polls);
    HeldFits(At(w, turns, calls, 2).sessions[k], commands, report.start, 1);
    LogGrows(At(w, turns, calls, 2).sessions[k], At(w, turns, calls, 3 + polls).sessions[k]);
  }

  lemma MutationsNumbered(actions: seq<Action>, start: int)
    ensures Numbered(Mutations(actions, start), start)
  {
  }

  lemma HeldFits(s: Session, commands: seq<Command>, start: int, call: nat)
    requires Holds(s, commands, start, call)
    ensures start + |commands| - 1 <= |s.log|
  {
  }

  lemma LastReports(w: World, turns: nat -> Turn, app: int, actions: seq<Action>, answers: nat -> Answer,
                    calls: seq<Call>, polls: nat, report: Report, k: nat, start: int, before: Envelope)
    requires Sound(w) && OneSession(w, turns, calls, k, report.identity) && report.readback.Some?
    requires before.prepared.Some? && before.status.Some? && before.status.value.identity == report.identity
    requires 2 + polls <= |calls| && answers(2 + polls).Current?
    requires answers(2 + polls).envelope.nextGeneration == Some(start)
    requires QueryMet(app, Records(actions), Some(before), answers, 2 + polls, calls[2 + polls..],
        report.readback.value)
    requires Truthful(w, turns, calls, answers, |calls| - 1)
    ensures var end := At(w, turns, calls, |calls|).sessions;
            |end| == k + 1 && Acked(end[k], report.readback.value.results, Queries(Records(actions), start), start)
  {
    hide At, Sound, SoundSession, Takes, TrueStatus, Polls, Latest, Connected;
    var records, results := Records(actions), report.readback.value.results;
    var last := |calls| - 1;
    assert AllowedBy(Some(before), answers, last, app);
    var reported := answers(last).envelope.Results();
    forall i: nat | i < |results|
      ensures AckedAt(At(w, turns, calls, |calls|).sessions[k], results, Queries(records, start), start, i)
    {
      assert ResultOf(reported, start, i) == Some(results[i]);
      SeenIsAcked(w, turns, calls, answers, last, k, report.identity, results[i]);
    }
  }

  /** Where a control's commands ended up, and what became of them, in the one session it ran in. */
  ghost predicate Happened(s: Session, actions: seq<Action>, report: Report, polls: nat) {
    && s.identity == report.identity
    && Holds(s, Mutations(actions, report.start), report.start, 1)
    && Acked(s, report.acknowledged, Mutations(actions, report.start), report.start)
    && (report.readback.Some? ==> ReadBack(s, actions, report, report.readback.value.results, polls))
  }

  ghost predicate ReadBack(s: Session, actions: seq<Action>, report: Report, results: seq<Acknowledgement>, polls: nat)
  {
    exists start :: report.start + |actions| <= start
        && ReadBackAt(s, Queries(Records(actions), start), start, results, polls)
  }

  ghost predicate ReadBackAt(s: Session, queries: seq<Command>, start: int, results: seq<Acknowledgement>, polls: nat) {
    Holds(s, queries, start, 3 + polls) && Acked(s, results, queries, start)
  }

  /**
   A control that reports ran in one session from its first answer to its last. Its mutations are in
   that session's log at consecutive generations, each with its own acknowledgement, and its queries
   follow them there with theirs. If it reports ok, all of those say ok and every record set active or
   inactive reads back as asked.
   */
  lemma ControlMeans(w: World, turns: nat -> Turn, app: int, sha: string, actions: seq<Action>,
                     answers: nat -> Answer, calls: seq<Call>, polls: nat, report: Report)
    returns (k: nat)
    requires Sound(w) && Honest(w, turns, calls, answers)
    requires ControlMet(app, sha, actions, answers, calls, polls, report)
    ensures |calls| >= 3 && OneSession(w, turns, calls, k, report.identity)
    ensures var end := At(w, turns, calls, |calls|).sessions;
            |end| == k + 1 && Happened(end[k], actions, report, polls)
  {
    hide At, Sound, SoundSession, Honest, QueryMet, Holds, Acked;
    ControlInOneSession(w, turns, app, sha, actions, answers, calls, polls, report);
    k := |At(w, turns, calls, 1).sessions| - 1;
    MutationsHappened(w, turns, app, sha, actions, answers, calls, polls, report, k);
    if report.readback.Some? {
      var start := QueryStart(app, actions, answers, calls, polls, report);
      ReadbackHappened(w, turns, app, sha, actions, answers, calls, polls, report, k, start);
      assert ReadBackAt(At(w, turns, calls, |calls|).sessions[k], Queries(Records(actions), start), start,
                        report.readback.value.results, polls);
    }
  }

  lemma QueryStart(app: int, actions: seq<Action>, answers: nat -> Answer, calls: seq<Call>, polls: nat,
                   report: Report) returns (start: int)
    requires report.readback.Some? && 2 + polls <= |calls| && answers(0).Current?
    requires QueryMet(app, Records(actions), Some(answers(0).envelope), answers, 2 + polls, calls[2 + polls..],
                      report.readback.value)
    ensures answers(2 + polls).Current? && answers(2 + polls).envelope.nextGeneration == Some(start)
  {
    start := answers(2 + polls).envelope.nextGeneration.value;
  }

  /** Entry `g` is a query the client itself sent about the record, answered ok and active as asked. */
  ghost predicate ReadsBackAt(s: Session, a: Action, g: int) {
    && 1 <= g <= |s.log| && s.log[g - 1].call.Some? && s.log[g - 1].command == Command(g, Kind.Query, a.record, "")
    && g in s.acks && s.acks[g].ok && s.acks[g].record == Some(a.record)
    && (a.kind == SetActive ==> s.acks[g].active == Some(a.value == "1"))
  }

  /** Mutation `i` is in the log as the client's own, acknowledged ok for its record, and reads back after it. */
  ghost predicate Effective(s: Session, actions: seq<Action>, start: int, i: nat)
    requires i < |actions|
  {
    && 1 <= start + i <= |s.log|
    && s.log[start + i - 1] == Logged(Mutations(actions, start)[i], Some(1))
    && start + i in s.acks && s.acks[start + i].ok && s.acks[start + i].record == Some(actions[i].record)
    && exists g :: start + i < g && ReadsBackAt(s, actions[i], g)
  }

  /** A control that reports ok had every one of its mutations take effect, in one session. */
  lemma OkMeans(w: World, turns: nat -> Turn, app: int, sha: string, actions: seq<Action>, answers: nat -> Answer,
                calls: seq<Call>, polls: nat, report: Report) returns (k: nat)
    requires Sound(w) && Honest(w, turns, calls, answers)
    requires ControlMet(app, sha, actions, answers, calls, polls, report) && Worked(actions, report)
    ensures |calls| >= 3 && OneSession(w, turns, calls, k, report.identity)
    ensures var end := At(w, turns, calls, |calls|).sessions;
            |end| == k + 1 && forall i: nat :: i < |actions| ==> Effective(end[k], actions, report.start, i)
  {
    hide At, Sound, Honest, ControlMet, Happened, Effective;
    k := ControlMeans(w, turns, app, sha, actions, answers, calls, polls, report);
    forall i: nat | i < |actions|
      ensures Effective(At(w, turns, calls, |calls|).sessions[k], actions, report.start, i)
    {
      EffectiveAt(At(w, turns, calls, |calls|).sessions[k], actions, report, polls, i);
    }
  }

  lemma EffectiveAt(s: Session, actions: seq<Action>, report: Report, polls: nat, i: nat)
    requires Happened(s, actions, report, polls) && Worked(actions, report) && i < |actions|
    ensures Effective(s, actions, report.start, i)
  {
    var commands, results := Mutations(actions, report.start), report.readback.value.results;
    assert AckedAt(s, report.acknowledged, commands, report.start, i);
    assert s.log[report.start - 1 + i] == Logged(commands[i], Some(1));
    var start :| report.start + |actions| <= start
                 && ReadBackAt(s, Queries(Records(actions), start), start, results, polls);
    ReadsBackHere(s, actions, results, start, polls, i);
  }

  lemma ReadsBackHere(s: Session, actions: seq<Action>, results: seq<Acknowledgement>, start: int, polls: nat, i: nat)
    requires i < |actions| && AllOk(results) && AsAsked(actions, results)
    requires ReadBackAt(s, Queries(Records(actions), start), start, results, polls)
    ensures ReadsBackAt(s, actions[i], start + i)
  {
    var queries := Queries(Records(actions), start);
    assert AckedAt(s, results, queries, start, i);
    assert s.log[start - 1 + i] == Logged(queries[i], Some(3 + polls));
  }
}
