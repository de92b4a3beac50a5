/**
 The client of a running session's control log: it submits record mutations as one batch at the
 session's next generation, waits for the bridge to acknowledge every one, and reads the records back
 through queries at the generations after.

 The backend and the bridge are a stream of answers: answer `n` is what the client's call `n` met.
 Nothing is supposed about that stream here; RuntimeSession says what an honest one means.
 */
module RuntimeControl {
  import opened Wrappers
  import opened Strings
  import Utf8

  const MAX_RECORDS := 64
  const ACK_POLL_ATTEMPTS := 96

  datatype Identity = Identity(session: string, table: string, ce: string, descriptor: string)

  datatype Prepared = Prepared(appId: int, identity: Identity)

  /** One result the bridge reports; a key that is absent is `None`. */
  datatype Acknowledgement =
    Acknowledgement(generation: Option<int>, record: Option<int>, ok: bool, active: Option<bool>, detail: string)

  datatype Status =
    Status(appId: int, identity: Identity, attached: bool, process: Option<int>, results: seq<Acknowledgement>)

  datatype Envelope = Envelope(
    connected: bool,
    sessionCurrent: bool,
    prepared: Option<Prepared>,
    status: Option<Status>,
    nextGeneration: Option<int>)
  {
    function Results(): seq<Acknowledgement> {
      if status.Some? then status.value.results else []
    }

    function IdentityOf(): Option<Identity> {
      if prepared.Some? then Some(prepared.value.identity) else None
    }
  }

  datatype Answer = Current(envelope: Envelope) | Receipt(ok: bool, count: int, next: int) | Raised

  datatype Kind = SetActive | SetValue | Query | OtherKind(name: string)

  datatype Action = Action(record: int, kind: Kind, value: string)

  datatype Command = Command(generation: int, kind: Kind, record: int, value: string)

  datatype Call = GetStatus(appId: int) | Write(appId: int, commands: seq<Command>)

  datatype Refusal = BadRequest | Failed | NotConnected | NotAttached | NoGeneration | BadReceipt | SessionChanged
    | TargetChanged | Ambiguous | TimedOut

  // ---------- What may be asked for ----------

  predicate Supported(a: Action) {
    && 0 <= a.record <= 0x7FFFFFFF
    && a.value != "" && '\0' !in a.value && |Utf8.Encode(a.value)| <= 4096
    && (a.kind == SetActive || a.kind == SetValue)
    && (a.kind == SetActive ==> a.value == "0" || a.value == "1")
  }

  predicate DistinctRecords(records: seq<int>) {
    forall i, j :: 0 <= i < j < |records| ==> records[i] != records[j]
  }

  function Records(actions: seq<Action>): (r: seq<int>)
    ensures |r| == |actions| && forall i :: 0 <= i < |r| ==> r[i] == actions[i].record
  {
    seq(|actions|, i requires 0 <= i < |actions| => actions[i].record)
  }

  predicate Permitted(actions: seq<Action>) {
    && 1 <= |actions| <= MAX_RECORDS
    && DistinctRecords(Records(actions))
    && forall a :: a in actions ==> Supported(a)
  }

  predicate RecordAmong(actions: seq<Action>, n: int, id: int) {
    exists i :: 0 <= i < n <= |actions| && actions[i].record == id
  }

  predicate PermittedTo(actions: seq<Action>, n: int) {
    forall i :: 0 <= i < n <= |actions| ==> Supported(actions[i]) && !RecordAmong(actions, i, actions[i].record)
  }

  lemma PermittedToAll(actions: seq<Action>)
    ensures Permitted(actions) <==> 1 <= |actions| <= MAX_RECORDS && PermittedTo(actions, |actions|)
  {
    hide Supported;
    var records := Records(actions);
    if 1 <= |actions| <= MAX_RECORDS && PermittedTo(actions, |actions|) {
      forall i, j | 0 <= i < j < |records|
        ensures records[i] != records[j]
      {
        assert !RecordAmong(actions, j, actions[j].record);
      }
    }
    if Permitted(actions) {
      forall i | 0 <= i < |actions|
        ensures Supported(actions[i]) && !RecordAmong(actions, i, actions[i].record)
      {
        assert actions[i] in actions;
        assert forall k :: 0 <= k < i ==> records[k] != records[i];
      }
    }
  }

  method ValidateActions(actions: seq<Action>) returns (valid: bool)
    ensures valid <==> Permitted(actions)
  {
    PermittedToAll(actions);
    if !(1 <= |actions| <= MAX_RECORDS) { return false; }
    hide Permitted;
    var seen: set<int> := {};
    for n := 0 to |actions|
      invariant PermittedTo(actions, n)
      invariant forall id :: id in seen <==> RecordAmong(actions, n, id)
    {
      var a := actions[n];
      if !(0 <= a.record <= 0x7FFFFFFF) || a.record in seen { return false; }
      seen := seen + {a.record};
      if !Supported(a) { return false; }
    }
    return true;
  }

  predicate TableSha(sha: string) {
    |sha| == 64 && forall c :: c in sha ==> HexDigit(c)
  }

  // ---------- What the client checks of an envelope ----------

  predicate Connected(e: Envelope, app: int) {
    && e.connected && e.prepared.Some? && e.status.Some? && e.sessionCurrent
    && e.prepared.value.appId == app && e.status.value.appId == app
    && e.prepared.value.identity == e.status.value.identity
  }

  /** Still the session and the process the mutation was aimed at. */
  predicate SameTarget(e: Envelope, app: int, before: Envelope) {
    && e.prepared.Some? && before.prepared.Some? && e.prepared.value.identity == before.prepared.value.identity
    && e.sessionCurrent && e.status.Some? && before.status.Some?
    && e.status.value.appId == app && e.status.value.identity == before.status.value.identity
    && e.status.value.attached && e.status.value.process == before.status.value.process
  }

  predicate OtherSession(e: Envelope, app: int, before: Envelope)
    requires before.status.Some?
  {
    || e.IdentityOf() != before.IdentityOf() || !e.sessionCurrent || e.status.None?
    || e.status.value.appId != app || e.status.value.identity != before.status.value.identity
  }

  predicate OtherProcess(e: Envelope, before: Envelope)
    requires before.status.Some?
  {
    e.status.Some? && (!e.status.value.attached || e.status.value.process != before.status.value.process)
  }

  function RequireSameTarget(e: Envelope, app: int, before: Envelope, current: bool): (r: Result<(), Refusal>)
    requires before.prepared.Some? && before.status.Some?
    ensures r.Success? <==> SameTarget(e, app, before) && (current ==> Connected(e, app))
    ensures r == Failure(SessionChanged) ==> OtherSession(e, app, before)
    ensures r == Failure(TargetChanged) ==> OtherProcess(e, before)
    ensures r == Failure(NotConnected) ==> current && !Connected(e, app)
    ensures r.Failure? ==> r.error in {SessionChanged, TargetChanged, NotConnected}
  {
    if e.IdentityOf() != before.IdentityOf() then Failure(SessionChanged)
    else if current && !Connected(e, app) then Failure(NotConnected)
    else if !e.sessionCurrent || e.status.None? || e.status.value.appId != app
            || e.status.value.identity != before.status.value.identity then Failure(SessionChanged)
    else if !e.status.value.attached || e.status.value.process != before.status.value.process then
      Failure(TargetChanged)
    else Success(())
  }

  // ---------- Acknowledgements ----------

  function Mutations(actions: seq<Action>, start: int): (r: seq<Command>)
    ensures |r| == |actions|
    ensures forall i :: 0 <= i < |r| ==>
              r[i] == Command(start + i, actions[i].kind, actions[i].record, actions[i].value)
  {
    seq(|actions|, i requires 0 <= i < |actions| =>
      Command(start + i, actions[i].kind, actions[i].record, actions[i].value))
  }

  function Queries(records: seq<int>, start: int): (r: seq<Command>)
    ensures |r| == |records|
    ensures forall i :: 0 <= i < |r| ==> r[i] == Command(start + i, Kind.Query, records[i], "")
  {
    seq(|records|, i requires 0 <= i < |records| => Command(start + i, Kind.Query, records[i], ""))
  }

  /** The commands of one batch take the generations from `start` on, one each. */
  predicate Numbered(commands: seq<Command>, start: int) {
    forall i :: 0 <= i < |commands| ==> commands[i].generation == start + i
  }

  predicate Answers(a: Acknowledgement, commands: seq<Command>, start: int) {
    a.generation.Some? && start <= a.generation.value < start + |commands|
  }

  predicate RightRecord(a: Acknowledgement, commands: seq<Command>, start: int)
    requires Answers(a, commands, start)
  {
    a.record == Some(commands[a.generation.value - start].record)
  }

  predicate NoContradiction(a: Acknowledgement, known: map<int, Acknowledgement>) {
    a.generation.Some? && a.generation.value in known ==> known[a.generation.value] == a
  }

  predicate NoRepeat(results: seq<Acknowledgement>, commands: seq<Command>, start: int, n: int) {
    forall i :: 0 <= i < n <= |results| - 1 && Answers(results[i], commands, start)
                ==> results[i].generation != results[n].generation
  }

  predicate AcceptableAt(results: seq<Acknowledgement>, n: int, commands: seq<Command>, start: int,
                         known: map<int, Acknowledgement>)
    requires 0 <= n < |results|
  {
    Answers(results[n], commands, start) ==>
      && NoRepeat(results, commands, start, n)
      && RightRecord(results[n], commands, start)
      && NoContradiction(results[n], known)
  }

  /** One sample says nothing ambiguous: each command at most once, its own record, as known before. */
  predicate Unambiguous(results: seq<Acknowledgement>, commands: seq<Command>, start: int,
                        known: map<int, Acknowledgement>) {
    forall n :: 0 <= n < |results| ==> AcceptableAt(results, n, commands, start, known)
  }

  /** What is known holds one acknowledgement of a command under its own generation and record. */
  predicate Known(known: map<int, Acknowledgement>, commands: seq<Command>, start: int) {
    forall g :: g in known ==>
      && known[g].generation == Some(g) && Answers(known[g], commands, start)
      && RightRecord(known[g], commands, start)
  }

  /** `a` is one of the commands' acknowledgements in the first `n` results. */
  predicate Reported(results: seq<Acknowledgement>, n: int, a: Acknowledgement) {
    exists i :: 0 <= i < n <= |results| && results[i] == a
  }

  predicate GainedFrom(was: map<int, Acknowledgement>, now: map<int, Acknowledgement>,
                       results: seq<Acknowledgement>, n: int) {
    && (forall g :: g in was ==> g in now && now[g] == was[g])
    && (forall g :: g in now ==> (g in was && now[g] == was[g]) || Reported(results, n, now[g]))
  }

  predicate AllTaken(results: seq<Acknowledgement>, n: int, commands: seq<Command>, start: int,
                     known: map<int, Acknowledgement>) {
    forall i :: 0 <= i < n <= |results| && Answers(results[i], commands, start)
                ==> results[i].generation.value in known && known[results[i].generation.value] == results[i]
  }

  predicate Seen(results: seq<Acknowledgement>, n: int, commands: seq<Command>, start: int, g: int) {
    exists i :: 0 <= i < n <= |results| && results[i].generation == Some(g) && Answers(results[i], commands, start)
  }

  /** What `Absorb` has after its first `n` results. */
  ghost predicate Absorbed(results: seq<Acknowledgement>, n: nat, commands: seq<Command>, start: int,
                           was: map<int, Acknowledgement>, known: map<int, Acknowledgement>, seen: set<int>) {
    && n <= |results|
    && Known(known, commands, start)
    && GainedFrom(was, known, results, n)
    && AllTaken(results, n, commands, start, known)
    && (forall g :: g in seen <==> Seen(results, n, commands, start, g))
    && (forall g :: g in known && g !in seen ==> g in was)
    && (forall i :: 0 <= i < n ==> AcceptableAt(results, i, commands, start, was))
  }

  lemma SeenNext(results: seq<Acknowledgement>, n: nat, commands: seq<Command>, start: int, g: int)
    requires n < |results|
    ensures Seen(results, n + 1, commands, start, g)
            <==> Seen(results, n, commands, start, g)
                 || (Answers(results[n], commands, start) && results[n].generation == Some(g))
  {
  }

  lemma AcceptableOther(results: seq<Acknowledgement>, n: nat, commands: seq<Command>, start: int,
                        was: map<int, Acknowledgement>)
    requires n < |results| && !Answers(results[n], commands, start)
    ensures AcceptableAt(results, n, commands, start, was)
  {
  }

  lemma AbsorbedSkip(results: seq<Acknowledgement>, n: nat, commands: seq<Command>, start: int,
                     was: map<int, Acknowledgement>, known: map<int, Acknowledgement>, seen: set<int>)
    requires Absorbed(results, n, commands, start, was, known, seen) && n < |results|
    requires !Answers(results[n], commands, start)
    ensures Absorbed(results, n + 1, commands, start, was, known, seen)
  {
    hide Seen, Answers, AcceptableAt, Known;
    forall g ensures Seen(results, n + 1, commands, start, g) <==> Seen(results, n, commands, start, g) {
      SeenNext(results, n, commands, start, g);
    }
    AcceptableOther(results, n, commands, start, was);
    assert forall g :: g in known && Reported(results, n, known[g]) ==> Reported(results, n + 1, known[g]);
  }

  /** The next result is refused by what was taken exactly when the sample is ambiguous at it. */
  lemma AbsorbedJudges(results: seq<Acknowledgement>, n: nat, commands: seq<Command>, start: int,
                       was: map<int, Acknowledgement>, known: map<int, Acknowledgement>, seen: set<int>)
    requires Absorbed(results, n, commands, start, was, known, seen) && n < |results|
    requires Answers(results[n], commands, start)
    ensures var g := results[n].generation.value;
            AcceptableAt(results, n, commands, start, was)
            <==> g !in seen && RightRecord(results[n], commands, start) && (g in known ==> known[g] == results[n])
  {
    var g := results[n].generation.value;
    hide Known, AllTaken, Answers, RightRecord;
    assert g in seen <==> Seen(results, n, commands, start, g);
    assert NoRepeat(results, commands, start, n) <==> !Seen(results, n, commands, start, g);
    if g in was { assert known[g] == was[g]; }
  }

  lemma AbsorbedGains(results: seq<Acknowledgement>, n: nat, was: map<int, Acknowledgement>,
                      known: map<int, Acknowledgement>, g: int)
    requires GainedFrom(was, known, results, n) && n < |results|
    requires g in was ==> was[g] == results[n]
    ensures GainedFrom(was, known[g := results[n]], results, n + 1)
  {
    assert Reported(results, n + 1, results[n]);
    forall k | k in known && Reported(results, n, known[k])
      ensures Reported(results, n + 1, known[k])
    {
    }
  }

  lemma AbsorbedTakes(results: seq<Acknowledgement>, n: nat, commands: seq<Command>, start: int,
                      was: map<int, Acknowledgement>, known: map<int, Acknowledgement>, seen: set<int>)
    requires Absorbed(results, n, commands, start, was, known, seen) && n < |results|
    requires Answers(results[n], commands, start) && AcceptableAt(results, n, commands, start, was)
    ensures var g := results[n].generation.value;
            Absorbed(results, n + 1, commands, start, was, known[g := results[n]], seen + {g})
  {
    var g := results[n].generation.value;
    AbsorbedJudges(results, n, commands, start, was, known, seen);
    hide AcceptableAt, Seen;
    forall k ensures Seen(results, n + 1, commands, start, k) <==> k in seen + {g} {
      SeenNext(results, n, commands, start, k);
    }
    AbsorbedGains(results, n, was, known, g);
    hide GainedFrom;
    TakenNext(results, n, commands, start, known, g);
  }

  lemma TakenNext(results: seq<Acknowledgement>, n: nat, commands: seq<Command>, start: int,
                  known: map<int, Acknowledgement>, g: int)
    requires n < |results| && AllTaken(results, n, commands, start, known) && Known(known, commands, start)
    requires Answers(results[n], commands, start) && RightRecord(results[n], commands, start)
    requires results[n].generation == Some(g) && (g in known ==> known[g] == results[n])
    ensures AllTaken(results, n + 1, commands, start, known[g := results[n]])
    ensures Known(known[g := results[n]], commands, start)
  {
  }

  /** Takes in one sample, refusing exactly when it is ambiguous. */
  method Absorb(results: seq<Acknowledgement>, commands: seq<Command>, start: int, was: map<int, Acknowledgement>)
    returns (known: map<int, Acknowledgement>, clean: bool)
    requires Known(was, commands, start)
    ensures clean <==> Unambiguous(results, commands, start, was)
    ensures clean ==> Known(known, commands, start) && GainedFrom(was, known, results, |results|)
    ensures clean ==> AllTaken(results, |results|, commands, start, known)
  {
    hide AcceptableAt, Absorbed, Answers, RightRecord;
    known := was;
    var seen: set<int> := {};
    AbsorbedNothing(results, commands, start, was);
    for n := 0 to |results|
      invariant Absorbed(results, n, commands, start, was, known, seen)
    {
      var result := results[n];
      if !Answers(result, commands, start) {
        AbsorbedSkip(results, n, commands, start, was, known, seen);
        continue;
      }
      AbsorbedGenerations(result, commands, start);
      var g := result.generation.value;
      AbsorbedJudges(results, n, commands, start, was, known, seen);
      if g in seen || !RightRecord(result, commands, start) { return known, false; }
      if g in known && known[g] != result { return known, false; }
      AbsorbedTakes(results, n, commands, start, was, known, seen);
      seen := seen + {g};
      known := known[g := result];
    }
    AbsorbedAll(results, commands, start, was, known, seen);
    return known, true;
  }

  lemma AbsorbedNothing(results: seq<Acknowledgement>, commands: seq<Command>, start: int,
                        was: map<int, Acknowledgement>)
    requires Known(was, commands, start)
    ensures Absorbed(results, 0, commands, start, was, was, {})
  {
  }

  lemma AbsorbedGenerations(a: Acknowledgement, commands: seq<Command>, start: int)
    requires Answers(a, commands, start)
    ensures a.generation.Some?
  {
  }

  lemma AbsorbedAll(results: seq<Acknowledgement>, commands: seq<Command>, start: int,
                    was: map<int, Acknowledgement>, known: map<int, Acknowledgement>, seen: set<int>)
    requires Absorbed(results, |results|, commands, start, was, known, seen)
    ensures Unambiguous(results, commands, start, was)
    ensures Known(known, commands, start) && GainedFrom(was, known, results, |results|)
    ensures AllTaken(results, |results|, commands, start, known)
  {
  }

  // ---------- The query ----------

  datatype Readback = Readback(identity: Identity, results: seq<Acknowledgement>)

  /** The result at `k` is of the generation, and none after it is. */
  predicate LastAt(results: seq<Acknowledgement>, g: int, k: int) {
    && 0 <= k < |results| && results[k].generation == Some(g)
    && forall j :: k < j < |results| ==> results[j].generation != Some(g)
  }

  /** What the results say of one generation: the last of them with it. */
  function Latest(results: seq<Acknowledgement>, g: int): (r: Option<Acknowledgement>)
    ensures r.Some? ==> Reported(results, |results|, r.value) && r.value.generation == Some(g)
    ensures r.Some? ==> exists k :: LastAt(results, g, k) && results[k] == r.value
    ensures r.None? ==> forall a :: a in results ==> a.generation != Some(g)
  {
    if results == [] then None
    else if results[|results| - 1].generation == Some(g) then
      assert LastAt(results, g, |results| - 1);
      Some(results[|results| - 1])
    else
      LastBefore(results, g);
      Latest(results[..|results| - 1], g)
  }

  lemma LastBefore(results: seq<Acknowledgement>, g: int)
    requires results != [] && results[|results| - 1].generation != Some(g)
    ensures forall k :: LastAt(results[..|results| - 1], g, k) ==> LastAt(results, g, k)
  {
  }

  /** What the results say of query `i`. */
  function ResultOf(reported: seq<Acknowledgement>, start: int, i: nat): Option<Acknowledgement> {
    Latest(reported, start + i)
  }

  /** The first `n` results, in order of the queries, are each the latest there is and for the right record. */
  predicate ReadFor(results: seq<Acknowledgement>, reported: seq<Acknowledgement>, records: seq<int>, start: int,
      n: nat)
  {
    n <= |results| && n <= |records|
    && forall i: nat :: i < n ==>
         ResultOf(reported, start, i) == Some(results[i]) && results[i].record == Some(records[i])
  }

  predicate Complete(reported: seq<Acknowledgement>, records: seq<int>, start: int) {
    forall i: nat :: i < |records| ==> ResultOf(reported, start, i).Some?
  }

  predicate RightFor(reported: seq<Acknowledgement>, records: seq<int>, start: int, i: nat)
    requires i < |records|
  {
    ResultOf(reported, start, i).Some? && ResultOf(reported, start, i).value.record == Some(records[i])
  }

  /** Picks the queries' results out of one sample that has them all; refuses exactly a wrong record. */
  method Pick(reported: seq<Acknowledgement>, records: seq<int>, start: int)
    returns (results: seq<Acknowledgement>, right: bool)
    requires Complete(reported, records, start)
    ensures right ==> |results| == |records| && ReadFor(results, reported, records, start, |records|)
    ensures right <==> forall i: nat :: i < |records| ==> RightFor(reported, records, start, i)
  {
    hide ResultOf;
    results := [];
    for n := 0 to |records|
      invariant |results| == n && ReadFor(results, reported, records, start, n)
    {
      assert ResultOf(reported, start, n).Some?;
      var result := ResultOf(reported, start, n).value;
      if result.record != Some(records[n]) {
        assert !RightFor(reported, records, start, n);
        return results, false;
      }
      results := results + [result];
    }
    return results, true;
  }

  predicate StatusFrom(answers: nat -> Answer, i: nat) {
    answers(i).Current?
  }

  /** Answer `i` is a status of the session and process `before` was of, connected if it must be. */
  predicate SameAt(answers: nat -> Answer, i: nat, app: int, before: Envelope, current: bool) {
    answers(i).Current? && SameTarget(answers(i).envelope, app, before)
    && (current ==> Connected(answers(i).envelope, app))
  }

  predicate AllowedBy(guard: Option<Envelope>, answers: nat -> Answer, i: nat, app: int) {
    guard.Some? ==> SameAt(answers, i, app, guard.value, true)
  }

  predicate Polls(app: int, calls: seq<Call>, first: nat) {
    forall i :: first <= i < |calls| ==> calls[i] == GetStatus(app)
  }

  /** Everything a query that answered met on its way, its first call being number `at`. */
  ghost predicate QueryMet(app: int, records: seq<int>, guard: Option<Envelope>, answers: nat -> Answer, at: nat,
                           calls: seq<Call>, readback: Readback) {
    && 3 <= |calls| <= 2 + ACK_POLL_ATTEMPTS
    && StatusFrom(answers, at) && Connected(answers(at).envelope, app)
    && answers(at).envelope.nextGeneration.Some?
    && var start := answers(at).envelope.nextGeneration.value;
    && readback.identity == answers(at).envelope.prepared.value.identity
    && calls[0] == GetStatus(app) && calls[1] == Write(app, Queries(records, start)) && Polls(app, calls, 2)
    && answers(at + 1) == Receipt(true, |records|, start + |records|)
    && QueryPolled(app, readback.identity, guard, answers, at, |calls|)
    && |readback.results| == |records|
    && StatusFrom(answers, at + |calls| - 1)
    && ReadFor(readback.results, answers(at + |calls| - 1).envelope.Results(), records, start, |records|)
  }

  /** Every status the query saw was of one session, and passed the guard. */
  ghost predicate QueryPolled(app: int, identity: Identity, guard: Option<Envelope>, answers: nat -> Answer, at: nat,
                              n: nat) {
    && AllowedBy(guard, answers, at, app)
    && forall i :: at + 2 <= i < at + n ==>
         && StatusFrom(answers, i) && answers(i).envelope.IdentityOf() == Some(identity)
         && AllowedBy(guard, answers, i, app)
  }

  /** One status call through the guard a readback puts on it. */
  function Guarded(answer: Answer, app: int, guard: Option<Envelope>): (r: Result<Envelope, Refusal>)
    requires guard.Some? ==> guard.value.prepared.Some? && guard.value.status.Some?
    ensures r.Success? ==> answer == Current(r.value)
                           && (guard.Some? ==> SameTarget(r.value, app, guard.value) && Connected(r.value, app))
    ensures r.Failure? ==> r.error in {Failed, SessionChanged, TargetChanged, NotConnected}
  {
    if !answer.Current? then Failure(Failed)
    else if guard.None? then Success(answer.envelope)
    else
      var check := RequireSameTarget(answer.envelope, app, guard.value, true);
      if check.Failure? then Failure(check.error) else Success(answer.envelope)
  }

  /** All that `calls` submitted, batch by batch. */
  function Submitted(calls: seq<Call>): seq<seq<Command>> {
    if calls == [] then []
    else
      var last := calls[|calls| - 1];
      Submitted(calls[..|calls| - 1]) + if last.Write? then [last.commands] else []
  }

  lemma SubmittedPush(calls: seq<Call>, call: Call)
    ensures Submitted(calls + [call]) == Submitted(calls) + if call.Write? then [call.commands] else []
  {
    assert (calls + [call])[..|calls|] == calls;
  }

  lemma {:induction false} SubmittedJoin(a: seq<Call>, c: seq<Call>)
    ensures Submitted(a + c) == Submitted(a) + Submitted(c)
    decreases |c|
  {
    if c == [] {
      assert a + c == a;
    } else {
      assert (a + c)[..|a + c| - 1] == a + c[..|c| - 1];
      SubmittedJoin(a, c[..|c| - 1]);
    }
  }

  lemma PollsPush(app: int, polls: seq<Call>)
    requires Polls(app, polls, 0)
    ensures Polls(app, polls + [GetStatus(app)], 0)
  {
  }

  lemma {:induction false} PollsSubmitNothing(app: int, polls: seq<Call>)
    requires Polls(app, polls, 0)
    ensures Submitted(polls) == []
    decreases |polls|
  {
    if polls != [] { PollsSubmitNothing(app, polls[..|polls| - 1]); }
  }

  /** At most one batch, and nothing in it but queries about these records. */
  predicate OnlyQueries(submitted: seq<seq<Command>>, records: seq<int>) {
    |submitted| <= 1 && forall batch :: batch in submitted ==> QueriesFor(batch, records)
  }

  predicate QueriesFor(batch: seq<Command>, records: seq<int>) {
    && |batch| == |records|
    && forall i :: 0 <= i < |batch| ==> batch[i].kind == Kind.Query && batch[i].record == records[i]
  }

  // ---------- When the queries are answered ----------

  /** The results answer `i` shows. */
  function ResultsAt(answers: nat -> Answer, i: nat): seq<Acknowledgement> {
    if answers(i).Current? then answers(i).envelope.Results() else []
  }

  predicate HasGeneration(results: seq<Acknowledgement>, g: int) {
    exists k :: 0 <= k < |results| && results[k].generation == Some(g)
  }

  predicate AllThere(results: seq<Acknowledgement>, commands: seq<Command>) {
    forall k :: 0 <= k < |commands| ==> HasGeneration(results, commands[k].generation)
  }

  /** The last result of every command is for its own record. */
  predicate RightIn(results: seq<Acknowledgement>, commands: seq<Command>) {
    forall k :: 0 <= k < |commands| ==> RightLast(results, commands[k])
  }

  lemma ThereExactly(results: seq<Acknowledgement>, records: seq<int>, start: int)
    ensures Complete(results, records, start) <==> AllThere(results, Queries(records, start))
    ensures Complete(results, records, start) ==>
              ((forall i: nat :: i < |records| ==> RightFor(results, records, start, i))
               <==> RightIn(results, Queries(records, start)))
  {
    hide Latest, LastAt, HasGeneration;
    var commands := Queries(records, start);
    forall i: nat | i < |records|
      ensures ResultOf(results, start, i).Some? <==> HasGeneration(results, commands[i].generation)
    {
      LatestExactly(results, start + i);
    }
    if Complete(results, records, start) {
      RightExactly(results, records, start);
    }
  }

  lemma RightExactly(results: seq<Acknowledgement>, records: seq<int>, start: int)
    requires Complete(results, records, start)
    ensures (forall i: nat :: i < |records| ==> RightFor(results, records, start, i))
            <==> RightIn(results, Queries(records, start))
  {
    hide Latest, LastAt;
    var commands := Queries(records, start);
    forall i: nat | i < |records|
      ensures RightFor(results, records, start, i) <==> RightLast(results, commands[i])
    {
      assert ResultOf(results, start, i).Some?;
      LastRight(results, commands[i]);
    }
  }

  /** The last result of one command is for its own record. */
  predicate RightLast(results: seq<Acknowledgement>, command: Command) {
    forall l :: 0 <= l < |results| && LastAt(results, command.generation, l)
                ==> results[l].record == Some(command.record)
  }

  lemma LastRight(results: seq<Acknowledgement>, command: Command)
    requires Latest(results, command.generation).Some?
    ensures RightLast(results, command)
            <==> Latest(results, command.generation).value.record == Some(command.record)
  {
    hide LastAt;
    LatestExactly(results, command.generation);
    var l := WhereLatest(results, command.generation);
  }

  lemma WhereLatest(results: seq<Acknowledgement>, g: int) returns (k: nat)
    requires Latest(results, g).Some?
    ensures k < |results| && LastAt(results, g, k) && results[k] == Latest(results, g).value
  {
    k :| LastAt(results, g, k) && results[k] == Latest(results, g).value;
  }

  lemma LatestExactly(results: seq<Acknowledgement>, g: int)
    ensures Latest(results, g).Some? <==> HasGeneration(results, g)
    ensures forall k :: LastAt(results, g, k) ==> Latest(results, g) == Some(results[k])
  {
    if HasGeneration(results, g) {
      var k :| 0 <= k < |results| && results[k].generation == Some(g);
      assert results[k] in results;
    }
    forall k | LastAt(results, g, k)
      ensures Latest(results, g) == Some(results[k])
    {
      assert results[k] in results;
      var l :| LastAt(results, g, l) && results[l] == Latest(results, g).value;
      LastIsOne(results, g, k, l);
    }
  }

  lemma LastIsOne(results: seq<Acknowledgement>, g: int, k: int, l: int)
    requires LastAt(results, g, k) && LastAt(results, g, l)
    ensures k == l
  {
    assert results[k].generation == results[l].generation;
  }

  /** The `n` answers from `first` on are statuses of one session that pass the guard. */
  ghost predicate SessionTo(app: int, identity: Identity, guard: Option<Envelope>, answers: nat -> Answer, first: nat,
                            n: nat) {
    forall i :: first <= i < first + n ==>
      && StatusFrom(answers, i) && answers(i).envelope.IdentityOf() == Some(identity)
      && AllowedBy(guard, answers, i, app)
  }

  /** The `n`-th answer shows a result of every query. */
  ghost predicate AnsweredAt(commands: seq<Command>, answers: nat -> Answer, first: nat, n: nat) {
    n > 0 && AllThere(ResultsAt(answers, first + n - 1), commands)
  }

  /** How the polls for some queries ended after `n` of them, the first being answer `first`. */
  ghost predicate Polled(app: int, commands: seq<Command>, identity: Identity, guard: Option<Envelope>,
                         answers: nat -> Answer, first: nat, n: nat, outcome: Result<seq<Acknowledgement>, Refusal>) {
    && 1 <= n <= ACK_POLL_ATTEMPTS
    && var last, results := answers(first + n - 1), ResultsAt(answers, first + n - 1);
    && var same, there := SessionTo(app, identity, guard, answers, first, n), AnsweredAt(commands, answers, first, n);
    && (forall m :: 1 <= m < n ==> !AnsweredAt(commands, answers, first, m))
    && SessionTo(app, identity, guard, answers, first, n - 1)
    && (outcome.Success? <==> same && there && RightIn(results, commands))
    && (outcome.Failure? ==>
          outcome.error in {Failed, SessionChanged, TargetChanged, NotConnected, Ambiguous, TimedOut})
    && (outcome == Failure(TimedOut) <==> same && !there && n == ACK_POLL_ATTEMPTS)
    && (same && !there ==> n == ACK_POLL_ATTEMPTS)
    && (outcome == Failure(Failed) <==> !last.Current?)
    && (outcome == Failure(Ambiguous) <==> same && there && !RightIn(results, commands))
    && (outcome == Failure(SessionChanged) ==>
          || last.envelope.IdentityOf() != Some(identity)
          || (guard.Some? && guard.value.status.Some? && OtherSession(last.envelope, app, guard.value)))
    && (outcome == Failure(TargetChanged) ==>
          guard.Some? && guard.value.status.Some? && OtherProcess(last.envelope, guard.value))
    && (outcome == Failure(NotConnected) ==> guard.Some? && !Connected(last.envelope, app))
  }

  /** The queries may be read back after `n` polls: one session so far, and now, not before, all there and right. */
  ghost predicate ReadAt(app: int, commands: seq<Command>, identity: Identity, guard: Option<Envelope>,
                         answers: nat -> Answer, first: nat, n: nat) {
    && 1 <= n <= ACK_POLL_ATTEMPTS
    && SessionTo(app, identity, guard, answers, first, n)
    && AnsweredAt(commands, answers, first, n)
    && RightIn(ResultsAt(answers, first + n - 1), commands)
    && forall m :: 1 <= m < n ==> !AnsweredAt(commands, answers, first, m)
  }

  lemma PolledExactly(app: int, commands: seq<Command>, identity: Identity, guard: Option<Envelope>,
                      answers: nat -> Answer, first: nat, n: nat, outcome: Result<seq<Acknowledgement>, Refusal>)
    requires Polled(app, commands, identity, guard, answers, first, n, outcome)
    ensures outcome.Success? <==> exists m: nat :: ReadAt(app, commands, identity, guard, answers, first, m)
    ensures outcome.Success? ==> ReadAt(app, commands, identity, guard, answers, first, n)
  {
    hide AllThere, RightIn, Connected, OtherSession, OtherProcess, AllowedBy, ResultsAt;
    assert outcome.Success? ==> ReadAt(app, commands, identity, guard, answers, first, n);
    forall m: nat | ReadAt(app, commands, identity, guard, answers, first, m)
      ensures outcome.Success?
    {
      assert m >= n;
    }
  }

  /** Nothing has ended the polls in the first `n` of them. */
  ghost predicate Polling(app: int, commands: seq<Command>, identity: Identity, guard: Option<Envelope>,
                          answers: nat -> Answer, first: nat, n: nat) {
    && SessionTo(app, identity, guard, answers, first, n)
    && forall m :: 1 <= m <= n ==> !AnsweredAt(commands, answers, first, m)
  }

  lemma PollsFail(app: int, commands: seq<Command>, identity: Identity, guard: Option<Envelope>,
                  answers: nat -> Answer, first: nat, n: nat, e: Refusal)
    requires n < ACK_POLL_ATTEMPTS && Polling(app, commands, identity, guard, answers, first, n)
    requires guard.Some? ==> guard.value.prepared.Some? && guard.value.status.Some?
    requires var last := answers(first + n);
      || Guarded(last, app, guard) == Failure(e)
      || (Guarded(last, app, guard).Success? && last.envelope.IdentityOf() != Some(identity) && e == SessionChanged)
    ensures Polled(app, commands, identity, guard, answers, first, n + 1, Failure(e))
  {
    hide AllThere, RightIn, SameTarget, OtherSession, OtherProcess, ResultsAt, Connected;
    assert !SessionTo(app, identity, guard, answers, first, n + 1) by {
      assert SessionTo(app, identity, guard, answers, first, n + 1) ==> AllowedBy(guard, answers, first + n, app);
    }
  }

  lemma PollsAnswered(app: int, commands: seq<Command>, identity: Identity, guard: Option<Envelope>,
                      answers: nat -> Answer, first: nat, n: nat, outcome: Result<seq<Acknowledgement>, Refusal>)
    requires 1 <= n <= ACK_POLL_ATTEMPTS && Polling(app, commands, identity, guard, answers, first, n - 1)
    requires SessionTo(app, identity, guard, answers, first, n)
    requires AnsweredAt(commands, answers, first, n)
    requires outcome.Success? <==> RightIn(ResultsAt(answers, first + n - 1), commands)
    requires outcome.Failure? ==> outcome.error == Ambiguous
    ensures Polled(app, commands, identity, guard, answers, first, n, outcome)
  {
    hide AllThere, RightIn, SameTarget, OtherSession, OtherProcess, ResultsAt, Connected;
    assert StatusFrom(answers, first + n - 1);
  }

  lemma PollsTimeOut(app: int, commands: seq<Command>, identity: Identity, guard: Option<Envelope>,
                     answers: nat -> Answer, first: nat)
    requires Polling(app, commands, identity, guard, answers, first, ACK_POLL_ATTEMPTS)
    ensures Polled(app, commands, identity, guard, answers, first, ACK_POLL_ATTEMPTS, Failure(TimedOut))
  {
    hide AllThere, RightIn, SameTarget, OtherSession, OtherProcess, ResultsAt, Connected;
    assert StatusFrom(answers, first + ACK_POLL_ATTEMPTS - 1);
  }

  lemma PollsGoOn(app: int, commands: seq<Command>, identity: Identity, guard: Option<Envelope>,
                  answers: nat -> Answer, first: nat, n: nat)
    requires Polling(app, commands, identity, guard, answers, first, n)
    requires StatusFrom(answers, first + n) && answers(first + n).envelope.IdentityOf() == Some(identity)
    requires AllowedBy(guard, answers, first + n, app)
    ensures SessionTo(app, identity, guard, answers, first, n + 1)
    ensures AnsweredAt(commands, answers, first, n + 1) <==> AllThere(ResultsAt(answers, first + n), commands)
    ensures !AnsweredAt(commands, answers, first, n + 1)
            ==> Polling(app, commands, identity, guard, answers, first, n + 1)
  {
    hide AllThere, AllowedBy, ResultsAt;
  }

  /** Polls until one sample has every query's result, two calls having been made already. */
  method PollQueries(app: int, records: seq<int>, start: int, identity: Identity, guard: Option<Envelope>,
                     answers: nat -> Answer, at: nat)
    returns (outcome: Result<seq<Acknowledgement>, Refusal>, polls: seq<Call>)
    requires guard.Some? ==> guard.value.prepared.Some? && guard.value.status.Some?
    requires AllowedBy(guard, answers, at, app)
    ensures |polls| <= ACK_POLL_ATTEMPTS && Polls(app, polls, 0)
    ensures outcome.Success? ==>
              && 1 <= |polls| && QueryPolled(app, identity, guard, answers, at, 2 + |polls|)
              && |outcome.value| == |records| && StatusFrom(answers, at + 2 + |polls| - 1)
              && ReadFor(outcome.value, answers(at + 2 + |polls| - 1).envelope.Results(), records, start, |records|)
    ensures Polled(app, Queries(records, start), identity, guard, answers, at + 2, |polls|, outcome)
  {
    hide ReadFor, Complete, Connected, SameTarget, Polls, AllThere, RightIn, Polled, AllowedBy, RightFor;
    OneStatus(app);
    ghost var commands := Queries(records, start);
    polls := [];
    for attempt := 0 to ACK_POLL_ATTEMPTS
      invariant |polls| == attempt && Polls(app, polls, 0)
      invariant QueryPolled(app, identity, guard, answers, at, 2 + attempt)
      invariant Polling(app, commands, identity, guard, answers, at + 2, attempt)
    {
      var sample := Guarded(answers(at + 2 + |polls|), app, guard);
      PollsPush(app, polls);
      polls := polls + [GetStatus(app)];
      if sample.Failure? {
        PollsFail(app, commands, identity, guard, answers, at + 2, attempt, sample.error);
        return Failure(sample.error), polls;
      }
      if sample.value.IdentityOf() != Some(identity) {
        PollsFail(app, commands, identity, guard, answers, at + 2, attempt, SessionChanged);
        return Failure(SessionChanged), polls;
      }
      GuardedIsAllowed(answers, at + 2 + attempt, app, guard);
      PollsGoOn(app, commands, identity, guard, answers, at + 2, attempt);
      ThereExactly(sample.value.Results(), records, start);
      if Complete(sample.value.Results(), records, start) {
        var results, right := Pick(sample.value.Results(), records, start);
        outcome := if right then Success(results) else Failure(Ambiguous);
        PollsAnswered(app, commands, identity, guard, answers, at + 2, |polls|, outcome);
        return outcome, polls;
      }
    }
    PollsTimeOut(app, commands, identity, guard, answers, at + 2);
    return Failure(TimedOut), polls;
  }

  lemma GuardedIsAllowed(answers: nat -> Answer, i: nat, app: int, guard: Option<Envelope>)
    requires guard.Some? ==> guard.value.prepared.Some? && guard.value.status.Some?
    requires Guarded(answers(i), app, guard).Success?
    ensures StatusFrom(answers, i) && AllowedBy(guard, answers, i, app)
    ensures answers(i).envelope == Guarded(answers(i), app, guard).value
  {
  }

  /** The calls of one batch: one status, the batch, and the polls. */
  function BatchCalls(app: int, commands: seq<Command>, polls: seq<Call>): (calls: seq<Call>)
    requires Polls(app, polls, 0)
    ensures |calls| == 2 + |polls| && calls[0] == GetStatus(app) && calls[1] == Write(app, commands)
    ensures Polls(app, calls, 2)
    ensures Submitted(calls) == [commands]
  {
    SubmittedPush([], GetStatus(app));
    assert [] + [GetStatus(app)] == [GetStatus(app)];
    SubmittedPush([GetStatus(app)], Write(app, commands));
    SubmittedJoin([GetStatus(app)] + [Write(app, commands)], polls);
    PollsSubmitNothing(app, polls);
    [GetStatus(app)] + [Write(app, commands)] + polls
  }

  lemma OneStatus(app: int)
    ensures Submitted([GetStatus(app)]) == [] && Submitted([]) == []
    ensures Polls(app, [], 0)
  {
    PollsSubmitNothing(app, [GetStatus(app)]);
  }

  lemma QueriesAreOnly(records: seq<int>, start: int)
    ensures OnlyQueries([Queries(records, start)], records) && OnlyQueries([], records)
  {
  }

  /** What a query has to meet before it polls: its own first status and a good receipt for the batch. */
  ghost predicate QueryOpened(app: int, records: seq<int>, guard: Option<Envelope>, answers: nat -> Answer, at: nat) {
    && 1 <= |records| <= MAX_RECORDS && DistinctRecords(records)
    && StatusFrom(answers, at) && AllowedBy(guard, answers, at, app) && Connected(answers(at).envelope, app)
    && answers(at).envelope.nextGeneration.Some?
    && answers(at + 1) == Receipt(true, |records|, answers(at).envelope.nextGeneration.value + |records|)
  }

  /** How many polls after its first two calls a query may be read back at. */
  ghost predicate QueryReads(app: int, records: seq<int>, guard: Option<Envelope>, answers: nat -> Answer, at: nat,
                             n: nat) {
    && QueryOpened(app, records, guard, answers, at)
    && ReadAt(app, Queries(records, answers(at).envelope.nextGeneration.value),
              answers(at).envelope.prepared.value.identity, guard, answers, at + 2, n)
  }

  ghost predicate QueryAnswers(app: int, records: seq<int>, guard: Option<Envelope>, answers: nat -> Answer, at: nat) {
    exists n: nat :: QueryReads(app, records, guard, answers, at, n)
  }

  /** A query that polled at all ended as its polls did. */
  ghost predicate QueryEnded(app: int, records: seq<int>, guard: Option<Envelope>, answers: nat -> Answer, at: nat,
                             n: nat, outcome: Result<Readback, Refusal>) {
    && QueryOpened(app, records, guard, answers, at)
    && Polled(app, Queries(records, answers(at).envelope.nextGeneration.value),
              answers(at).envelope.prepared.value.identity, guard, answers, at + 2, n,
              if outcome.Success? then Success(outcome.value.results) else Failure(outcome.error))
  }

  lemma ReadsExactly(app: int, records: seq<int>, guard: Option<Envelope>, answers: nat -> Answer, at: nat, n: nat,
                     outcome: Result<Readback, Refusal>)
    requires QueryEnded(app, records, guard, answers, at, n, outcome)
    ensures outcome.Success? <==> QueryAnswers(app, records, guard, answers, at)
  {
    hide Polled, ReadAt, AllowedBy, DistinctRecords;
    PolledExactly(app, Queries(records, answers(at).envelope.nextGeneration.value),
                  answers(at).envelope.prepared.value.identity, guard, answers, at + 2, n,
                  if outcome.Success? then Success(outcome.value.results) else Failure(outcome.error));
    if outcome.Success? {
      assert QueryReads(app, records, guard, answers, at, n);
    }
  }

  method Query(app: int, records: seq<int>, guard: Option<Envelope>, answers: nat -> Answer, at: nat)
    returns (outcome: Result<Readback, Refusal>, calls: seq<Call>)
    requires guard.Some? ==> guard.value.prepared.Some? && guard.value.status.Some?
    ensures outcome.Success? <==> QueryAnswers(app, records, guard, answers, at)
    ensures |calls| > 2 ==> QueryEnded(app, records, guard, answers, at, |calls| - 2, outcome)
    ensures |calls| <= 2 ==> outcome.Failure? && outcome.error !in {TimedOut, Ambiguous}
    ensures outcome.Success? ==> QueryMet(app, records, guard, answers, at, calls, outcome.value)
    ensures outcome.Success? ==> 1 <= |records| <= MAX_RECORDS && DistinctRecords(records)
    ensures OnlyQueries(Submitted(calls), records) && |calls| <= 2 + ACK_POLL_ATTEMPTS
  {
    hide ReadFor, SameTarget, QueryPolled, OnlyQueries, Polled, ReadAt, AllowedBy, QueryReads, DistinctRecords,
         Connected, QueryMet, QueryAnswers, QueryEnded, Submitted, Polls;
    QueriesAreOnly(records, 0);
    OneStatus(app);
    NotOpened(app, records, guard, answers, at);
    if |records| == 0 || |records| > MAX_RECORDS || !DistinctRecords(records) { return Failure(BadRequest), []; }
    calls := [GetStatus(app)];
    GuardedExactly(answers, at, app, guard);
    var first := Guarded(answers(at), app, guard);
    if first.Failure? { return Failure(first.error), calls; }
    var before := first.value;
    if !Connected(before, app) { return Failure(NotConnected), calls; }
    if before.nextGeneration.None? { return Failure(NoGeneration), calls; }
    ConnectedIsPrepared(before, app);
    var start, identity := before.nextGeneration.value, before.prepared.value.identity;
    var commands := Queries(records, start);
    QueriesAreOnly(records, start);
    calls := calls + [Write(app, commands)];
    assert calls + [] == BatchCalls(app, commands, []) && calls + [] == calls;
    if answers(at + 1) != Receipt(true, |records|, start + |records|) { return Failure(BadReceipt), calls; }
    var results, polls := PollQueries(app, records, start, identity, guard, answers, at);
    calls := calls + polls;
    assert calls == BatchCalls(app, commands, polls);
    outcome := if results.Failure? then Failure(results.error) else Success(Readback(identity, results.value));
    QueryEnds(app, records, guard, answers, at, |polls|, results, outcome);
    if results.Success? { QueryIsMet(app, records, guard, answers, at, polls, results.value); }
    return outcome, calls;
  }

  lemma QueryIsMet(app: int, records: seq<int>, guard: Option<Envelope>, answers: nat -> Answer, at: nat,
                   polls: seq<Call>, results: seq<Acknowledgement>)
    requires QueryOpened(app, records, guard, answers, at)
    requires 1 <= |polls| <= ACK_POLL_ATTEMPTS && Polls(app, polls, 0)
    requires QueryPolled(app, answers(at).envelope.prepared.value.identity, guard, answers, at, 2 + |polls|)
    requires var start := answers(at).envelope.nextGeneration.value;
      && |results| == |records| && StatusFrom(answers, at + 2 + |polls| - 1)
      && ReadFor(results, answers(at + 2 + |polls| - 1).envelope.Results(), records, start, |records|)
    ensures QueryMet(app, records, guard, answers, at,
                     BatchCalls(app, Queries(records, answers(at).envelope.nextGeneration.value), polls),
                     Readback(answers(at).envelope.prepared.value.identity, results))
  {
    hide ReadFor, QueryPolled, AllowedBy, DistinctRecords, Polls;
  }

  lemma NotOpened(app: int, records: seq<int>, guard: Option<Envelope>, answers: nat -> Answer, at: nat)
    ensures QueryAnswers(app, records, guard, answers, at) ==> QueryOpened(app, records, guard, answers, at)
  {
  }

  lemma GuardedExactly(answers: nat -> Answer, i: nat, app: int, guard: Option<Envelope>)
    requires guard.Some? ==> guard.value.prepared.Some? && guard.value.status.Some?
    ensures Guarded(answers(i), app, guard).Success? <==> StatusFrom(answers, i) && AllowedBy(guard, answers, i, app)
    ensures Guarded(answers(i), app, guard).Success? ==> answers(i) == Current(Guarded(answers(i), app, guard).value)
  {
  }

  lemma ConnectedIsPrepared(e: Envelope, app: int)
    requires Connected(e, app)
    ensures e.prepared.Some?
  {
  }

  lemma PolledSome(app: int, commands: seq<Command>, identity: Identity, guard: Option<Envelope>,
                   answers: nat -> Answer, first: nat, n: nat, outcome: Result<seq<Acknowledgement>, Refusal>)
    requires Polled(app, commands, identity, guard, answers, first, n, outcome)
    ensures 1 <= n
  {
  }

  lemma QueryEnds(app: int, records: seq<int>, guard: Option<Envelope>, answers: nat -> Answer, at: nat, n: nat,
                  results: Result<seq<Acknowledgement>, Refusal>, outcome: Result<Readback, Refusal>)
    requires QueryOpened(app, records, guard, answers, at)
    requires outcome.Success? ==> results == Success(outcome.value.results)
    requires outcome.Failure? ==> results == Failure(outcome.error)
    requires Polled(app, Queries(records, answers(at).envelope.nextGeneration.value),
                    answers(at).envelope.prepared.value.identity, guard, answers, at + 2, n, results)
    ensures n > 0 && QueryEnded(app, records, guard, answers, at, n, outcome)
    ensures outcome.Success? <==> QueryAnswers(app, records, guard, answers, at)
  {
    PolledSome(app, Queries(records, answers(at).envelope.nextGeneration.value),
               answers(at).envelope.prepared.value.identity, guard, answers, at + 2, n, results);
    hide Polled, QueryReads;
    ReadsExactly(app, records, guard, answers, at, n, outcome);
  }

  // ---------- The mutation ----------

  /** Acknowledgements, one for each command in order: its generation, its record, from some sample. */
  ghost predicate Acknowledged(acks: seq<Acknowledgement>, commands: seq<Command>, answers: nat -> Answer, at: nat,
                               n: nat) {
    && |acks| == |commands|
    && forall i :: 0 <= i < |acks| ==>
         && acks[i].generation == Some(commands[i].generation) && acks[i].record == Some(commands[i].record)
         && SeenIn(acks[i], answers, at, n)
  }

  ghost predicate SeenIn(a: Acknowledgement, answers: nat -> Answer, at: nat, n: nat) {
    exists i :: at <= i < at + n && StatusFrom(answers, i)
                && Reported(answers(i).envelope.Results(), |answers(i).envelope.Results()|, a)
  }

  ghost predicate AllSame(app: int, before: Envelope, answers: nat -> Answer, at: nat, n: nat) {
    forall i :: at <= i < at + n ==> SameAt(answers, i, app, before, false)
  }

  ghost predicate AllSeen(known: map<int, Acknowledgement>, answers: nat -> Answer, at: nat, n: nat) {
    forall g :: g in known ==> SeenIn(known[g], answers, at, n)
  }

  lemma SeenGrows(was: map<int, Acknowledgement>, known: map<int, Acknowledgement>, answers: nat -> Answer,
                  at: nat, n: nat)
    requires AllSeen(was, answers, at, n) && StatusFrom(answers, at + n)
    requires var results := answers(at + n).envelope.Results(); GainedFrom(was, known, results, |results|)
    ensures AllSeen(known, answers, at, n + 1)
  {
    var results := answers(at + n).envelope.Results();
    forall g | g in known
      ensures SeenIn(known[g], answers, at, n + 1)
    {
      if g in was && known[g] == was[g] {
        var i :| at <= i < at + n && StatusFrom(answers, i)
                 && Reported(answers(i).envelope.Results(), |answers(i).envelope.Results()|, was[g]);
      } else {
        assert Reported(results, |results|, known[g]);
      }
    }
  }

  function Span(start: int, n: nat): (r: set<int>)
    ensures |r| == n && forall g :: g in r <==> start <= g < start + n
  {
    if n == 0 then {} else Span(start, n - 1) + {start + n - 1}
  }

  lemma SameWhenAsMany(a: set<int>, c: set<int>)
    requires a <= c && |a| == |c|
    ensures a == c
  {
    assert c == a + (c - a);
  }

  /** Every command has an acknowledgement when as many are known as there are commands. */
  lemma AllKnown(known: map<int, Acknowledgement>, commands: seq<Command>, start: int)
    requires Known(known, commands, start) && |known| == |commands|
    ensures forall g :: start <= g < start + |commands| ==> g in known
  {
    assert known.Keys <= Span(start, |commands|);
    SameWhenAsMany(known.Keys, Span(start, |commands|));
  }

  /** The acknowledgements in the order of the commands. */
  function InOrder(known: map<int, Acknowledgement>, start: int, n: nat): (r: seq<Acknowledgement>)
    requires forall g :: start <= g < start + n ==> g in known
    ensures |r| == n && forall i :: 0 <= i < n ==> r[i] == known[start + i]
  {
    seq(n, i requires 0 <= i < n => known[start + i])
  }

  lemma OrderedAreAcknowledged(known: map<int, Acknowledgement>, commands: seq<Command>, start: int,
                               answers: nat -> Answer, at: nat, n: nat)
    requires Known(known, commands, start) && Numbered(commands, start) && AllSeen(known, answers, at, n)
    requires forall g :: start <= g < start + |commands| ==> g in known
    ensures Acknowledged(InOrder(known, start, |commands|), commands, answers, at, n)
  {
    hide SeenIn;
    var acks := InOrder(known, start, |commands|);
    forall i | 0 <= i < |acks|
      ensures acks[i].generation == Some(commands[i].generation) && acks[i].record == Some(commands[i].record)
      ensures SeenIn(acks[i], answers, at, n)
    {
      assert acks[i] == known[start + i];
    }
  }

  // ---------- When the wait ends ----------

  /** Some of the first `n` answers shows a result of the generation. */
  ghost predicate Said(answers: nat -> Answer, at: nat, n: nat, g: int) {
    exists i :: at <= i < at + n && HasGeneration(ResultsAt(answers, i), g)
  }

  ghost predicate AllSaid(commands: seq<Command>, answers: nat -> Answer, at: nat, n: nat) {
    forall k :: 0 <= k < |commands| ==> Said(answers, at, n, commands[k].generation)
  }

  /** A sample with at most one result for each command, for that command's record. */
  predicate Clear(results: seq<Acknowledgement>, commands: seq<Command>, start: int) {
    && (forall k :: 0 <= k < |results| && Answers(results[k], commands, start) ==>
          results[k].record == Some(commands[results[k].generation.value - start].record))
    && (forall k, l :: 0 <= k < l < |results| && Answers(results[k], commands, start) ==>
          results[k].generation != results[l].generation)
  }

  /** What the two samples both say of a command is the same. */
  predicate Agree(a: seq<Acknowledgement>, b: seq<Acknowledgement>, commands: seq<Command>, start: int) {
    forall x, y :: x in a && y in b && Answers(x, commands, start) && x.generation == y.generation ==> x == y
  }

  /** The first `n` answers are statuses of the target that say nothing ambiguous, together or alone. */
  ghost predicate CleanTo(app: int, commands: seq<Command>, start: int, before: Envelope, answers: nat -> Answer,
                          at: nat, n: nat) {
    && AllSame(app, before, answers, at, n)
    && (forall i :: at <= i < at + n ==> Clear(ResultsAt(answers, i), commands, start))
    && (forall i, j :: at <= i < j < at + n ==> Agree(ResultsAt(answers, i), ResultsAt(answers, j), commands, start))
  }

  /** By the `n`-th answer every command has been acknowledged, and that answer is of a connected bridge. */
  ghost predicate DoneAt(commands: seq<Command>, answers: nat -> Answer, at: nat, n: nat) {
    && AllSaid(commands, answers, at, n)
    && n > 0 && answers(at + n - 1).Current? && answers(at + n - 1).envelope.connected
  }

  /** How a wait that made `n` polls ended. */
  ghost predicate Waited(app: int, commands: seq<Command>, start: int, before: Envelope, answers: nat -> Answer,
                         at: nat, n: nat, outcome: Result<seq<Acknowledgement>, Refusal>) {
    && 1 <= n <= ACK_POLL_ATTEMPTS
    && var last := answers(at + n - 1);
    && var clean, done := CleanTo(app, commands, start, before, answers, at, n), DoneAt(commands, answers, at, n);
    && (forall m :: 1 <= m < n ==>
          CleanTo(app, commands, start, before, answers, at, m) && !DoneAt(commands, answers, at, m))
    && (outcome.Success? <==> clean && done && Connected(last.envelope, app))
    && (outcome.Failure? ==>
          outcome.error in {Failed, SessionChanged, TargetChanged, NotConnected, Ambiguous, TimedOut})
    && (outcome == Failure(TimedOut) <==> clean && !done && n == ACK_POLL_ATTEMPTS)
    && (clean && !done ==> n == ACK_POLL_ATTEMPTS)
    && (outcome == Failure(Failed) <==> !last.Current?)
    && (outcome == Failure(Ambiguous) <==> SameAt(answers, at + n - 1, app, before, false) && !clean)
    && (outcome == Failure(NotConnected) <==> clean && done && !Connected(last.envelope, app))
    && (outcome == Failure(SessionChanged) ==> before.status.Some? && OtherSession(last.envelope, app, before))
    && (outcome == Failure(TargetChanged) ==> before.status.Some? && OtherProcess(last.envelope, before))
  }

  /** The wait may report after `n` polls: clean so far, done now and not before, and connected as a whole. */
  ghost predicate ReportsAt(app: int, commands: seq<Command>, start: int, before: Envelope, answers: nat -> Answer,
                            at: nat, n: nat) {
    && 1 <= n <= ACK_POLL_ATTEMPTS
    && CleanTo(app, commands, start, before, answers, at, n) && DoneAt(commands, answers, at, n)
    && Connected(answers(at + n - 1).envelope, app)
    && forall m :: 1 <= m < n ==> !DoneAt(commands, answers, at, m)
  }

  lemma CleanShorter(app: int, commands: seq<Command>, start: int, before: Envelope, answers: nat -> Answer, at: nat,
                     n: nat, m: nat)
    requires CleanTo(app, commands, start, before, answers, at, n) && m <= n
    ensures CleanTo(app, commands, start, before, answers, at, m)
  {
    hide Clear, Agree, SameTarget;
  }

  /** A wait succeeds exactly when there is a number of polls after which it may report. */
  lemma WaitedExactly(app: int, commands: seq<Command>, start: int, before: Envelope, answers: nat -> Answer, at: nat,
                      n: nat, outcome: Result<seq<Acknowledgement>, Refusal>)
    requires Waited(app, commands, start, before, answers, at, n, outcome)
    ensures outcome.Success? <==> exists m: nat :: ReportsAt(app, commands, start, before, answers, at, m)
    ensures outcome.Success? ==> ReportsAt(app, commands, start, before, answers, at, n)
  {
    hide CleanTo, DoneAt, Connected, SameTarget, OtherSession, OtherProcess;
    assert outcome.Success? ==> ReportsAt(app, commands, start, before, answers, at, n);
    forall m: nat | ReportsAt(app, commands, start, before, answers, at, m)
      ensures outcome.Success?
    {
      assert m >= n;
      CleanShorter(app, commands, start, before, answers, at, m, n);
    }
  }

  /** What is known is what the first `n` answers said of the commands. */
  ghost predicate Collected(known: map<int, Acknowledgement>, commands: seq<Command>, start: int,
                            answers: nat -> Answer, at: nat, n: nat) {
    && Known(known, commands, start) && AllSeen(known, answers, at, n)
    && forall i :: at <= i < at + n ==>
         AllTaken(ResultsAt(answers, i), |ResultsAt(answers, i)|, commands, start, known)
  }

  lemma TakenStays(results: seq<Acknowledgement>, commands: seq<Command>, start: int, was: map<int, Acknowledgement>,
                   now: map<int, Acknowledgement>)
    requires AllTaken(results, |results|, commands, start, was)
    requires forall g :: g in was ==> g in now && now[g] == was[g]
    ensures AllTaken(results, |results|, commands, start, now)
  {
  }

  lemma CollectedNext(was: map<int, Acknowledgement>, known: map<int, Acknowledgement>, commands: seq<Command>,
                      start: int, answers: nat -> Answer, at: nat, n: nat)
    requires Collected(was, commands, start, answers, at, n) && StatusFrom(answers, at + n)
    requires var results := ResultsAt(answers, at + n);
      && Known(known, commands, start) && GainedFrom(was, known, results, |results|)
      && AllTaken(results, |results|, commands, start, known)
    ensures Collected(known, commands, start, answers, at, n + 1)
  {
    hide AllTaken, Known;
    SeenGrows(was, known, answers, at, n);
    forall i | at <= i < at + n + 1
      ensures AllTaken(ResultsAt(answers, i), |ResultsAt(answers, i)|, commands, start, known)
    {
      if i < at + n { TakenStays(ResultsAt(answers, i), commands, start, was, known); }
    }
  }

  /** A sample is refused against what is known exactly when it is not clear or contradicts what is known. */
  lemma ClearExactly(results: seq<Acknowledgement>, commands: seq<Command>, start: int,
                     known: map<int, Acknowledgement>)
    ensures Unambiguous(results, commands, start, known)
            <==> Clear(results, commands, start)
                 && forall k :: 0 <= k < |results| && Answers(results[k], commands, start)
                                ==> NoContradiction(results[k], known)
  {
    hide Answers, NoContradiction;
    if Unambiguous(results, commands, start, known) {
      forall k | 0 <= k < |results| && Answers(results[k], commands, start)
        ensures NoContradiction(results[k], known)
        ensures RightRecord(results[k], commands, start)
      {
        assert AcceptableAt(results, k, commands, start, known);
      }
      forall k, l | 0 <= k < l < |results| && Answers(results[k], commands, start)
        ensures results[k].generation != results[l].generation
      {
        ApartAt(results, k, l, commands, start, known);
      }
    }
  }

  lemma ApartAt(results: seq<Acknowledgement>, k: nat, l: nat, commands: seq<Command>, start: int,
                known: map<int, Acknowledgement>)
    requires k < l < |results| && Answers(results[k], commands, start)
    requires AcceptableAt(results, l, commands, start, known)
    ensures results[k].generation != results[l].generation
  {
  }

  /** What is known contradicts a sample exactly when one of the samples before does. */
  lemma AgreeExactly(known: map<int, Acknowledgement>, commands: seq<Command>, start: int, answers: nat -> Answer,
                     at: nat, n: nat, results: seq<Acknowledgement>)
    requires Collected(known, commands, start, answers, at, n)
    ensures (forall k :: 0 <= k < |results| && Answers(results[k], commands, start)
                         ==> NoContradiction(results[k], known))
            <==> forall i :: at <= i < at + n ==> Agree(ResultsAt(answers, i), results, commands, start)
  {
    if forall i :: at <= i < at + n ==> Agree(ResultsAt(answers, i), results, commands, start) {
      forall k | 0 <= k < |results| && Answers(results[k], commands, start)
        ensures NoContradiction(results[k], known)
      {
        AgreedIsKnown(known, commands, start, answers, at, n, results, results[k]);
      }
    }
    if forall k :: 0 <= k < |results| && Answers(results[k], commands, start) ==> NoContradiction(results[k], known) {
      forall i | at <= i < at + n
        ensures Agree(ResultsAt(answers, i), results, commands, start)
      {
        KnownIsAgreed(known, commands, start, ResultsAt(answers, i), results);
      }
    }
  }

  lemma AgreedIsKnown(known: map<int, Acknowledgement>, commands: seq<Command>, start: int, answers: nat -> Answer,
                      at: nat, n: nat, results: seq<Acknowledgement>, a: Acknowledgement)
    requires Collected(known, commands, start, answers, at, n)
    requires forall i :: at <= i < at + n ==> Agree(ResultsAt(answers, i), results, commands, start)
    requires a in results && Answers(a, commands, start)
    ensures NoContradiction(a, known)
  {
    var g := a.generation.value;
    if g in known {
      assert SeenIn(known[g], answers, at, n);
      var i :| at <= i < at + n && StatusFrom(answers, i)
               && Reported(answers(i).envelope.Results(), |answers(i).envelope.Results()|, known[g]);
      assert known[g] in ResultsAt(answers, i);
      assert Agree(ResultsAt(answers, i), results, commands, start);
    }
  }

  lemma KnownIsAgreed(known: map<int, Acknowledgement>, commands: seq<Command>, start: int,
                      taken: seq<Acknowledgement>, results: seq<Acknowledgement>)
    requires AllTaken(taken, |taken|, commands, start, known)
    requires forall k :: 0 <= k < |results| && Answers(results[k], commands, start)
                         ==> NoContradiction(results[k], known)
    ensures Agree(taken, results, commands, start)
  {
    forall x, y | x in taken && y in results && Answers(x, commands, start) && x.generation == y.generation
      ensures x == y
    {
      var i :| 0 <= i < |taken| && taken[i] == x;
      var k :| 0 <= k < |results| && results[k] == y;
      assert NoContradiction(results[k], known);
    }
  }

  /** The next answer keeps the wait clean exactly when it is of the target and its sample is taken in. */
  lemma CleanNext(app: int, commands: seq<Command>, start: int, before: Envelope, answers: nat -> Answer, at: nat,
                  n: nat, known: map<int, Acknowledgement>)
    requires CleanTo(app, commands, start, before, answers, at, n)
    requires Collected(known, commands, start, answers, at, n)
    ensures CleanTo(app, commands, start, before, answers, at, n + 1)
            <==> SameAt(answers, at + n, app, before, false)
                 && Unambiguous(ResultsAt(answers, at + n), commands, start, known)
  {
    hide SameTarget, Clear, Agree, Unambiguous, Collected;
    ClearExactly(ResultsAt(answers, at + n), commands, start, known);
    AgreeExactly(known, commands, start, answers, at, n, ResultsAt(answers, at + n));
  }

  /** As many acknowledgements are known as there are commands exactly when each has been said. */
  lemma SaidExactly(known: map<int, Acknowledgement>, commands: seq<Command>, start: int, answers: nat -> Answer,
                    at: nat, n: nat)
    requires Collected(known, commands, start, answers, at, n) && Numbered(commands, start)
    ensures |known| == |commands| <==> AllSaid(commands, answers, at, n)
  {
    if |known| == |commands| {
      AllKnown(known, commands, start);
      forall k | 0 <= k < |commands|
        ensures Said(answers, at, n, commands[k].generation)
      {
        KnownIsSaid(known, commands, start, answers, at, n, start + k);
      }
    }
    if AllSaid(commands, answers, at, n) {
      forall g | start <= g < start + |commands|
        ensures g in known
      {
        assert Said(answers, at, n, commands[g - start].generation);
        SaidIsKnown(known, commands, start, answers, at, n, g);
      }
      assert known.Keys == Span(start, |commands|);
    }
  }

  lemma KnownIsSaid(known: map<int, Acknowledgement>, commands: seq<Command>, start: int, answers: nat -> Answer,
                    at: nat, n: nat, g: int)
    requires Known(known, commands, start) && AllSeen(known, answers, at, n) && g in known
    ensures Said(answers, at, n, g)
  {
    assert SeenIn(known[g], answers, at, n);
    var i :| at <= i < at + n && StatusFrom(answers, i)
             && Reported(answers(i).envelope.Results(), |answers(i).envelope.Results()|, known[g]);
    assert HasGeneration(ResultsAt(answers, i), g);
  }

  lemma SaidIsKnown(known: map<int, Acknowledgement>, commands: seq<Command>, start: int, answers: nat -> Answer,
                    at: nat, n: nat, g: int)
    requires Collected(known, commands, start, answers, at, n)
    requires Said(answers, at, n, g) && start <= g < start + |commands|
    ensures g in known
  {
    var i :| at <= i < at + n && HasGeneration(ResultsAt(answers, i), g);
    var k :| 0 <= k < |ResultsAt(answers, i)| && ResultsAt(answers, i)[k].generation == Some(g);
    assert Answers(ResultsAt(answers, i)[k], commands, start);
    assert AllTaken(ResultsAt(answers, i), |ResultsAt(answers, i)|, commands, start, known);
  }

  /** Polls until every command is acknowledged in the session and process they were sent to. */
  method AwaitAcknowledgements(app: int, commands: seq<Command>, start: int, before: Envelope, answers: nat -> Answer,
                               at: nat)
    returns (outcome: Result<seq<Acknowledgement>, Refusal>, polls: seq<Call>)
    requires before.prepared.Some? && before.status.Some? && Numbered(commands, start)
    ensures |polls| <= ACK_POLL_ATTEMPTS && Polls(app, polls, 0)
    ensures outcome.Success? ==>
              && 1 <= |polls| && AllSame(app, before, answers, at, |polls|)
              && SameAt(answers, at + |polls| - 1, app, before, true)
              && Acknowledged(outcome.value, commands, answers, at, |polls|)
    ensures Waited(app, commands, start, before, answers, at, |polls|, outcome)
    ensures outcome.Success? <==> exists n: nat :: ReportsAt(app, commands, start, before, answers, at, n)
  {
    hide Known, GainedFrom, AllSeen, Acknowledged, Unambiguous, AllTaken, Numbered, SameTarget, Polls, CleanTo, DoneAt,
         Collected, Waited, ReportsAt;
    OneStatus(app);
    var known: map<int, Acknowledgement> := map[];
    NothingKnown(app, commands, start, before, answers, at);
    polls := [];
    for attempt := 0 to ACK_POLL_ATTEMPTS
      invariant |polls| == attempt && Polls(app, polls, 0)
      invariant Collected(known, commands, start, answers, at, attempt)
      invariant Waiting(app, commands, start, before, answers, at, attempt)
    {
      var answer := answers(at + |polls|);
      PollsPush(app, polls);
      polls := polls + [GetStatus(app)];
      NextAnswer(app, commands, start, before, answers, at, attempt, known);
      if !answer.Current? {
        WaitFails(app, commands, start, before, answers, at, attempt, known, Failed);
        return Failure(Failed), polls;
      }
      var envelope := answer.envelope;
      var same := RequireSameTarget(envelope, app, before, false);
      if same.Failure? {
        WaitFails(app, commands, start, before, answers, at, attempt, known, same.error);
        return Failure(same.error), polls;
      }
      var now, clean := Absorb(envelope.Results(), commands, start, known);
      if !clean {
        WaitFails(app, commands, start, before, answers, at, attempt, known, Ambiguous);
        return Failure(Ambiguous), polls;
      }
      CollectedNext(known, now, commands, start, answers, at, attempt);
      ghost var was := known;
      known := now;
      DoneExactly(known, commands, start, answers, at, |polls|);
      if |known| == |commands| && envelope.connected {
        same := RequireSameTarget(envelope, app, before, true);
        if same.Failure? {
          WaitFails(app, commands, start, before, answers, at, attempt, was, same.error);
          return Failure(same.error), polls;
        }
        AllInOrder(known, commands, start, answers, at, |polls|);
        outcome := Success(InOrder(known, start, |commands|));
        WaitReports(app, commands, start, before, answers, at, |polls|, outcome.value);
        return outcome, polls;
      }
      WaitGoesOn(app, commands, start, before, answers, at, |polls|);
    }
    WaitTimesOut(app, commands, start, before, answers, at);
    return Failure(TimedOut), polls;
  }

  /** Nothing has ended the wait in its first `n` polls. */
  ghost predicate Waiting(app: int, commands: seq<Command>, start: int, before: Envelope, answers: nat -> Answer,
                          at: nat, n: nat) {
    && CleanTo(app, commands, start, before, answers, at, n)
    && forall m :: 1 <= m <= n ==>
         CleanTo(app, commands, start, before, answers, at, m) && !DoneAt(commands, answers, at, m)
  }

  lemma NothingKnown(app: int, commands: seq<Command>, start: int, before: Envelope, answers: nat -> Answer, at: nat)
    ensures Collected(map[], commands, start, answers, at, 0)
    ensures Waiting(app, commands, start, before, answers, at, 0)
  {
  }

  lemma NextAnswer(app: int, commands: seq<Command>, start: int, before: Envelope, answers: nat -> Answer, at: nat,
                   n: nat, known: map<int, Acknowledgement>)
    requires Waiting(app, commands, start, before, answers, at, n)
    requires Collected(known, commands, start, answers, at, n)
    ensures Known(known, commands, start)
    ensures CleanTo(app, commands, start, before, answers, at, n + 1)
            <==> SameAt(answers, at + n, app, before, false)
                 && Unambiguous(ResultsAt(answers, at + n), commands, start, known)
  {
    hide CleanTo, SameAt, Unambiguous, Known, AllSeen, AllTaken;
    CleanNext(app, commands, start, before, answers, at, n, known);
  }

  lemma DoneExactly(known: map<int, Acknowledgement>, commands: seq<Command>, start: int, answers: nat -> Answer,
                    at: nat, n: nat)
    requires Collected(known, commands, start, answers, at, n) && Numbered(commands, start)
    requires n > 0 && answers(at + n - 1).Current?
    ensures |known| == |commands| && answers(at + n - 1).envelope.connected <==> DoneAt(commands, answers, at, n)
  {
    hide Collected, AllSaid, Numbered;
    SaidExactly(known, commands, start, answers, at, n);
  }

  lemma AllInOrder(known: map<int, Acknowledgement>, commands: seq<Command>, start: int, answers: nat -> Answer,
                   at: nat, n: nat)
    requires Collected(known, commands, start, answers, at, n) && Numbered(commands, start)
    requires |known| == |commands|
    ensures forall g :: start <= g < start + |commands| ==> g in known
    ensures Acknowledged(InOrder(known, start, |commands|), commands, answers, at, n)
  {
    hide Known, AllSeen, AllTaken, Numbered, Acknowledged;
    AllKnown(known, commands, start);
    OrderedAreAcknowledged(known, commands, start, answers, at, n);
  }

  lemma WaitGoesOn(app: int, commands: seq<Command>, start: int, before: Envelope, answers: nat -> Answer, at: nat,
                   n: nat)
    requires n > 0 && Waiting(app, commands, start, before, answers, at, n - 1)
    requires CleanTo(app, commands, start, before, answers, at, n) && !DoneAt(commands, answers, at, n)
    ensures Waiting(app, commands, start, before, answers, at, n)
  {
    hide CleanTo, DoneAt;
  }

  lemma WaitTimesOut(app: int, commands: seq<Command>, start: int, before: Envelope, answers: nat -> Answer, at: nat)
    requires Waiting(app, commands, start, before, answers, at, ACK_POLL_ATTEMPTS)
    ensures var r: Result<seq<Acknowledgement>, Refusal> := Failure(TimedOut);
      && Waited(app, commands, start, before, answers, at, ACK_POLL_ATTEMPTS, r)
      && !exists m: nat :: ReportsAt(app, commands, start, before, answers, at, m)
  {
    hide DoneAt, SameTarget, OtherSession, OtherProcess, Connected, Clear, Agree, ReportsAt;
    var r: Result<seq<Acknowledgement>, Refusal> := Failure(TimedOut);
    assert SameAt(answers, at + ACK_POLL_ATTEMPTS - 1, app, before, false);
    WaitedExactly(app, commands, start, before, answers, at, ACK_POLL_ATTEMPTS, r);
  }

  lemma WaitReports(app: int, commands: seq<Command>, start: int, before: Envelope, answers: nat -> Answer, at: nat,
                    n: nat, acks: seq<Acknowledgement>)
    requires 1 <= n <= ACK_POLL_ATTEMPTS && Waiting(app, commands, start, before, answers, at, n - 1)
    requires CleanTo(app, commands, start, before, answers, at, n) && DoneAt(commands, answers, at, n)
    requires SameAt(answers, at + n - 1, app, before, true)
    ensures Waited(app, commands, start, before, answers, at, n, Success(acks))
    ensures ReportsAt(app, commands, start, before, answers, at, n)
    ensures AllSame(app, before, answers, at, n)
  {
    hide DoneAt, SameTarget, OtherSession, OtherProcess, Connected, Clear, Agree;
  }

  /** Each refusal at poll `n` has its own cause there. */
  lemma WaitFails(app: int, commands: seq<Command>, start: int, before: Envelope, answers: nat -> Answer, at: nat,
                  n: nat, known: map<int, Acknowledgement>, e: Refusal)
    requires n < ACK_POLL_ATTEMPTS && Waiting(app, commands, start, before, answers, at, n)
    requires before.prepared.Some? && before.status.Some?
    requires CleanTo(app, commands, start, before, answers, at, n + 1)
             <==> SameAt(answers, at + n, app, before, false)
                  && Unambiguous(ResultsAt(answers, at + n), commands, start, known)
    requires var last := answers(at + n);
      || (!last.Current? && e == Failed)
      || (last.Current? && RequireSameTarget(last.envelope, app, before, false) == Failure(e))
      || (SameAt(answers, at + n, app, before, false)
          && !Unambiguous(ResultsAt(answers, at + n), commands, start, known) && e == Ambiguous)
      || (CleanTo(app, commands, start, before, answers, at, n + 1) && DoneAt(commands, answers, at, n + 1)
          && RequireSameTarget(last.envelope, app, before, true) == Failure(e))
    ensures var r: Result<seq<Acknowledgement>, Refusal> := Failure(e);
      && Waited(app, commands, start, before, answers, at, n + 1, r)
      && !exists m: nat :: ReportsAt(app, commands, start, before, answers, at, m)
  {
    hide DoneAt, Unambiguous, CleanTo, ReportsAt, OtherSession, OtherProcess;
    var last := answers(at + n);
    var r: Result<seq<Acknowledgement>, Refusal> := Failure(e);
    if last.Current? { WhichRefusal(last.envelope, app, before); }
    assert Waited(app, commands, start, before, answers, at, n + 1, r);
    WaitedExactly(app, commands, start, before, answers, at, n + 1, r);
  }

  lemma WhichRefusal(e: Envelope, app: int, before: Envelope)
    requires before.prepared.Some? && before.status.Some?
    ensures RequireSameTarget(e, app, before, false) != Failure(NotConnected)
    ensures SameTarget(e, app, before) && !Connected(e, app)
            ==> RequireSameTarget(e, app, before, true) == Failure(NotConnected)
  {
  }

  // ---------- Control ----------

  datatype Report = Report(
    ok: bool,
    identity: Identity,
    start: int,
    acknowledged: seq<Acknowledgement>,
    readback: Option<Readback>)

  predicate AllOk(results: seq<Acknowledgement>) {
    forall i :: 0 <= i < |results| ==> results[i].ok
  }

  /** Every record set active or inactive reads back as asked. */
  predicate AsAsked(actions: seq<Action>, results: seq<Acknowledgement>) {
    |results| == |actions|
    && forall i :: 0 <= i < |actions| && actions[i].kind == SetActive
                   ==> results[i].active == Some(actions[i].value == "1")
  }

  predicate Attached(e: Envelope) {
    e.status.Some? && e.status.value.attached && e.status.value.process.Some? && e.status.value.process.value > 0
  }

  /** What the preflight status must be before anything is submitted. */
  predicate Ready(e: Envelope, app: int, sha: string) {
    && Connected(e, app) && e.prepared.value.identity.table == sha && Attached(e)
    && e.nextGeneration.Some? && e.nextGeneration.value >= 1
  }

  /** Everything a control that reported met on its way, `n` of its calls being polls for acknowledgements. */
  ghost predicate ControlMet(app: int, sha: string, actions: seq<Action>, answers: nat -> Answer, calls: seq<Call>,
                             n: nat, report: Report) {
    && Permitted(actions) && TableSha(sha)
    && StatusFrom(answers, 0) && Ready(answers(0).envelope, app, sha)
    && var before := answers(0).envelope;
    && report.identity == before.prepared.value.identity && report.start == before.nextGeneration.value
    && var commands := Mutations(actions, report.start);
    && 2 + n <= |calls| && 1 <= n
    && calls[0] == GetStatus(app) && calls[1] == Write(app, commands) && Polls(app, calls[..2 + n], 2)
    && answers(1) == Receipt(true, |commands|, report.start + |commands|)
    && AllSame(app, before, answers, 2, n)
    && Acknowledged(report.acknowledged, commands, answers, 2, n)
    && (report.readback.None? ==> |calls| == 2 + n)
    && (report.readback.Some? ==>
          QueryMet(app, Records(actions), Some(before), answers, 2 + n, calls[2 + n..], report.readback.value))
  }

  /** The one verdict: everything acknowledged ok, read back ok, and active as asked. */
  predicate Worked(actions: seq<Action>, report: Report) {
    && AllOk(report.acknowledged) && report.readback.Some? && AllOk(report.readback.value.results)
    && AsAsked(actions, report.readback.value.results)
  }

  /** At most the mutations once, then at most one batch of queries about the same records. */
  ghost predicate SubmittedAtMost(submitted: seq<seq<Command>>, actions: seq<Action>, mayHaveHappened: bool) {
    if !mayHaveHappened then submitted == []
    else
      && submitted != []
      && (exists start :: submitted[0] == Mutations(actions, start))
      && OnlyQueries(submitted[1..], Records(actions))
  }

  /** The first status, judged: where the mutations may go, or why nothing is submitted. */
  function Preflight(answer: Answer, app: int, sha: string): (r: Result<Envelope, Refusal>)
    ensures r.Success? <==> answer.Current? && Ready(answer.envelope, app, sha)
    ensures r.Success? ==> answer == Current(r.value)
  {
    if !answer.Current? then Failure(Failed)
    else
      var before := answer.envelope;
      if !Connected(before, app) then Failure(NotConnected)
      else if before.prepared.value.identity.table != sha then Failure(SessionChanged)
      else if !Attached(before) then Failure(NotAttached)
      else if before.nextGeneration.None? || before.nextGeneration.value < 1 then Failure(NoGeneration)
      else Success(before)
  }

  lemma MutationsFirst(app: int, actions: seq<Action>, start: int, polls: seq<Call>, more: seq<Call>)
    requires Polls(app, polls, 0) && OnlyQueries(Submitted(more), Records(actions))
    ensures SubmittedAtMost(Submitted(BatchCalls(app, Mutations(actions, start), polls) + more), actions, true)
  {
    var commands := Mutations(actions, start);
    SubmittedJoin(BatchCalls(app, commands, polls), more);
    assert ([commands] + Submitted(more))[1..] == Submitted(more);
  }

  predicate SampleOk(results: seq<Acknowledgement>, commands: seq<Command>, start: int) {
    forall a :: a in results && Answers(a, commands, start) ==> a.ok
  }

  /** Every acknowledgement the first `n` answers show of the commands is ok. */
  ghost predicate AllSaidOk(commands: seq<Command>, start: int, answers: nat -> Answer, at: nat, n: nat) {
    forall i :: at <= i < at + n ==> SampleOk(ResultsAt(answers, i), commands, start)
  }

  /** What a control has to meet before it polls: its own request, its preflight and a good receipt. */
  ghost predicate ControlOpened(app: int, sha: string, actions: seq<Action>, answers: nat -> Answer) {
    && Permitted(actions) && TableSha(sha)
    && StatusFrom(answers, 0) && Ready(answers(0).envelope, app, sha)
    && answers(1) == Receipt(true, |actions|, answers(0).envelope.nextGeneration.value + |actions|)
  }

  /** A control reports after `n` polls: all acknowledged by then, and either not all ok or read back after. */
  ghost predicate ControlReports(app: int, sha: string, actions: seq<Action>, answers: nat -> Answer, n: nat) {
    && ControlOpened(app, sha, actions, answers)
    && var before := answers(0).envelope;
    && var start := before.nextGeneration.value;
    && ReportsAt(app, Mutations(actions, start), start, before, answers, 2, n)
    && (AllSaidOk(Mutations(actions, start), start, answers, 2, n) ==>
          QueryAnswers(app, Records(actions), Some(before), answers, 2 + n))
  }

  /** A control that polled `n` times for acknowledgements ended its wait so, and gave up if the wait did. */
  ghost predicate ControlWaited(app: int, sha: string, actions: seq<Action>, answers: nat -> Answer, n: nat,
                                outcome: Result<Report, Refusal>) {
    && ControlOpened(app, sha, actions, answers)
    && var before := answers(0).envelope;
    && var start := before.nextGeneration.value;
    && exists acks :: Waited(app, Mutations(actions, start), start, before, answers, 2, n, acks)
                      && (acks.Failure? ==> outcome == Failure(acks.error))
                      && (outcome.Success? ==> acks == Success(outcome.value.acknowledged))
  }

  /** The acknowledgements reported are all ok exactly when none of the samples shows one that is not. */
  lemma OkExactly(app: int, commands: seq<Command>, start: int, before: Envelope, answers: nat -> Answer, at: nat,
                  n: nat, acks: seq<Acknowledgement>)
    requires CleanTo(app, commands, start, before, answers, at, n)
    requires Numbered(commands, start) && Acknowledged(acks, commands, answers, at, n)
    ensures AllOk(acks) <==> AllSaidOk(commands, start, answers, at, n)
  {
    hide Clear, SameTarget;
    if AllSaidOk(commands, start, answers, at, n) {
      forall k | 0 <= k < |acks|
        ensures acks[k].ok
      {
        assert SeenIn(acks[k], answers, at, n);
        var i :| at <= i < at + n && StatusFrom(answers, i)
                 && Reported(answers(i).envelope.Results(), |answers(i).envelope.Results()|, acks[k]);
        assert acks[k] in ResultsAt(answers, i) && SampleOk(ResultsAt(answers, i), commands, start);
        assert commands[k].generation == start + k;
      }
    }
    if AllOk(acks) {
      forall i, a | at <= i < at + n && a in ResultsAt(answers, i) && Answers(a, commands, start)
        ensures a.ok
      {
        var k := a.generation.value - start;
        assert commands[k].generation == start + k;
        assert SeenIn(acks[k], answers, at, n);
        OneSaid(app, commands, start, before, answers, at, n, i, a, acks[k]);
      }
    }
  }

  /** Two acknowledgements of one command in the samples of a clean wait are the same. */
  lemma OneSaid(app: int, commands: seq<Command>, start: int, before: Envelope, answers: nat -> Answer, at: nat,
                n: nat, i: nat, a: Acknowledgement, b: Acknowledgement)
    requires CleanTo(app, commands, start, before, answers, at, n)
    requires at <= i < at + n && a in ResultsAt(answers, i) && Answers(a, commands, start)
    requires SeenIn(b, answers, at, n) && b.generation == a.generation
    ensures a == b
  {
    hide SameTarget, Clear, Agree;
    var j :| at <= j < at + n && StatusFrom(answers, j)
             && Reported(answers(j).envelope.Results(), |answers(j).envelope.Results()|, b);
    assert b in ResultsAt(answers, j);
    if i < j {
      AgreeOn(ResultsAt(answers, i), ResultsAt(answers, j), commands, start, a, b);
    } else if j < i {
      AgreeOn(ResultsAt(answers, j), ResultsAt(answers, i), commands, start, b, a);
    } else {
      ClearOn(ResultsAt(answers, i), commands, start, a, b);
    }
  }

  lemma AgreeOn(x: seq<Acknowledgement>, y: seq<Acknowledgement>, commands: seq<Command>, start: int,
                a: Acknowledgement, b: Acknowledgement)
    requires Agree(x, y, commands, start) && a in x && b in y && Answers(a, commands, start)
    requires a.generation == b.generation
    ensures a == b
  {
  }

  lemma ClearOn(x: seq<Acknowledgement>, commands: seq<Command>, start: int, a: Acknowledgement, b: Acknowledgement)
    requires Clear(x, commands, start) && a in x && b in x && Answers(a, commands, start)
    requires a.generation == b.generation
    ensures a == b
  {
    var i :| 0 <= i < |x| && x[i] == a;
    var j :| 0 <= j < |x| && x[j] == b;
    assert Answers(x[i], commands, start) && Answers(x[j], commands, start);
  }

  /** Submits the mutations once, and reports what became of them; nothing is ever submitted again. */
  method Control(app: int, sha: string, actions: seq<Action>, answers: nat -> Answer)
    returns (outcome: Result<Report, Refusal>, calls: seq<Call>, mayHaveHappened: bool, ghost polls: nat)
    ensures SubmittedAtMost(Submitted(calls), actions, mayHaveHappened)
    ensures outcome.Success? ==> ControlMet(app, sha, actions, answers, calls, polls, outcome.value)
    ensures outcome.Success? ==> (outcome.value.ok <==> Worked(actions, outcome.value))
    ensures outcome.Success? ==> mayHaveHappened
    ensures |calls| <= 2 + ACK_POLL_ATTEMPTS + 2 + ACK_POLL_ATTEMPTS
    ensures outcome.Success? <==> exists n: nat :: ControlReports(app, sha, actions, answers, n)
    ensures polls > 0 ==> ControlWaited(app, sha, actions, answers, polls, outcome)
    ensures polls == 0 ==> outcome.Failure? && outcome.error != TimedOut
  {
    hide Permitted, TableSha, AllSame, Acknowledged, QueryMet, SubmittedAtMost, AsAsked, Connected, Waited, ReportsAt,
         ControlReports, ControlWaited, ControlOpened, QueryAnswers, QueryEnded, AllSaidOk, AllOk, CleanTo, DoneAt;
    NothingSubmitted(app, actions);
    OpenedExactly(app, sha, actions, answers);
    calls, mayHaveHappened, polls := [], false, 0;
    var valid := ValidateActions(actions);
    if !valid || !TableSha(sha) { return Failure(BadRequest), calls, mayHaveHappened, polls; }
    calls := [GetStatus(app)];
    OneStatus(app);
    var preflight := Preflight(answers(0), app, sha);
    if preflight.Failure? { return Failure(preflight.error), calls, mayHaveHappened, polls; }
    var before := preflight.value;
    ReadyIsWhole(before, app, sha);
    var start, identity := before.nextGeneration.value, before.prepared.value.identity;
    var commands := Mutations(actions, start);
    mayHaveHappened := true;
    calls := calls + [Write(app, commands)];
    CallsSoFar(app, actions, start, calls, []);
    if answers(1) != Receipt(true, |commands|, start + |commands|) {
      return Failure(BadReceipt), calls, mayHaveHappened, polls;
    }
    var acks, waited := AwaitAcknowledgements(app, commands, start, before, answers, |calls|);
    calls, polls := calls + waited, |waited|;
    CallsSoFar(app, actions, start, [GetStatus(app)] + [Write(app, commands)], waited);
    WaitedAtLeastOnce(app, commands, start, before, answers, 2, polls, acks);
    if acks.Failure? {
      ControlGivesUp(app, sha, actions, answers, polls, acks.error);
      return Failure(acks.error), calls, mayHaveHappened, polls;
    }
    if !AllOk(acks.value) {
      outcome := Success(Report(false, identity, start, acks.value, None));
      ControlJudged(app, sha, actions, answers, polls, acks.value, outcome);
      return outcome, calls, mayHaveHappened, polls;
    }
    var readback, more := Query(app, Records(actions), Some(before), answers, |calls|);
    MutationsFirst(app, actions, start, waited, more);
    ghost var upto := calls;
    calls := calls + more;
    assert calls[2 + polls..] == more && calls[..2 + polls] == upto;
    if readback.Failure? {
      ControlJudged(app, sha, actions, answers, polls, acks.value, Failure(readback.error));
      return Failure(readback.error), calls, mayHaveHappened, polls;
    }
    var ok := AllOk(readback.value.results) && AsAsked(actions, readback.value.results);
    outcome := Success(Report(ok, identity, start, acks.value, Some(readback.value)));
    ControlJudged(app, sha, actions, answers, polls, acks.value, outcome);
    return outcome, calls, mayHaveHappened, polls;
  }

  lemma OpenedExactly(app: int, sha: string, actions: seq<Action>, answers: nat -> Answer)
    ensures (exists n: nat :: ControlReports(app, sha, actions, answers, n))
            ==> ControlOpened(app, sha, actions, answers)
    ensures ControlOpened(app, sha, actions, answers) <==>
              && Permitted(actions) && TableSha(sha) && Preflight(answers(0), app, sha).Success?
              && Preflight(answers(0), app, sha).value.nextGeneration.Some?
              && answers(1)
                 == Receipt(true, |actions|, Preflight(answers(0), app, sha).value.nextGeneration.value + |actions|)
    ensures ControlOpened(app, sha, actions, answers) ==>
              answers(0) == Current(Preflight(answers(0), app, sha).value)
  {
    hide ReportsAt, QueryAnswers, AllSaidOk, Permitted, TableSha, Connected;
  }

  lemma WaitedAtLeastOnce(app: int, commands: seq<Command>, start: int, before: Envelope, answers: nat -> Answer,
                          at: nat, n: nat, acks: Result<seq<Acknowledgement>, Refusal>)
    requires Waited(app, commands, start, before, answers, at, n, acks)
    ensures 1 <= n <= ACK_POLL_ATTEMPTS
  {
  }

  /** There is one number of polls after which a wait may report. */
  lemma ReportsOnce(app: int, commands: seq<Command>, start: int, before: Envelope, answers: nat -> Answer, at: nat,
                    n: nat, m: nat)
    requires ReportsAt(app, commands, start, before, answers, at, n)
    requires ReportsAt(app, commands, start, before, answers, at, m)
    ensures n == m
  {
    hide CleanTo, DoneAt, Connected;
  }

  lemma ControlGivesUp(app: int, sha: string, actions: seq<Action>, answers: nat -> Answer, n: nat, e: Refusal)
    requires ControlOpened(app, sha, actions, answers)
    requires var before := answers(0).envelope; var start := before.nextGeneration.value;
      var acks: Result<seq<Acknowledgement>, Refusal> := Failure(e);
      && Waited(app, Mutations(actions, start), start, before, answers, 2, n, acks)
      && !exists m: nat :: ReportsAt(app, Mutations(actions, start), start, before, answers, 2, m)
    ensures ControlWaited(app, sha, actions, answers, n, Failure(e))
    ensures !exists m: nat :: ControlReports(app, sha, actions, answers, m)
  {
    hide Waited, ReportsAt, Permitted, TableSha, QueryAnswers, AllSaidOk, Ready;
    WaitKnown(app, sha, actions, answers, n, Failure(e), Failure(e));
  }

  /** A wait that reported: the control does when not all was ok, and otherwise as its readback does. */
  lemma ControlJudged(app: int, sha: string, actions: seq<Action>, answers: nat -> Answer, n: nat,
                      acks: seq<Acknowledgement>, outcome: Result<Report, Refusal>)
    requires ControlOpened(app, sha, actions, answers)
    requires var before := answers(0).envelope; var start := before.nextGeneration.value;
      var commands := Mutations(actions, start);
      && Waited(app, commands, start, before, answers, 2, n, Success(acks))
      && Acknowledged(acks, commands, answers, 2, n)
    requires outcome.Success? ==> outcome.value.acknowledged == acks
    requires AllOk(acks) ==>
               (outcome.Success? <==>
                QueryAnswers(app, Records(actions), Some(answers(0).envelope), answers, 2 + n))
    requires !AllOk(acks) ==> outcome.Success?
    ensures ControlWaited(app, sha, actions, answers, n, outcome)
    ensures outcome.Success? <==> exists m: nat :: ControlReports(app, sha, actions, answers, m)
  {
    hide Permitted, TableSha, QueryAnswers, AllSaidOk, AllOk, Acknowledged, Waited, CleanTo, ReportsAt;
    var before := answers(0).envelope;
    var start := before.nextGeneration.value;
    var commands := Mutations(actions, start);
    WaitedExactly(app, commands, start, before, answers, 2, n, Success(acks));
    ReportIsClean(app, commands, start, before, answers, 2, n);
    OkExactly(app, commands, start, before, answers, 2, n, acks);
    forall m: nat | ReportsAt(app, commands, start, before, answers, 2, m)
      ensures m == n
    {
      ReportsOnce(app, commands, start, before, answers, 2, n, m);
    }
    assert outcome.Success? <==> ControlReports(app, sha, actions, answers, n);
    WaitKnown(app, sha, actions, answers, n, Success(acks), outcome);
  }

  lemma ReportIsClean(app: int, commands: seq<Command>, start: int, before: Envelope, answers: nat -> Answer, at: nat,
                      n: nat)
    requires ReportsAt(app, commands, start, before, answers, at, n)
    ensures CleanTo(app, commands, start, before, answers, at, n)
  {
  }

  lemma WaitKnown(app: int, sha: string, actions: seq<Action>, answers: nat -> Answer, n: nat,
                  acks: Result<seq<Acknowledgement>, Refusal>, outcome: Result<Report, Refusal>)
    requires ControlOpened(app, sha, actions, answers)
    requires var before := answers(0).envelope; var start := before.nextGeneration.value;
      Waited(app, Mutations(actions, start), start, before, answers, 2, n, acks)
    requires acks.Failure? ==> outcome == Failure(acks.error)
    requires outcome.Success? ==> acks == Success(outcome.value.acknowledged)
    ensures ControlWaited(app, sha, actions, answers, n, outcome)
  {
    hide Waited, Permitted, TableSha, Ready;
  }

  lemma CallsSoFar(app: int, actions: seq<Action>, start: int, calls: seq<Call>, waited: seq<Call>)
    requires calls == [GetStatus(app)] + [Write(app, Mutations(actions, start))]
    requires Polls(app, waited, 0)
    ensures calls + waited == BatchCalls(app, Mutations(actions, start), waited)
    ensures (calls + waited)[..2 + |waited|] == calls + waited && (waited == [] ==> calls + waited == calls)
    ensures SubmittedAtMost(Submitted(calls + waited), actions, true)
  {
    PollsSubmitNothing(app, []);
    MutationsFirst(app, actions, start, waited, []);
    var all := BatchCalls(app, Mutations(actions, start), waited);
    assert all + [] == all;
  }

  lemma NothingSubmitted(app: int, actions: seq<Action>)
    ensures SubmittedAtMost([], actions, false) && Submitted([]) == []
    ensures OnlyQueries([], Records(actions))
  {
  }

  lemma ReadyIsWhole(e: Envelope, app: int, sha: string)
    requires Ready(e, app, sha)
    ensures e.prepared.Some? && e.status.Some? && e.nextGeneration.Some?
  {
  }
}
