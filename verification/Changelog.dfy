/**
 The changelog editor and the release check that judges what it leaves.

 Four documents state the version: the changelog's newest heading and one line of the developers'
 notes carry it with its date, and the package manifest and the backend carry it alone. The editor
 adds an entry, moves the date, or starts the next version; each is a function from the documents to
 the documents, or a refusal that changes nothing.
 */
module Changelog {
  import opened Wrappers
  import opened Strings
  import opened ChangelogText

  /** A line of the manifest or the backend: one that states the version, or any other. */
  datatype Slot = Stated(lead: string, version: string, tail: string) | Plain(text: string)

  datatype Documents =
    Documents(changelog: seq<string>, agents: seq<string>, package: seq<Slot>, backend: seq<Slot>)

  predicate IsHeading(line: string) {
    StartsWith(line, "## ")
  }

  predicate IsEntry(line: string) {
    StartsWith(line, "- ")
  }

  /** The first heading at or after `from`, or the end. */
  function NextHeading(lines: seq<string>, from: nat): (r: nat)
    requires from <= |lines|
    ensures from <= r <= |lines| && (r < |lines| ==> IsHeading(lines[r]))
    ensures forall i :: from <= i < r ==> !IsHeading(lines[i])
    decreases |lines| - from
  {
    if from == |lines| || IsHeading(lines[from]) then from else NextHeading(lines, from + 1)
  }

  function Top(lines: seq<string>): nat {
    NextHeading(lines, 0)
  }

  /** The first entry in a stretch, or its end. */
  function FirstEntry(lines: seq<string>, from: nat, end: nat): (r: nat)
    requires from <= end <= |lines|
    ensures from <= r <= end && (r < end ==> IsEntry(lines[r]))
    ensures forall i :: from <= i < r ==> !IsEntry(lines[i])
    decreases end - from
  {
    if from == end || IsEntry(lines[from]) then from else FirstEntry(lines, from + 1, end)
  }

  function AfterBlank(lines: seq<string>, from: nat, end: nat): (r: nat)
    requires from <= end <= |lines|
    ensures from <= r <= end && (r < end ==> !Blank(lines[r]))
    ensures forall i :: from <= i < r ==> Blank(lines[i])
    decreases end - from
  {
    if from == end || !Blank(lines[from]) then from else AfterBlank(lines, from + 1, end)
  }

  /** The newest section's stamp, when there is a section and its heading is well formed. */
  function Newest(lines: seq<string>): (r: Option<Stamp>)
    ensures r.Some? ==> Top(lines) < |lines| && WellFormed(r.value) && lines[Top(lines)] == Spell(HEADING, r.value)
  {
    if Top(lines) == |lines| then None else Parse(HEADING, lines[Top(lines)])
  }

  /** The line of the notes that carries the version, or the end. */
  function NotesLine(agents: seq<string>): (r: nat)
    ensures r <= |agents| && (r < |agents| ==> Parse(AGENTS, agents[r]).Some?)
    ensures forall i :: 0 <= i < r ==> Parse(AGENTS, agents[i]).None?
  {
    if agents == [] || Parse(AGENTS, agents[0]).Some? then 0 else 1 + NotesLine(agents[1..])
  }

  /** Every version a document states, in order. */
  function Versions(slots: seq<Slot>): seq<string> {
    if slots == [] then []
    else (if slots[0].Stated? then [slots[0].version] else []) + Versions(slots[1..])
  }

  /** The document with every version it states replaced, and nothing else. */
  function Restated(slots: seq<Slot>, new_: string): (r: seq<Slot>)
    ensures |r| == |slots|
    ensures forall i :: 0 <= i < |slots| ==> r[i] == if slots[i].Stated? then slots[i].(version := new_) else slots[i]
  {
    if slots == [] then []
    else [if slots[0].Stated? then slots[0].(version := new_) else slots[0]] + Restated(slots[1..], new_)
  }

  // ---------- Adding an entry ----------

  /** Where a new entry goes: above the first of the newest section, or after its heading's blank lines. */
  function Place(lines: seq<string>): (r: nat)
    requires Top(lines) < |lines|
    ensures Top(lines) < r <= NextHeading(lines, Top(lines) + 1)
  {
    var top := Top(lines);
    var end := NextHeading(lines, top + 1);
    var first := FirstEntry(lines, top + 1, end);
    if first < end then first else AfterBlank(lines, top + 1, end)
  }

  function Addition(lines: seq<string>, at: nat, line: string): seq<string>
    requires at <= |lines|
  {
    if at < |lines| && IsHeading(lines[at]) then [line, ""] else [line]
  }

  /** The lines with one entry put in, and a blank line after it where a heading would follow at once. */
  function Inserted(lines: seq<string>, at: nat, line: string): seq<string>
    requires at <= |lines|
  {
    lines[..at] + Addition(lines, at, line) + lines[at..]
  }

  function Added(text: string, lines: seq<string>, version: string): Result<seq<string>, Refusal> {
    var entry := EntryFrom(text);
    if entry.Failure? then Failure(entry.error)
    else if Top(lines) == |lines| then Failure(NoSections)
    else if Newest(lines).None? then Failure(MalformedHeading)
    else if Newest(lines).value.version != version then Failure(OutOfSync)
    else Success(Inserted(lines, Place(lines), "- " + entry.value))
  }

  method AddEntry(text: string, lines: seq<string>, version: string) returns (r: Result<seq<string>, Refusal>)
    ensures r == Added(text, lines, version)
  {
    hide EntryFrom, Parse, Spell, Blank;
    var entry := EntryFrom(text);
    if entry.Failure? { return Failure(entry.error); }
    var top := Top(lines);
    if top == |lines| { return Failure(NoSections); }
    var heading := Parse(HEADING, lines[top]);
    if heading.None? { return Failure(MalformedHeading); }
    if heading.value.version != version { return Failure(OutOfSync); }
    var end := NextHeading(lines, top + 1);
    var at := FirstEntry(lines, top + 1, end);
    if at == end {
      at := top + 1;
      while at < end && Blank(lines[at])
        invariant top + 1 <= at <= end && AfterBlank(lines, at, end) == AfterBlank(lines, top + 1, end)
      {
        at := at + 1;
      }
    }
    assert at == Place(lines);
    var addition := ["- " + entry.value];
    if at < |lines| && IsHeading(lines[at]) { addition := addition + [""]; }
    assert addition == Addition(lines, at, "- " + entry.value);
    return Success(lines[..at] + addition + lines[at..]);
  }

  // ---------- Moving the date ----------

  function DaysIn(year: int, month: int): int {
    if month == 2 then (if year % 4 == 0 && (year % 100 != 0 || year % 400 == 0) then 29 else 28)
    else if month in {4, 6, 9, 11} then 30
    else 31
  }

  predicate CalendarDate(date: string) {
    DateShape(date)
    && var year, month, day := Value(date[..4]), Value(date[5..7]), Value(date[8..]);
    1 <= year && 1 <= month <= 12 && 1 <= day <= DaysIn(year, month)
  }

  /** The days before the first of January of a year, as the ordinals of the Gregorian calendar count them. */
  function DaysBefore(year: int): int {
    365 * (year - 1) + (year - 1) / 4 - (year - 1) / 100 + (year - 1) / 400
  }

  /** The months of every year make up the days between one first of January and the next. */
  lemma YearIsWhole(year: int)
    requires year >= 1
    ensures 7 * 31 + 4 * 30 + DaysIn(year, 2) == DaysBefore(year + 1) - DaysBefore(year)
    ensures forall month :: month in {4, 6, 9, 11} ==> DaysIn(year, month) == 30
    ensures forall month :: month in {1, 3, 5, 7, 8, 10, 12} ==> DaysIn(year, month) == 31
  {
    var y := year - 1;
    assert year / 4 - y / 4 == if year % 4 == 0 then 1 else 0;
    assert year / 100 - y / 100 == if year % 100 == 0 then 1 else 0;
    assert year / 400 - y / 400 == if year % 400 == 0 then 1 else 0;
  }

  function Dated(date: string, changelog: seq<string>, agents: seq<string>, version: string)
    : Result<(seq<string>, seq<string>), Refusal>
  {
    if !CalendarDate(date) then Failure(BadDate)
    else if Newest(changelog).None? then Failure(MalformedHeading)
    else if NotesLine(agents) == |agents| then Failure(NoAgentsLine)
    else
      var line := NotesLine(agents);
      var stated := Parse(AGENTS, agents[line]).value;
      if !(version == Newest(changelog).value.version == stated.version) then Failure(OutOfSync)
      else
        Success((changelog[Top(changelog) := Spell(HEADING, Stamp(version, date))],
                 agents[line := Spell(AGENTS, Stamp(version, date))]))
  }

  function AddedAndDated(text: string, date: string, changelog: seq<string>, agents: seq<string>, version: string)
    : Result<(seq<string>, seq<string>), Refusal>
  {
    var added := Added(text, changelog, version);
    if added.Failure? then Failure(added.error) else Dated(date, added.value, agents, version)
  }

  // ---------- Starting a version ----------

  predicate HasEntries(lines: seq<string>)
    requires Top(lines) < |lines|
  {
    var end := NextHeading(lines, Top(lines) + 1);
    FirstEntry(lines, Top(lines) + 1, end) < end
  }

  /** The version after `before`, named or the next patch. */
  function NextVersion(named: Option<string>, current: string): Result<string, Refusal> {
    var before := VersionParts(current);
    if before.None? then Failure(NotAVersion)
    else
      var p := before.value;
      var next := if named.Some? then named.value else ShowParts(Parts(p.major, p.minor, p.patch + 1));
      var after := VersionParts(next);
      if after.None? then Failure(NotAVersion)
      else if !p.Before(after.value) then Failure(NotAfter)
      else if p.major == 0 && after.value.major == 0 && after.value.minor != p.minor then Failure(MinorMoved)
      else Success(next)
  }

  function Started(named: Option<string>, date: string, d: Documents, released: bool): Result<Documents, Refusal> {
    if !CalendarDate(date) then Failure(BadDate)
    else if Newest(d.changelog).None? then Failure(MalformedHeading)
    else if NotesLine(d.agents) == |d.agents| then Failure(NoAgentsLine)
    else if |Versions(d.package)| != 1 || |Versions(d.backend)| != 1 then Failure(NoVersionLine)
    else
      var top, line := Top(d.changelog), NotesLine(d.agents);
      var current := Versions(d.package)[0];
      if !(current == Versions(d.backend)[0] == Newest(d.changelog).value.version
           == Parse(AGENTS, d.agents[line]).value.version) then Failure(OutOfSync)
      else if !HasEntries(d.changelog) then Failure(NoEntriesYet)
      else if !released then Failure(NotReleased)
      else
        var next := NextVersion(named, current);
        if next.Failure? then Failure(next.error)
        else
          var stamp := Stamp(next.value, date);
          Success(Documents(
            d.changelog[..top] + [Spell(HEADING, stamp), ""] + d.changelog[top..],
            d.agents[line := Spell(AGENTS, stamp)],
            Restated(d.package, next.value),
            Restated(d.backend, next.value)))
  }

  // ---------- Commands ----------

  /** One command; `released` is whether the current version has its release tag when it is given. */
  datatype Command = Add(text: string, date: string) | Date(date: string)
    | Start(named: Option<string>, date: string, released: bool)

  /** The documents after one command: as they were, when it is refused. */
  function Run(d: Documents, c: Command): Documents {
    if c.Start? then
      var r := Started(c.named, c.date, d, c.released);
      if r.Success? then r.value else d
    else if Versions(d.package) == [] then d
    else
      var version := Versions(d.package)[0];
      var r := if c.Add? then AddedAndDated(c.text, c.date, d.changelog, d.agents, version)
               else Dated(c.date, d.changelog, d.agents, version);
      if r.Success? then d.(changelog := r.value.0, agents := r.value.1) else d
  }

  function RunAll(d: Documents, commands: seq<Command>): Documents {
    if commands == [] then d else Run(RunAll(d, commands[..|commands| - 1]), commands[|commands| - 1])
  }

  /** All four places state one version, and the two that carry a date one date. */
  predicate InSync(d: Documents, s: Stamp) {
    && WellFormed(s)
    && Newest(d.changelog) == Some(s)
    && NotesLine(d.agents) < |d.agents| && Parse(AGENTS, d.agents[NotesLine(d.agents)]) == Some(s)
    && Versions(d.package) == [s.version] && Versions(d.backend) == [s.version]
  }

  // ---------- Where the lines are after an edit ----------

  lemma {:induction false} HeadingHere(lines: seq<string>, from: nat, at: nat)
    requires from <= at <= |lines| && (at < |lines| ==> IsHeading(lines[at]))
    requires forall i :: from <= i < at ==> !IsHeading(lines[i])
    ensures NextHeading(lines, from) == at
    decreases at - from
  {
    if from < at { HeadingHere(lines, from + 1, at); }
  }

  lemma {:induction false} NotesHere(agents: seq<string>, at: nat)
    requires at < |agents| && Parse(AGENTS, agents[at]).Some?
    requires forall i :: 0 <= i < at ==> Parse(AGENTS, agents[i]).None?
    ensures NotesLine(agents) == at
  {
    if at > 0 { NotesHere(agents[1..], at - 1); }
  }

  lemma SpelledIsHeading(s: Stamp)
    ensures IsHeading(Spell(HEADING, s))
  {
    var line := Spell(HEADING, s);
    assert line == "## " + (s.version + DASH + s.date + "");
    assert line[..3] == "## ";
  }

  /** A line written over the newest heading leaves it the newest, and read as written. */
  lemma Redated(lines: seq<string>, s: Stamp)
    requires Newest(lines).Some? && WellFormed(s)
    ensures Newest(lines[Top(lines) := Spell(HEADING, s)]) == Some(s)
    ensures Top(lines[Top(lines) := Spell(HEADING, s)]) == Top(lines)
  {
    SpelledIsHeading(s);
    HeadingHere(lines[Top(lines) := Spell(HEADING, s)], 0, Top(lines));
    ParseSpelled(HEADING, s);
  }

  lemma Renoted(agents: seq<string>, s: Stamp)
    requires NotesLine(agents) < |agents| && WellFormed(s)
    ensures var after := agents[NotesLine(agents) := Spell(AGENTS, s)];
            NotesLine(after) == NotesLine(agents) && Parse(AGENTS, after[NotesLine(after)]) == Some(s)
  {
    ParseSpelled(AGENTS, s);
    NotesHere(agents[NotesLine(agents) := Spell(AGENTS, s)], NotesLine(agents));
  }

  lemma {:induction false} RestatedVersions(slots: seq<Slot>, v: string)
    ensures |Versions(Restated(slots, v))| == |Versions(slots)|
    ensures forall x :: x in Versions(Restated(slots, v)) ==> x == v
  {
    if slots != [] {
      RestatedVersions(slots[1..], v);
      assert Restated(slots, v)[1..] == Restated(slots[1..], v);
    }
  }

  lemma RestatedOne(slots: seq<Slot>, v: string)
    requires |Versions(slots)| == 1
    ensures Versions(Restated(slots, v)) == [v]
  {
    RestatedVersions(slots, v);
    var after := Versions(Restated(slots, v));
    assert after[0] in after;
    assert after == [after[0]];
  }

  /** An entry never reads as a heading, and goes below the newest one. */
  lemma InsertedKeepsTop(lines: seq<string>, at: nat, line: string)
    requires Top(lines) < at <= |lines|
    ensures Top(Inserted(lines, at, line)) == Top(lines) && Newest(Inserted(lines, at, line)) == Newest(lines)
  {
    var after := Inserted(lines, at, line);
    var top := Top(lines);
    assert forall i :: 0 <= i < at ==> after[i] == lines[i];
    HeadingHere(after, 0, top);
  }

  // ---------- The four places stay in step ----------

  lemma DatedInSync(d: Documents, s: Stamp, date: string)
    requires InSync(d, s) && CalendarDate(date)
    ensures var r := Dated(date, d.changelog, d.agents, s.version);
            && r.Success?
            && InSync(d.(changelog := r.value.0, agents := r.value.1), Stamp(s.version, date))
  {
    var stamp := Stamp(s.version, date);
    Redated(d.changelog, stamp);
    Renoted(d.agents, stamp);
  }

  lemma AddedInSync(d: Documents, s: Stamp, text: string)
    requires InSync(d, s) && EntryFrom(text).Success?
    ensures var r := Added(text, d.changelog, s.version);
            r.Success? && InSync(d.(changelog := r.value), s)
  {
    InsertedKeepsTop(d.changelog, Place(d.changelog), "- " + EntryFrom(text).value);
  }

  /** A version the command line names with a line feed at its end. */
  predicate NamedWithNewline(c: Command) {
    c.Start? && c.named.Some? && EndsInNewline(c.named.value)
  }

  /** Starting a version leaves the four places in step, at the new version, unless it was named with a line feed. */
  lemma StartedInSync(d: Documents, s: Stamp, c: Command)
    requires InSync(d, s) && c.Start? && Started(c.named, c.date, d, c.released).Success?
    ensures NextVersion(c.named, s.version).Success?
    ensures (exists t :: InSync(Run(d, c), t)) <==> !NamedWithNewline(c)
    ensures !NamedWithNewline(c) ==> InSync(Run(d, c), Stamp(NextVersion(c.named, s.version).value, c.date))
  {
    hide Parse, VersionParts, Spell, CalendarDate;
    NextIsWhole(c.named, s.version);
    if NamedWithNewline(c) {
      StartedOutOfSync(d, s, c);
    } else {
      StartedWhole(d, s, c);
    }
  }

  /** A version with a line feed is written everywhere, and no heading with it is read back as one. */
  lemma StartedOutOfSync(d: Documents, s: Stamp, c: Command)
    requires InSync(d, s) && c.Start? && Started(c.named, c.date, d, c.released).Success? && NamedWithNewline(c)
    ensures forall t :: !InSync(Run(d, c), t)
  {
    hide Spell, Parse, VersionParts, CalendarDate, NextHeading, NotesLine, Newest;
    RestatedOne(d.package, c.named.value);
    forall t
      ensures !InSync(Run(d, c), t)
    {
      assert c.named.value[|c.named.value| - 1] in c.named.value;
      assert InSync(Run(d, c), t) ==> Versions(Run(d, c).package) == [t.version];
      assert Versions(Run(d, c).package) == [c.named.value];
    }
  }

  lemma StartedWhole(d: Documents, s: Stamp, c: Command)
    requires InSync(d, s) && c.Start? && Started(c.named, c.date, d, c.released).Success? && !NamedWithNewline(c)
    ensures NextVersion(c.named, s.version).Success?
    ensures InSync(Run(d, c), Stamp(NextVersion(c.named, s.version).value, c.date))
  {
    hide VersionParts, Spell, Parse, CalendarDate;
    var next := NextVersion(c.named, s.version);
    var stamp := Stamp(next.value, c.date);
    NextIsWhole(c.named, s.version);
    DateHasShape(c.date);
    Renoted(d.agents, stamp);
    RestatedOne(d.package, next.value);
    RestatedOne(d.backend, next.value);
    StartedTop(d.changelog, stamp);
  }

  lemma DateHasShape(date: string)
    requires CalendarDate(date)
    ensures DateShape(date)
  {
  }

  lemma NextIsWhole(named: Option<string>, current: string)
    requires NextVersion(named, current).Success?
    ensures VersionParts(NextVersion(named, current).value).Some?
    ensures NextVersion(named, current).value != ""
    ensures NoSpace(NextVersion(named, current).value) <==> !(named.Some? && EndsInNewline(named.value))
  {
    hide VersionParts, SemVer, ShowParts, EndsInNewline;
    PartsOnly(NextVersion(named, current).value);
    if named.None? {
      var p := VersionParts(current).value;
      ShownIsSemVer(Parts(p.major, p.minor, p.patch + 1));
      SemVerEnds(ShowParts(Parts(p.major, p.minor, p.patch + 1)));
    }
  }

  function WithHeading(lines: seq<string>, s: Stamp): seq<string> {
    lines[..Top(lines)] + [Spell(HEADING, s), ""] + lines[Top(lines)..]
  }

  lemma StartedTop(lines: seq<string>, s: Stamp)
    requires WellFormed(s)
    ensures Top(WithHeading(lines, s)) == Top(lines) && Newest(WithHeading(lines, s)) == Some(s)
  {
    SpelledIsHeading(s);
    ParseSpelled(HEADING, s);
    HeadingHere(WithHeading(lines, s), 0, Top(lines));
  }
}
