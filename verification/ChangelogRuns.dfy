/**
 Any sequence of commands, from documents that are in step and pass the release check.
 */
module ChangelogRuns {
  import opened Wrappers
  import opened Strings
  import opened ChangelogText
  import opened Changelog
  import opened ReleaseCheck
  import opened ChangelogHistory

  /** In step, accepted by the release check, the newest section one list, and readable as written. */
  predicate Orderly(d: Documents, s: Stamp) {
    InSync(d, s) && Passes(d) && SectionUnbroken(d.changelog) && NoBreaks(d.changelog)
  }

  // ---------- The release check after one edit ----------

  lemma EntryIsLabelled(text: string)
    requires EntryFrom(text).Success?
    ensures Labelled("- " + EntryFrom(text).value) && IsEntry("- " + EntryFrom(text).value)
  {
    hide EntryFrom;
    var entry := EntryFrom(text).value;
    var name :| name in LABELS && StartsWith(entry, "[" + name + "] ");
    var k :| 0 <= k < |LABELS| && LABELS[k] == name;
    assert "- [" + name + "] " == "- " + ("[" + name + "] ");
    PrefixedStarts("- ", entry, "[" + name + "] ");
    PrefixedStarts("- ", entry, "");
    assert "- " + "" == "- ";
    hide StartsWith;
    assert LabelledWith("- " + entry, k);
  }

  lemma PrefixedStarts(first: string, s: string, opening: string)
    requires StartsWith(s, opening)
    ensures StartsWith(first + s, first + opening)
  {
    assert (first + s)[..|first + opening|] == first + s[..|opening|];
  }

  lemma InsertedLabelled(lines: seq<string>, line: string)
    requires Top(lines) < |lines| && IsEntry(line) && Labelled(line) && SectionLabelled(lines)
    ensures var after := Inserted(lines, Place(lines), line); Top(after) < |after| && SectionLabelled(after)
  {
    hide Inserted, Addition, Place, Labelled, StartsWith;
    var at := Place(lines);
    InsertedEnd(lines, line);
    InsertedGrown(lines, at, line);
    var after, n := Inserted(lines, at, line), |Addition(lines, at, line)|;
    forall i | Top(lines) + 1 <= i < SectionEnd(lines) + n && IsEntry(after[i])
      ensures Labelled(after[i])
    {
      GrownLabelled(lines, after, at, n, line, i);
    }
  }

  lemma GrownLabelled(lines: seq<string>, after: seq<string>, at: nat, n: nat, line: string, i: nat)
    requires Grown(lines, after, at, n, line) && Labelled(line) && IsEntry(line)
    requires Top(lines) < at && Top(lines) < i < |after| && IsEntry(after[i])
    requires Top(lines) < |lines| && SectionLabelled(lines) && at <= SectionEnd(lines) && i < SectionEnd(lines) + n
    ensures Labelled(after[i])
  {
    hide Labelled, NextHeading;
    if i < at {
      assert after[i] == lines[i];
    } else if i >= at + n {
      assert after[i] == lines[i - n];
    }
  }

  lemma InsertedMentions(lines: seq<string>, at: nat, line: string)
    requires at <= |lines|
    ensures Mentions(Inserted(lines, at, line), UNRELEASED)
            <==> Mentions(lines, UNRELEASED) || Contains(line, UNRELEASED)
  {
    hide Mentions, Contains;
    MentionsInserted(lines, at, Addition(lines, at, line), UNRELEASED);
    MentionsFew(line, UNRELEASED);
  }

  /** A new entry passes the release check exactly when it does not say the one word it may not. */
  lemma AddPassesExactly(d: Documents, s: Stamp, text: string)
    requires InSync(d, s) && Passes(d) && EntryFrom(text).Success?
    ensures var line, r := "- " + EntryFrom(text).value, Added(text, d.changelog, s.version);
            && r.Success? && InSync(d.(changelog := r.value), s)
            && (Passes(d.(changelog := r.value)) <==> !Contains(line, UNRELEASED))
  {
    hide Passes, EntryFrom, Mentions, Contains, SectionLabelled, Inserted, Labelled, SemVer, Place;
    var line := "- " + EntryFrom(text).value;
    AddedInSync(d, s, text);
    EntryIsLabelled(text);
    PassesExactly(d, s);
    InsertedLabelled(d.changelog, line);
    InsertedMentions(d.changelog, Place(d.changelog), line);
    PassesExactly(d.(changelog := Added(text, d.changelog, s.version).value), s);
  }

  lemma RedatedSection(lines: seq<string>, s: Stamp, date: string)
    requires Newest(lines) == Some(s) && DateShape(date)
    ensures var after := lines[Top(lines) := Spell(HEADING, Stamp(s.version, date))];
            && Top(after) < |after|
            && (SectionLabelled(after) <==> SectionLabelled(lines))
            && (SectionUnbroken(after) <==> SectionUnbroken(lines))
            && (Mentions(after, UNRELEASED) <==> Mentions(lines, UNRELEASED))
  {
    hide Labelled, StartsWith, Spell, Contains, Mentions, NextHeading;
    var stamp := Stamp(s.version, date);
    var after := lines[Top(lines) := Spell(HEADING, stamp)];
    DatedHistory(lines, s, date);
    UnreleasedIsAWord();
    HeadingMentions(s, UNRELEASED);
    HeadingMentions(stamp, UNRELEASED);
    MentionsEdited(lines, Top(lines), Spell(HEADING, stamp), UNRELEASED);
    assert forall i :: Top(lines) < i < |lines| ==> after[i] == lines[i];
    assert forall i :: i > Top(lines) ==> (EntryAt(after, i) <==> EntryAt(lines, i));
  }

  lemma DatedOrderly(d: Documents, s: Stamp, date: string)
    requires InSync(d, s) && CalendarDate(date)
    ensures var r := Dated(date, d.changelog, d.agents, s.version);
            && r.Success?
            && var after := d.(changelog := r.value.0, agents := r.value.1);
            && InSync(after, Stamp(s.version, date))
            && (Passes(after) <==> Passes(d))
            && (SectionUnbroken(after.changelog) <==> SectionUnbroken(d.changelog))
            && History(after.changelog) == History(d.changelog)
            && Older(after.changelog) == Older(d.changelog)
            && (NoBreaks(d.changelog) ==> NoBreaks(after.changelog))
  {
    hide Passes, SectionLabelled, SectionUnbroken, Mentions, SemVer, History, NextHeading, Spell;
    var stamp := Stamp(s.version, date);
    DateHasShape(date);
    DatedInSync(d, s, date);
    RedatedSection(d.changelog, s, date);
    DatedHistory(d.changelog, s, date);
    PassesExactly(d, s);
    var r := Dated(date, d.changelog, d.agents, s.version).value;
    PassesExactly(d.(changelog := r.0, agents := r.1), stamp);
    OpeningsHaveNoBreak();
    StampHasNoBreak(HEADING, stamp);
  }

  lemma OpeningsHaveNoBreak()
    ensures NoBreak(HEADING.open) && NoBreak(HEADING.close)
  {
  }

  lemma EntryHasNoBreak(text: string)
    requires EntryFrom(text).Success?
    ensures NoBreak("- " + EntryFrom(text).value)
  {
    var entry := EntryFrom(text).value;
    forall c | c in "- " + entry
      ensures !Break(c)
    {
      assert c in "- " || c in entry;
    }
  }

  lemma InsertedNoBreaks(lines: seq<string>, at: nat, line: string)
    requires at <= |lines| && NoBreaks(lines) && NoBreak(line)
    ensures NoBreaks(Inserted(lines, at, line))
  {
    hide NoBreak;
    EmptyHasNoBreak();
  }

  lemma EmptyHasNoBreak()
    ensures NoBreak("")
  {
  }

  /** One entry, added and dated: the documents stay orderly exactly when the entry may be released. */
  lemma AddOrderly(d: Documents, s: Stamp, text: string, date: string)
    requires Orderly(d, s) && EntryFrom(text).Success? && CalendarDate(date)
    ensures var line, r := "- " + EntryFrom(text).value,
                           AddedAndDated(text, date, d.changelog, d.agents, s.version);
            && r.Success?
            && var after := d.(changelog := r.value.0, agents := r.value.1);
            && InSync(after, Stamp(s.version, date))
            && (Orderly(after, Stamp(s.version, date)) <==> !Contains(line, UNRELEASED))
            && History(after.changelog) == [(s.version, line)] + History(d.changelog)
            && Older(after.changelog) == Older(d.changelog)
  {
    hide Passes, SectionUnbroken, Contains, EntryFrom, History, Spell, Inserted, Place,
         NextHeading, NoBreaks, NoBreak, Parse, CalendarDate;
    var line := "- " + EntryFrom(text).value;
    var added := Inserted(d.changelog, Place(d.changelog), line);
    AddPassesExactly(d, s, text);
    EntryIsLabelled(text);
    AddedUnbrokenExactly(d.changelog, line);
    AddedHistory(d.changelog, s, line);
    InsertedEnd(d.changelog, line);
    EntryHasNoBreak(text);
    InsertedNoBreaks(d.changelog, Place(d.changelog), line);
    DatedOrderly(d.(changelog := added), s, date);
  }

  lemma StartedSection(lines: seq<string>, s: Stamp, next: Stamp)
    requires Newest(lines) == Some(s) && WellFormed(next)
    ensures var after := WithHeading(lines, next);
            Top(after) < |after| && SectionLabelled(after) && SectionUnbroken(after)
  {
    StartedHistory(lines, s, next);
    var after := WithHeading(lines, next);
    assert after[Top(lines) + 1] == "";
  }

  lemma StartedMentions(lines: seq<string>, next: Stamp)
    requires WellFormed(next) && VersionParts(next.version).Some?
    ensures Mentions(WithHeading(lines, next), UNRELEASED) <==> Mentions(lines, UNRELEASED)
  {
    hide Mentions, Contains, VersionParts, Spell;
    var line := Spell(HEADING, next);
    UnreleasedIsAWord();
    HeadingMentions(next, UNRELEASED);
    NumbersDoNotMention(next.version);
    MentionsFew(line, UNRELEASED);
    MentionsInserted(lines, Top(lines), [line, ""], UNRELEASED);
  }

  lemma StartedNoBreaks(lines: seq<string>, next: Stamp)
    requires WellFormed(next) && NoBreaks(lines)
    ensures NoBreaks(WithHeading(lines, next))
  {
    hide NoBreak, Spell;
    OpeningsHaveNoBreak();
    EmptyHasNoBreak();
    StampHasNoBreak(HEADING, next);
  }

  /**
   A version started leaves the documents orderly exactly when it is one the release check reads, and in
   step exactly when it was not named with a line feed.
   */
  lemma StartOrderly(d: Documents, s: Stamp, c: Command)
    requires Orderly(d, s) && c.Start? && Started(c.named, c.date, d, c.released).Success?
    ensures var next, after := NextVersion(c.named, s.version), Run(d, c);
            && next.Success?
            && (InSync(after, Stamp(next.value, c.date)) <==> !NamedWithNewline(c))
            && (Orderly(after, Stamp(next.value, c.date)) <==> SemVer(next.value))
            && (!NamedWithNewline(c) ==>
                  History(after.changelog) == History(d.changelog)
                  && Older(after.changelog) == d.changelog[Top(d.changelog)..])
  {
    hide Passes, SectionUnbroken, SectionLabelled, History, Spell, NextHeading, NoBreaks, Parse,
         SemVer, VersionParts, Mentions, CalendarDate, InSync, Run, Newest;
    InStepVersions(d, s);
    StartedInSync(d, s, c);
    if NamedWithNewline(c) {
      NamedIsNext(c.named, s.version);
      if SemVer(c.named.value) { SemVerEnds(c.named.value); }
    } else {
      StartWhole(d, s, c);
    }
  }

  lemma NamedIsNext(named: Option<string>, current: string)
    requires NextVersion(named, current).Success? && named.Some?
    ensures NextVersion(named, current).value == named.value
  {
  }

  lemma StartWhole(d: Documents, s: Stamp, c: Command)
    requires Orderly(d, s) && c.Start? && Started(c.named, c.date, d, c.released).Success? && !NamedWithNewline(c)
    ensures var next, after := NextVersion(c.named, s.version), Run(d, c);
            && next.Success? && InSync(after, Stamp(next.value, c.date))
            && (Orderly(after, Stamp(next.value, c.date)) <==> SemVer(next.value))
            && History(after.changelog) == History(d.changelog)
            && Older(after.changelog) == d.changelog[Top(d.changelog)..]
  {
    hide Passes, SectionUnbroken, SectionLabelled, History, Spell, NextHeading, NoBreaks, Parse,
         SemVer, VersionParts, Mentions, CalendarDate;
    StartedInSync(d, s, c);
    var next := NextVersion(c.named, s.version).value;
    var stamp := Stamp(next, c.date);
    NextIsWhole(c.named, s.version);
    StartedIsWithHeading(d, c, stamp);
    StartedSection(d.changelog, s, stamp);
    StartedMentions(d.changelog, stamp);
    StartedNoBreaks(d.changelog, stamp);
    StartedHistory(d.changelog, s, stamp);
    PassesExactly(d, s);
    PassesExactly(Run(d, c), stamp);
  }

  /** From 0.3.0, a version named with a leading zero is started, and the release check then refuses it. */
  lemma LeadingZeroFails(d: Documents, date: string, entryDate: string)
    requires Orderly(d, Stamp("0.3.0", entryDate)) && CalendarDate(date) && HasEntries(d.changelog)
    ensures var after := Started(Some("0.3.01"), date, d, true);
            after.Success? && InSync(after.value, Stamp("0.3.01", date)) && !Passes(after.value)
  {
    var c := Start(Some("0.3.01"), date, true);
    hide Passes, SectionUnbroken, SectionLabelled, History, Spell, NextHeading, NoBreaks, Parse,
         SemVer, VersionParts, Mentions, CalendarDate, Newest;
    SmallVersions();
    assert Started(c.named, c.date, d, c.released).Success?;
    StartOrderly(d, Stamp("0.3.0", entryDate), c);
    PassesExactly(Run(d, c), Stamp("0.3.01", date));
  }

  /** From 0.3.0, a version named with a line feed is started, and no version is then stated by all four places. */
  lemma LineFeedFails(d: Documents, date: string, entryDate: string)
    requires Orderly(d, Stamp("0.3.0", entryDate)) && CalendarDate(date) && HasEntries(d.changelog)
    ensures var after := Started(Some("0.3.1\n"), date, d, true);
            after.Success? && forall t :: !InSync(after.value, t)
  {
    var c := Start(Some("0.3.1\n"), date, true);
    hide Passes, SectionUnbroken, SectionLabelled, History, Spell, NextHeading, NoBreaks, Parse,
         SemVer, VersionParts, Mentions, CalendarDate, Newest;
    SmallVersions();
    assert Started(c.named, c.date, d, c.released).Success?;
    StartedInSync(d, Stamp("0.3.0", entryDate), c);
    assert Run(d, c) == Started(c.named, c.date, d, c.released).value;
  }

  lemma SmallVersions()
    ensures VersionParts("0.3.0") == Some(Parts(0, 3, 0)) && VersionParts("0.3.01") == Some(Parts(0, 3, 1))
    ensures VersionParts("0.3.1\n") == Some(Parts(0, 3, 1)) && EndsInNewline("0.3.1\n") && !EndsInNewline("0.3.01")
    ensures !SemVer("0.3.01")
  {
    SmallValues();
    assert "0.3.0" == "0" + "." + "3" + "." + "0" && "0.3.01" == "0" + "." + "3" + "." + "01";
    assert Core("0.3.1\n") == "0" + "." + "3" + "." + "1";
    assert "0.3.1\n"[5] == '\n' && "0.3.01"[5] == '1' && "1"[0] == '1';
    ThreeRead("0", "3", "0");
    ThreeRead("0", "3", "01");
    ThreeRead("0", "3", "1");
    LeadingZero();
  }

  lemma SmallValues()
    ensures AllDigits("0") && AllDigits("1") && AllDigits("3") && AllDigits("01")
    ensures Value("0") == 0 && Value("1") == 1 && Value("3") == 3 && Value("01") == 1
  {
    assert "0"[..0] == "" && "1"[..0] == "" && "3"[..0] == "" && "01"[..1] == "0";
  }

  lemma LeadingZero()
    ensures !SemVer("0.3.01")
  {
    var v := "0.3.01";
    forall i, j, k, m | 0 <= i <= |v| && 0 <= j <= |v| && 0 <= k <= |v| && 0 <= m <= |v|
      ensures !SemVerAt(v, i, j, k, m)
    {
      assert forall n :: 0 <= n < |v| && v[n] == '.' ==> n == 1 || n == 3;
    }
  }

  lemma StartedIsWithHeading(d: Documents, c: Command, stamp: Stamp)
    requires c.Start? && Started(c.named, c.date, d, c.released).Success? && Versions(d.package) != []
    requires NextVersion(c.named, Versions(d.package)[0]) == Success(stamp.version) && stamp.date == c.date
    ensures Run(d, c).changelog == WithHeading(d.changelog, stamp)
  {
    hide Spell, Parse, VersionParts, CalendarDate, NextHeading, NextVersion, Restated, HasEntries,
         NotesLine, Newest, Versions;
  }

  // ---------- Any commands ----------

  /** Later, and with the second number as it was while the first is zero. */
  predicate Later(v: string, w: string) {
    var a, b := VersionParts(v), VersionParts(w);
    a.Some? && b.Some? && a.value.Before(b.value)
    && (a.value.major == 0 && b.value.major == 0 ==> a.value.minor == b.value.minor)
  }

  predicate Advances(v: string, w: string) {
    v == w || Later(v, w)
  }

  lemma AdvancesOn(u: string, v: string, w: string)
    requires Advances(u, v) && Advances(v, w)
    ensures Advances(u, w)
  {
    hide VersionParts;
  }

  /** What a command must be for the release check to go on passing. */
  predicate Fitting(c: Command) {
    match c
    case Add(text, _) => EntryFrom(text).Success? ==> !Contains("- " + EntryFrom(text).value, UNRELEASED)
    case Date(_) => true
    case Start(named, _, _) => named.Some? ==> SemVer(named.value)
  }

  predicate EndsWith(lines: seq<string>, tail: seq<string>) {
    |tail| <= |lines| && lines[|lines| - |tail|..] == tail
  }

  lemma EndsOn(a: seq<string>, b: seq<string>, c: seq<string>)
    requires EndsWith(a, b) && EndsWith(b, c)
    ensures EndsWith(a, c)
  {
    assert a[|a| - |b|..][|b| - |c|..] == a[|a| - |c|..];
  }

  lemma NextIsLater(named: Option<string>, current: string)
    requires NextVersion(named, current).Success?
    ensures Later(current, NextVersion(named, current).value)
    ensures (named.Some? ==> SemVer(named.value)) ==> SemVer(NextVersion(named, current).value)
  {
    hide VersionParts, SemVer;
    if named.None? {
      var p := VersionParts(current).value;
      ShownIsSemVer(Parts(p.major, p.minor, p.patch + 1));
    }
  }

  /** A version with no name given is the next patch, and is never refused for what it is. */
  lemma NextPatch(current: string)
    requires VersionParts(current).Some?
    ensures var p := VersionParts(current).value;
            NextVersion(None, current) == Success(ShowParts(Parts(p.major, p.minor, p.patch + 1)))
  {
    var p := VersionParts(current).value;
    PartsRoundTrip(Parts(p.major, p.minor, p.patch + 1));
  }

  /** What one command leaves: the stamp, and the entries it put at the head of the history. */
  ghost predicate Kept(d: Documents, s: Stamp, after: Documents, t: Stamp, news: seq<(string, string)>) {
    && Orderly(after, t) && Advances(s.version, t.version)
    && History(after.changelog) == news + History(d.changelog)
    && (forall n :: n in news ==> Advances(s.version, n.0) && Advances(n.0, t.version))
    && Top(d.changelog) < |d.changelog| && Top(after.changelog) < |after.changelog|
    && EndsWith(Older(after.changelog), Older(d.changelog))
  }

  lemma KeptSame(d: Documents, s: Stamp)
    requires Orderly(d, s)
    ensures Kept(d, s, d, s, [])
  {
  }

  /** The entry a command adds, under the version the documents then state. */
  function NewsOf(d: Documents, c: Command): seq<(string, string)> {
    if c.Add? && Versions(d.package) != []
       && AddedAndDated(c.text, c.date, d.changelog, d.agents, Versions(d.package)[0]).Success?
       && EntryFrom(c.text).Success?
    then [(Versions(d.package)[0], "- " + EntryFrom(c.text).value)] else []
  }

  /** The version a command starts. */
  function StartOf(d: Documents, c: Command): seq<string> {
    if c.Start? && Started(c.named, c.date, d, c.released).Success? then Versions(Run(d, c).package) else []
  }

  /** The entries some commands add, newest first, each under the version stated when it was added. */
  function News(d: Documents, commands: seq<Command>): seq<(string, string)> {
    if commands == [] then []
    else
      var before := commands[..|commands| - 1];
      NewsOf(RunAll(d, before), commands[|commands| - 1]) + News(d, before)
  }

  /** The versions some commands start, in order. */
  function Starts(d: Documents, commands: seq<Command>): seq<string> {
    if commands == [] then []
    else
      var before := commands[..|commands| - 1];
      Starts(d, before) + StartOf(RunAll(d, before), commands[|commands| - 1])
  }

  /** Each version is later than every one before it. */
  predicate Climbs(versions: seq<string>) {
    forall i, j :: 0 <= i < j < |versions| ==> Later(versions[i], versions[j])
  }

  lemma LaterOn(u: string, v: string, w: string)
    requires Later(u, v) && Later(v, w)
    ensures Later(u, w)
  {
    hide VersionParts;
  }

  lemma ClimbsPush(versions: seq<string>, v: string)
    requires Climbs(versions) && versions != [] && Later(versions[|versions| - 1], v)
    ensures Climbs(versions + [v])
  {
    hide Later;
    forall i, j | 0 <= i < j < |versions + [v]|
      ensures Later((versions + [v])[i], (versions + [v])[j])
    {
      if j == |versions| && i < |versions| - 1 { LaterOn(versions[i], versions[|versions| - 1], v); }
    }
  }

  lemma AddKept(d: Documents, s: Stamp, c: Command) returns (t: Stamp)
    requires Orderly(d, s) && c.Add? && Fitting(c)
    ensures Kept(d, s, Run(d, c), t, NewsOf(d, c)) && t.version == s.version
  {
    hide Orderly, EntryFrom, History, CalendarDate, Contains, Older, InSync, AddedAndDated, Started,
         Dated;
    InStepVersions(d, s);
    if EntryFrom(c.text).Success? && CalendarDate(c.date) {
      AddOrderly(d, s, c.text, c.date);
      t := Stamp(s.version, c.date);
      OrderlyTop(Run(d, c), t);
    } else {
      AddRefused(d, c);
      t := s;
      KeptSame(d, s);
    }
  }

  lemma OrderlyTop(d: Documents, s: Stamp)
    requires Orderly(d, s)
    ensures Top(d.changelog) < |d.changelog|
  {
  }

  lemma InStepVersions(d: Documents, s: Stamp)
    requires Orderly(d, s)
    ensures Versions(d.package) == [s.version] && InSync(d, s) && Top(d.changelog) < |d.changelog|
  {
  }

  lemma AddRefused(d: Documents, c: Command)
    requires c.Add? && !(EntryFrom(c.text).Success? && CalendarDate(c.date))
    ensures Run(d, c) == d && NewsOf(d, c) == []
  {
    hide EntryFrom, CalendarDate, Place, Newest, NotesLine, Spell, Parse;
  }

  lemma DateKept(d: Documents, s: Stamp, c: Command) returns (t: Stamp)
    requires Orderly(d, s) && c.Date?
    ensures Kept(d, s, Run(d, c), t, []) && t.version == s.version
  {
    hide History, Older, InSync, Passes, SectionUnbroken, NoBreaks, Started, AddedAndDated;
    hide Value, DaysIn, NotesLine, Newest;
    InStepVersions(d, s);
    if CalendarDate(c.date) {
      DatedOrderly(d, s, c.date);
      t := Stamp(s.version, c.date);
      OrderlyTop(Run(d, c), t);
    } else {
      t := s;
      KeptSame(d, s);
    }
  }

  lemma StartKept(d: Documents, s: Stamp, c: Command) returns (t: Stamp)
    requires Orderly(d, s) && c.Start? && Fitting(c)
    ensures Kept(d, s, Run(d, c), t, [])
    ensures Started(c.named, c.date, d, c.released).Success? ==> Later(s.version, t.version)
  {
    hide Orderly, History, Older, InSync, SemVer, NextVersion, Later, Started;
    InStepVersions(d, s);
    if c.named.Some? { SemVerEnds(c.named.value); }
    if Started(c.named, c.date, d, c.released).Success? {
      StartOrderly(d, s, c);
      t := Stamp(NextVersion(c.named, s.version).value, c.date);
      NextIsLater(c.named, s.version);
      OrderlyTop(Run(d, c), t);
      OlderEnds(d.changelog);
    } else {
      t := s;
      KeptSame(d, s);
    }
  }

  lemma OlderEnds(lines: seq<string>)
    requires Top(lines) < |lines|
    ensures EndsWith(lines[Top(lines)..], Older(lines))
  {
  }

  lemma CommandKept(d: Documents, s: Stamp, c: Command) returns (t: Stamp)
    requires Orderly(d, s) && Fitting(c)
    ensures Kept(d, s, Run(d, c), t, NewsOf(d, c))
    ensures if StartOf(d, c) == [] then t.version == s.version
            else StartOf(d, c) == [t.version] && Later(s.version, t.version)
  {
    hide Orderly, Fitting, Kept, Run, Started, Later, InSync;
    match c
    case Add(_, _) => t := AddKept(d, s, c);
    case Date(_) => t := DateKept(d, s, c);
    case Start(_, _, _) =>
      t := StartKept(d, s, c);
      KeptIsOrderly(d, s, Run(d, c), t, []);
      InStepVersions(Run(d, c), t);
      if !Started(c.named, c.date, d, c.released).Success? {
        StartRefused(d, c);
        InStepVersions(d, s);
      }
  }

  lemma StartRefused(d: Documents, c: Command)
    requires c.Start? && !Started(c.named, c.date, d, c.released).Success?
    ensures Run(d, c) == d
  {
    hide Started;
  }

  lemma KeptThrough(d: Documents, s: Stamp, e: Documents, t: Stamp, a: seq<(string, string)>, f: Documents, u: Stamp,
                    b: seq<(string, string)>)
    requires Kept(d, s, e, t, a) && Kept(e, t, f, u, b)
    ensures Kept(d, s, f, u, b + a)
  {
    hide Orderly, History, Older, Advances;
    AdvancesOn(s.version, t.version, u.version);
    EndsOn(Older(f.changelog), Older(e.changelog), Older(d.changelog));
    assert b + (a + History(d.changelog)) == b + a + History(d.changelog);
    forall n | n in b + a
      ensures Advances(s.version, n.0) && Advances(n.0, u.version)
    {
      if n in b { AdvancesOn(s.version, t.version, n.0); } else { AdvancesOn(n.0, t.version, u.version); }
    }
  }

  /**
   From orderly documents, any commands leave orderly documents. Each version started is later than every
   one before it, the second number staying while the first is zero, and the last of them is the one the
   documents state; the history is what it was with the new entries at its head, each under the version
   stated when it was added; the older sections stand untouched.
   */
  lemma {:induction false} RunsKeep(d: Documents, s: Stamp, commands: seq<Command>) returns (t: Stamp)
    requires Orderly(d, s) && forall c :: c in commands ==> Fitting(c)
    ensures Kept(d, s, RunAll(d, commands), t, News(d, commands))
    ensures var versions := [s.version] + Starts(d, commands);
            Climbs(versions) && versions[|versions| - 1] == t.version
    decreases |commands|
  {
    hide Orderly, Kept, Run, Fitting, NewsOf, StartOf, Later;
    if commands == [] {
      t := s;
      KeptSame(d, s);
    } else {
      var before, c := commands[..|commands| - 1], commands[|commands| - 1];
      var mid := RunsKeep(d, s, before);
      var now := RunAll(d, before);
      KeptIsOrderly(d, s, now, mid, News(d, before));
      t := CommandKept(now, mid, c);
      KeptThrough(d, s, now, mid, News(d, before), RunAll(d, commands), t, NewsOf(now, c));
      ClimbsOn([s.version], Starts(d, before), StartOf(now, c), t.version);
    }
  }

  lemma ClimbsOn(first: seq<string>, starts: seq<string>, more: seq<string>, v: string)
    requires first != [] && Climbs(first + starts)
    requires if more == [] then (first + starts)[|first + starts| - 1] == v
             else more == [v] && Later((first + starts)[|first + starts| - 1], v)
    ensures var versions := first + (starts + more); Climbs(versions) && versions[|versions| - 1] == v
  {
    hide Later;
    if more == [] {
      assert starts + more == starts;
    } else {
      assert first + (starts + more) == (first + starts) + [v];
      ClimbsPush(first + starts, v);
    }
  }

  lemma KeptIsOrderly(d: Documents, s: Stamp, after: Documents, t: Stamp, news: seq<(string, string)>)
    requires Kept(d, s, after, t, news)
    ensures Orderly(after, t)
  {
  }
}
