/**
 What the changelog's history keeps, whatever commands are given in whatever order.

 An entry stays under its version, entries stay in their order, the newest section stays one unbroken
 list, the older sections stay as they were, and the release check goes on passing.
 */
module ChangelogHistory {
  import opened Wrappers
  import opened Strings
  import opened ChangelogText
  import opened Changelog

  // ---------- The documents as files ----------

  function Joined(lines: seq<string>): string {
    if lines == [] then "" else lines[0] + "\n" + Joined(lines[1..])
  }

  /** The first character a line ends at, or the end. */
  function LineEnd(s: string): (n: nat)
    ensures n <= |s| && (n < |s| ==> Break(s[n])) && forall i :: 0 <= i < n ==> !Break(s[i])
  {
    if s == "" || Break(s[0]) then 0 else 1 + LineEnd(s[1..])
  }

  /** A text split as it is when it is read back; a carriage return and a line feed end one line. */
  function Lines(s: string): seq<string>
    decreases |s|
  {
    if s == "" then []
    else
      var n := LineEnd(s);
      if n == |s| then [s]
      else if s[n] == '\r' && n + 1 < |s| && s[n + 1] == '\n' then [s[..n]] + Lines(s[n + 2..])
      else [s[..n]] + Lines(s[n + 1..])
  }

  predicate NoBreak(line: string) {
    forall c :: c in line ==> !Break(c)
  }

  predicate NoBreaks(lines: seq<string>) {
    forall i :: 0 <= i < |lines| ==> NoBreak(lines[i])
  }

  lemma {:induction false} LineEndAfter(line: string, rest: string)
    requires NoBreak(line) && rest != "" && Break(rest[0])
    ensures LineEnd(line + rest) == |line|
  {
    var s := line + rest;
    if line != "" {
      assert line[0] in line && s[1..] == line[1..] + rest;
      LineEndAfter(line[1..], rest);
    }
  }

  /** What is written is read back line for line. */
  lemma {:induction false} WrittenAndRead(lines: seq<string>)
    requires NoBreaks(lines)
    ensures Lines(Joined(lines)) == lines
  {
    if lines != [] {
      var rest := "\n" + Joined(lines[1..]);
      var s := lines[0] + rest;
      assert Joined(lines) == s;
      LineEndAfter(lines[0], rest);
      assert NoBreak(lines[0]) && NoBreaks(lines[1..]);
      assert s[..|lines[0]|] == lines[0] && s[|lines[0]|] == '\n' && s[|lines[0]| + 1..] == Joined(lines[1..]);
      WrittenAndRead(lines[1..]);
    }
  }

  lemma StampHasNoBreak(f: Frame, s: Stamp)
    requires WellFormed(s) && NoBreak(f.open) && NoBreak(f.close)
    ensures NoBreak(Spell(f, s))
  {
    forall c | c in s.date
      ensures Digit(c) || c == '-'
    {
      var i :| 0 <= i < |s.date| && s.date[i] == c;
      if i < 4 { assert c == s.date[..4][i]; }
      else if 4 < i < 7 { assert c == s.date[5..7][i - 5]; }
      else if i > 7 { assert c == s.date[8..][i - 8]; }
    }
    forall c | c in Spell(f, s)
      ensures !Break(c)
    {
      assert c in f.open || c in s.version || c in DASH || c in s.date || c in f.close;
    }
  }

  // ---------- The newest section ----------

  function SectionEnd(lines: seq<string>): (r: nat)
    requires Top(lines) < |lines|
    ensures Top(lines) < r <= |lines|
  {
    NextHeading(lines, Top(lines) + 1)
  }

  /** What is below the newest section. */
  function Older(lines: seq<string>): seq<string>
    requires Top(lines) < |lines|
  {
    lines[SectionEnd(lines)..]
  }

  predicate EntryAt(lines: seq<string>, i: int) {
    0 <= i < |lines| && IsEntry(lines[i])
  }

  /** Nothing but entries stands between two entries of the newest section. */
  predicate SectionUnbroken(lines: seq<string>)
    requires Top(lines) < |lines|
  {
    forall i, k, j :: Top(lines) < i < k < j < SectionEnd(lines) && EntryAt(lines, i) && EntryAt(lines, j)
                      ==> EntryAt(lines, k)
  }

  lemma EntryIsNotHeading(line: string)
    requires IsEntry(line)
    ensures !IsHeading(line)
  {
    assert line[0] == "- "[0];
  }

  /** `after` is `lines` with `n` lines put in at `at`: the new one, and at most a blank one after it. */
  ghost predicate Grown(lines: seq<string>, after: seq<string>, at: nat, n: nat, line: string) {
    && 1 <= n <= 2 && at <= |lines| && |after| == |lines| + n
    && (forall i :: 0 <= i < at ==> after[i] == lines[i])
    && after[at] == line && (n == 2 ==> after[at + 1] == "")
    && (forall i :: at + n <= i < |after| ==> after[i] == lines[i - n])
    && after[at + n..] == lines[at..]
  }

  lemma InsertedGrown(lines: seq<string>, at: nat, line: string)
    requires at <= |lines|
    ensures Grown(lines, Inserted(lines, at, line), at, |Addition(lines, at, line)|, line)
  {
  }

  lemma GrownHeadings(lines: seq<string>, after: seq<string>, at: nat, n: nat, line: string, i: nat)
    requires Grown(lines, after, at, n, line) && !IsHeading(line) && i < |after|
    ensures IsHeading(after[i])
            <==> (i < at && IsHeading(lines[i])) || (i >= at + n && IsHeading(lines[i - n]))
  {
    if i < at { assert after[i] == lines[i]; } else if i >= at + n { assert after[i] == lines[i - n]; }
  }

  lemma GrownTop(lines: seq<string>, after: seq<string>, at: nat, n: nat, line: string)
    requires Grown(lines, after, at, n, line) && !IsHeading(line) && Top(lines) < at
    ensures Top(after) == Top(lines) && Top(after) < |after|
  {
    hide Grown, StartsWith;
    var top := Top(lines);
    GrownSize(lines, after, at, n, line);
    GrownHeadings(lines, after, at, n, line, top);
    forall i: nat | i < top
      ensures !IsHeading(after[i])
    {
      GrownHeadings(lines, after, at, n, line, i);
    }
    HeadingHere(after, 0, top);
  }

  lemma GrownEnd(lines: seq<string>, after: seq<string>, at: nat, n: nat, line: string)
    requires Grown(lines, after, at, n, line) && !IsHeading(line)
    requires Top(lines) < at <= SectionEnd(lines)
    ensures Top(after) == Top(lines) && Top(after) < |after| && SectionEnd(after) == SectionEnd(lines) + n
    ensures Older(after) == Older(lines)
  {
    hide Grown, StartsWith;
    var top, end := Top(lines), SectionEnd(lines);
    GrownSize(lines, after, at, n, line);
    GrownTop(lines, after, at, n, line);
    forall i: nat | top < i < end + n
      ensures !IsHeading(after[i])
    {
      GrownHeadings(lines, after, at, n, line, i);
    }
    if end < |lines| { GrownHeadings(lines, after, at, n, line, end + n); }
    HeadingHere(after, top + 1, end + n);
    DropDrop(lines, at, end - at);
    DropDrop(after, at + n, end - at);
  }

  lemma GrownSize(lines: seq<string>, after: seq<string>, at: nat, n: nat, line: string)
    requires Grown(lines, after, at, n, line)
    ensures |after| == |lines| + n && 1 <= n <= 2 && at <= |lines| && after[at + n..] == lines[at..]
  {
  }

  lemma DropDrop(lines: seq<string>, at: nat, n: nat)
    requires at + n <= |lines|
    ensures lines[at..][n..] == lines[at + n..]
  {
  }

  lemma InsertedEnd(lines: seq<string>, line: string)
    requires Top(lines) < |lines| && IsEntry(line)
    ensures var after, n := Inserted(lines, Place(lines), line), |Addition(lines, Place(lines), line)|;
            && Top(after) == Top(lines) && SectionEnd(after) == SectionEnd(lines) + n
            && Older(after) == Older(lines)
  {
    hide Inserted, Addition, Place;
    var at := Place(lines);
    InsertedGrown(lines, at, line);
    EntryIsNotHeading(line);
    GrownEnd(lines, Inserted(lines, at, line), at, |Addition(lines, at, line)|, line);
  }

  /** No entry of the newest section is above the place for a new one; below it comes one, if there is any. */
  lemma PlaceIsFirst(lines: seq<string>)
    requires Top(lines) < |lines|
    ensures forall i :: Top(lines) < i < Place(lines) ==> !EntryAt(lines, i)
    ensures EntryAt(lines, Place(lines)) || forall i :: Place(lines) <= i < SectionEnd(lines) ==> !EntryAt(lines, i)
  {
  }

  lemma EntriesMoved(lines: seq<string>, line: string, i: int)
    requires Top(lines) < |lines| && IsEntry(line)
    ensures var at, n := Place(lines), |Addition(lines, Place(lines), line)|;
            EntryAt(Inserted(lines, at, line), i)
            <==> (i < at && EntryAt(lines, i)) || i == at || (i >= at + n && EntryAt(lines, i - n))
  {
    hide Inserted, Addition, Place;
    var at := Place(lines);
    InsertedGrown(lines, at, line);
    GrownEntries(lines, Inserted(lines, at, line), at, |Addition(lines, at, line)|, line, i);
  }

  lemma GrownEntries(lines: seq<string>, after: seq<string>, at: nat, n: nat, line: string, i: int)
    requires Grown(lines, after, at, n, line) && IsEntry(line)
    ensures EntryAt(after, i) <==> (i < at && EntryAt(lines, i)) || i == at || (i >= at + n && EntryAt(lines, i - n))
  {
    if 0 <= i < at { assert after[i] == lines[i]; } else if at + n <= i < |after| { assert after[i] == lines[i - n]; }
  }

  /** A new entry leaves the newest section one unbroken list exactly when it was one. */
  lemma AddedUnbrokenExactly(lines: seq<string>, line: string)
    requires Top(lines) < |lines| && IsEntry(line)
    ensures var after := Inserted(lines, Place(lines), line);
            Top(after) < |after| && (SectionUnbroken(after) <==> SectionUnbroken(lines))
  {
    InsertedEnd(lines, line);
    PlaceIsFirst(lines);
    if EntryAt(lines, Place(lines)) { AddedAbove(lines, line); } else { AddedAlone(lines, line); }
  }

  lemma AddedAlone(lines: seq<string>, line: string)
    requires Top(lines) < |lines| && IsEntry(line) && !EntryAt(lines, Place(lines))
    ensures SectionUnbroken(lines)
    ensures var after := Inserted(lines, Place(lines), line);
            Top(after) < |after| && SectionUnbroken(after)
  {
    hide Inserted, Addition, Place;
    InsertedEnd(lines, line);
    PlaceIsFirst(lines);
    var at, n := Place(lines), |Addition(lines, Place(lines), line)|;
    var after := Inserted(lines, at, line);
    forall i | Top(after) < i < SectionEnd(after) && EntryAt(after, i)
      ensures i == at
    {
      EntriesMoved(lines, line, i);
    }
  }

  lemma AddedAbove(lines: seq<string>, line: string)
    requires Top(lines) < |lines| && IsEntry(line) && EntryAt(lines, Place(lines))
    ensures var after := Inserted(lines, Place(lines), line);
            Top(after) < |after| && (SectionUnbroken(after) <==> SectionUnbroken(lines))
  {
    InsertedEnd(lines, line);
    PlaceIsFirst(lines);
    var at := Place(lines);
    EntryIsNotHeading(lines[at]);
    assert |Addition(lines, at, line)| == 1;
    hide Inserted, Place, StartsWith, Addition;
    var after := Inserted(lines, at, line);
    forall i
      ensures MovedAt(lines, after, at, i)
    {
      EntriesMoved(lines, line, i);
    }
    AddedAboveBack(lines, after, at);
    AddedAboveOn(lines, after, at);
  }

  /** Line `i` of the section with an entry put in at `at` is line `i`, or the line above it. */
  ghost predicate OneEntryMore(lines: seq<string>, after: seq<string>, at: nat) {
    && Top(lines) < |lines| && Top(after) < |after|
    && Top(after) == Top(lines) && SectionEnd(after) == SectionEnd(lines) + 1
    && Top(lines) < at < SectionEnd(lines) && EntryAt(lines, at)
    && forall i :: MovedAt(lines, after, at, i)
  }

  predicate MovedAt(lines: seq<string>, after: seq<string>, at: nat, i: int) {
    EntryAt(after, i) <==> (i < at && EntryAt(lines, i)) || i == at || (i > at && EntryAt(lines, i - 1))
  }

  lemma AddedAboveBack(lines: seq<string>, after: seq<string>, at: nat)
    requires OneEntryMore(lines, after, at) && (forall i :: Top(lines) < i < at ==> !EntryAt(lines, i))
    ensures SectionUnbroken(after) ==> SectionUnbroken(lines)
  {
    hide EntryAt;
    if SectionUnbroken(after) {
      forall i, k, j | Top(lines) < i < k < j < SectionEnd(lines) && EntryAt(lines, i) && EntryAt(lines, j)
        ensures EntryAt(lines, k)
      {
        assert i >= at;
        assert MovedAt(lines, after, at, i + 1) && MovedAt(lines, after, at, j + 1);
        assert MovedAt(lines, after, at, k + 1);
        assert EntryAt(after, i + 1) && EntryAt(after, j + 1);
        assert EntryAt(after, k + 1);
      }
    }
  }

  lemma AddedAboveOn(lines: seq<string>, after: seq<string>, at: nat)
    requires OneEntryMore(lines, after, at) && (forall i :: Top(lines) < i < at ==> !EntryAt(lines, i))
    ensures SectionUnbroken(lines) ==> SectionUnbroken(after)
  {
    if SectionUnbroken(lines) {
      forall i, k, j | Top(after) < i < k < j < SectionEnd(after) && EntryAt(after, i) && EntryAt(after, j)
        ensures EntryAt(after, k)
      {
        assert MovedAt(lines, after, at, i) && MovedAt(lines, after, at, j) && MovedAt(lines, after, at, k);
        assert i >= at;
        assert EntryAt(lines, at) && EntryAt(lines, j - 1);
        assert k - 1 == at || EntryAt(lines, k - 1);
      }
    }
  }

  // ---------- Whose entry is whose ----------

  function VersionOf(heading: string): string {
    if Parse(HEADING, heading).Some? then Parse(HEADING, heading).value.version else heading
  }

  /** Every entry with the version it stands under, from the top down. */
  function Attributed(lines: seq<string>, under: string): seq<(string, string)> {
    if lines == [] then []
    else if IsHeading(lines[0]) then Attributed(lines[1..], VersionOf(lines[0]))
    else (if IsEntry(lines[0]) then [(under, lines[0])] else []) + Attributed(lines[1..], under)
  }

  /** The history of a changelog: its entries by version, whatever is above the newest heading aside. */
  function History(lines: seq<string>): seq<(string, string)> {
    Attributed(lines[Top(lines)..], "")
  }

  lemma {:induction false} NoEntriesAbove(a: seq<string>, rest: seq<string>, under: string)
    requires forall i :: 0 <= i < |a| ==> !IsHeading(a[i]) && !IsEntry(a[i])
    ensures Attributed(a + rest, under) == Attributed(rest, under)
  {
    if a == [] {
      assert a + rest == rest;
    } else {
      assert (a + rest)[1..] == a[1..] + rest;
      NoEntriesAbove(a[1..], rest, under);
    }
  }

  /** The history is what stands below the place for a new entry, under the newest version. */
  lemma HistoryFrom(lines: seq<string>, s: Stamp, at: nat)
    requires Newest(lines) == Some(s) && Top(lines) < at <= SectionEnd(lines)
    requires forall i :: Top(lines) < i < at ==> !EntryAt(lines, i)
    ensures History(lines) == Attributed(lines[at..], s.version)
  {
    var body, a := lines[Top(lines)..], lines[Top(lines) + 1..at];
    assert body[0] == lines[Top(lines)] && body[1..] == a + lines[at..];
    forall i | 0 <= i < |a|
      ensures !IsHeading(a[i]) && !IsEntry(a[i])
    {
      assert a[i] == lines[Top(lines) + 1 + i] && !EntryAt(lines, Top(lines) + 1 + i);
    }
    NoEntriesAbove(a, lines[at..], s.version);
  }

  /** A new entry is the newest of its version, and the rest of the history is as it was. */
  lemma AddedHistory(lines: seq<string>, s: Stamp, line: string)
    requires Newest(lines) == Some(s) && IsEntry(line)
    ensures History(Inserted(lines, Place(lines), line)) == [(s.version, line)] + History(lines)
  {
    hide Attributed, Inserted, Place, Addition, EntryAt, History, NextHeading, Newest;
    var at, n := Place(lines), |Addition(lines, Place(lines), line)|;
    NewestKept(lines, at, line);
    InsertedGrown(lines, at, line);
    AddedBelow(lines, s, line);
    PlaceIsFirst(lines);
    HistoryFrom(lines, s, at);
    OneMore(Inserted(lines, at, line), at, n, s.version);
  }

  lemma AddedBelow(lines: seq<string>, s: Stamp, line: string)
    requires Newest(lines) == Some(s) && IsEntry(line)
    ensures var after := Inserted(lines, Place(lines), line);
            Place(lines) <= |after| && History(after) == Attributed(after[Place(lines)..], s.version)
  {
    hide Attributed, Inserted, Place, Addition, EntryAt, Newest;
    var at := Place(lines);
    var after := Inserted(lines, at, line);
    InsertedEnd(lines, line);
    PlaceIsFirst(lines);
    NewestKept(lines, at, line);
    forall i | Top(after) < i < at
      ensures !EntryAt(after, i)
    {
      EntriesMoved(lines, line, i);
    }
    HistoryFrom(after, s, at);
  }

  lemma NewestKept(lines: seq<string>, at: nat, line: string)
    requires Top(lines) < at <= |lines|
    ensures Newest(Inserted(lines, at, line)) == Newest(lines)
    ensures 1 <= |Addition(lines, at, line)| <= 2
  {
    InsertedKeepsTop(lines, at, line);
  }

  lemma OneMore(after: seq<string>, at: nat, n: nat, version: string)
    requires 1 <= n <= 2 && at + n <= |after| && IsEntry(after[at]) && (n == 2 ==> after[at + 1] == "")
    ensures Attributed(after[at..], version) == [(version, after[at])] + Attributed(after[at + n..], version)
  {
    EntryIsNotHeading(after[at]);
    assert after[at..][1..] == after[at + 1..];
    if n == 2 {
      assert after[at + 1..][0] == "" && after[at + 1..][1..] == after[at + 2..];
      assert Attributed(after[at + 1..], version) == [] + Attributed(after[at + 2..], version);
    }
  }

  lemma DatedHistory(lines: seq<string>, s: Stamp, date: string)
    requires Newest(lines) == Some(s) && DateShape(date)
    ensures History(lines[Top(lines) := Spell(HEADING, Stamp(s.version, date))]) == History(lines)
    ensures var after := lines[Top(lines) := Spell(HEADING, Stamp(s.version, date))];
            && Top(after) == Top(lines) && SectionEnd(after) == SectionEnd(lines) && Older(after) == Older(lines)
  {
    var after := lines[Top(lines) := Spell(HEADING, Stamp(s.version, date))];
    Redated(lines, Stamp(s.version, date));
    HeadingHere(after, Top(lines) + 1, SectionEnd(lines));
    assert after[Top(lines) + 1..] == lines[Top(lines) + 1..];
    HistoryFrom(lines, s, Top(lines) + 1);
    HistoryFrom(after, Stamp(s.version, date), Top(lines) + 1);
  }

  lemma StartedHistory(lines: seq<string>, s: Stamp, next: Stamp)
    requires Newest(lines) == Some(s) && WellFormed(next)
    ensures History(WithHeading(lines, next)) == History(lines)
    ensures var after := WithHeading(lines, next);
            && Top(after) == Top(lines) && SectionEnd(after) == Top(lines) + 2 && Older(after) == lines[Top(lines)..]
  {
    var after, top := WithHeading(lines, next), Top(lines);
    StartedTop(lines, next);
    assert after[top + 1] == "" && after[top + 2] == lines[top] && after[top + 2..] == lines[top..];
    HeadingHere(after, top + 1, top + 2);
    HistoryFrom(after, next, top + 2);
    var body := lines[top..];
    assert body[0] == lines[top] && IsHeading(body[0]);
  }
}
