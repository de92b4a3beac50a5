/**
 The release check, and what it asks of documents whose version places are in step.
 */
module ReleaseCheck {
  import opened Wrappers
  import opened Strings
  import opened ChangelogText
  import opened Changelog

  const UNRELEASED := "Unreleased"

  predicate Mentions(lines: seq<string>, word: string) {
    exists i :: 0 <= i < |lines| && Contains(lines[i], word)
  }

  predicate LabelledWith(line: string, k: int) {
    0 <= k < |LABELS| && StartsWith(line, "- [" + LABELS[k] + "] ")
  }

  predicate Labelled(line: string) {
    exists k :: 0 <= k < |LABELS| && LabelledWith(line, k)
  }

  predicate LabelledFrom(lines: seq<string>, from: int, end: int) {
    forall i :: 0 <= from <= i < end <= |lines| && IsEntry(lines[i]) ==> Labelled(lines[i])
  }

  predicate HeadingOf(line: string, version: string) {
    Parse(HEADING, line).Some? && Parse(HEADING, line).value.version == version
  }

  /** The first heading of one version, or the end. */
  function HeadingFor(lines: seq<string>, version: string): (r: nat)
    ensures r <= |lines| && (r < |lines| ==> HeadingOf(lines[r], version))
    ensures forall i :: 0 <= i < r ==> !HeadingOf(lines[i], version)
  {
    if lines == [] || HeadingOf(lines[0], version) then 0 else 1 + HeadingFor(lines[1..], version)
  }

  /** What the release check accepts. */
  predicate Passes(d: Documents) {
    && Versions(d.package) != [] && SemVer(Versions(d.package)[0])
    && var version := Versions(d.package)[0];
    && Versions(d.backend) != [] && Versions(d.backend)[0] == version
    && !Mentions(d.changelog, UNRELEASED)
    && var h := HeadingFor(d.changelog, version);
    && h < |d.changelog|
    && LabelledFrom(d.changelog, h + 1, NextHeading(d.changelog, h + 1))
    && Mentions(d.agents, Spell(AGENTS, Parse(HEADING, d.changelog[h]).value))
  }

  method CheckRelease(d: Documents) returns (passes: bool)
    ensures passes <==> Passes(d)
  {
    hide Labelled, Mentions, SemVer, Parse, Spell;
    if Versions(d.package) == [] || !SemVer(Versions(d.package)[0]) { return false; }
    var version := Versions(d.package)[0];
    if Versions(d.backend) == [] || Versions(d.backend)[0] != version { return false; }
    if Mentions(d.changelog, UNRELEASED) { return false; }
    var h := HeadingFor(d.changelog, version);
    if h == |d.changelog| { return false; }
    HeadingParsed(d.changelog, version);
    var end := NextHeading(d.changelog, h + 1);
    for i := h + 1 to end
      invariant LabelledFrom(d.changelog, h + 1, i)
    {
      if IsEntry(d.changelog[i]) && !Labelled(d.changelog[i]) { return false; }
    }
    return Mentions(d.agents, Spell(AGENTS, Parse(HEADING, d.changelog[h]).value));
  }

  lemma HeadingParsed(lines: seq<string>, version: string)
    requires HeadingFor(lines, version) < |lines|
    ensures Parse(HEADING, lines[HeadingFor(lines, version)]).Some?
  {
  }

  // ---------- Documents in step pass ----------

  predicate SectionLabelled(lines: seq<string>)
    requires Top(lines) < |lines|
  {
    LabelledFrom(lines, Top(lines) + 1, NextHeading(lines, Top(lines) + 1))
  }

  lemma {:induction false} HeadingForHere(lines: seq<string>, version: string, at: nat)
    requires at < |lines| && HeadingOf(lines[at], version)
    requires forall i :: 0 <= i < at ==> !HeadingOf(lines[i], version)
    ensures HeadingFor(lines, version) == at
  {
    hide HeadingOf;
    if at > 0 { HeadingForHere(lines[1..], version, at - 1); }
  }

  lemma HeadingOfIsHeading(line: string, version: string)
    requires HeadingOf(line, version)
    ensures IsHeading(line)
  {
    SpelledIsHeading(Parse(HEADING, line).value);
  }

  lemma NewestIsItsHeading(lines: seq<string>, s: Stamp)
    requires Newest(lines) == Some(s)
    ensures HeadingFor(lines, s.version) == Top(lines)
  {
    hide HeadingOf;
    assert HeadingOf(lines[Top(lines)], s.version) by { NewestIsHeadingOf(lines, s); }
    forall i | 0 <= i < Top(lines)
      ensures !HeadingOf(lines[i], s.version)
    {
      if HeadingOf(lines[i], s.version) { HeadingOfIsHeading(lines[i], s.version); }
    }
    HeadingForHere(lines, s.version, Top(lines));
  }

  lemma NewestIsHeadingOf(lines: seq<string>, s: Stamp)
    requires Newest(lines) == Some(s)
    ensures HeadingOf(lines[Top(lines)], s.version)
  {
  }

  lemma ContainsItself(s: string)
    ensures Contains(s, s)
  {
    assert OccursAt(s, s, 0);
  }

  /** Of documents in step, the check asks three things more and no others. */
  lemma PassesExactly(d: Documents, s: Stamp)
    requires InSync(d, s)
    ensures Passes(d) <==> SemVer(s.version) && !Mentions(d.changelog, UNRELEASED) && SectionLabelled(d.changelog)
  {
    hide SemVer, LabelledFrom, Contains, NextHeading, HeadingFor, NotesLine;
    NewestIsItsHeading(d.changelog, s);
    var line := d.agents[NotesLine(d.agents)];
    ContainsItself(line);
    assert line == Spell(AGENTS, s);
    assert Mentions(d.agents, Spell(AGENTS, s));
  }

  // ---------- Where a word can be ----------

  predicate NoLetter(s: string) {
    forall i :: 0 <= i < |s| ==> !Letter(s[i])
  }

  predicate AllLetters(s: string) {
    forall i :: 0 <= i < |s| ==> Letter(s[i])
  }

  /** A word found between two stretches without letters is found in what is between them. */
  lemma ContainedWithin(before: string, s: string, after: string, word: string)
    requires NoLetter(before) && NoLetter(after) && AllLetters(word) && word != ""
    requires after != "" && s != ""
    ensures Contains(before + s + after, word) <==> Contains(s, word)
  {
    var all, n, m := before + s + after, |before|, |word|;
    if i :| 0 <= i <= |s| && OccursAt(s, word, i) {
      assert all[n + i..n + i + m] == s[i..i + m];
      assert OccursAt(all, word, n + i);
    }
    if i :| 0 <= i <= |all| && OccursAt(all, word, i) {
      LettersThere(all, word, i);
      LettersInside(before, s, after, i, m);
      assert s[i - n..i - n + m] == all[i..i + m];
      assert OccursAt(s, word, i - n);
    }
  }

  /** A stretch of letters cannot reach out of the middle. */
  lemma LettersInside(before: string, s: string, after: string, i: int, m: nat)
    requires NoLetter(before) && NoLetter(after) && after != "" && m > 0 && 0 <= i
    requires var all := before + s + after; i + m <= |all| && forall k :: i <= k < i + m ==> Letter(all[k])
    ensures |before| <= i && i + m <= |before| + |s|
  {
    var all, n := before + s + after, |before| + |s|;
    assert forall k :: 0 <= k < |before| ==> all[k] == before[k];
    assert forall k :: n <= k < |all| ==> all[k] == after[k - n];
    assert Letter(all[i]) && Letter(all[i + m - 1]);
  }

  lemma LettersThere(s: string, word: string, i: int)
    requires OccursAt(s, word, i) && AllLetters(word)
    ensures forall k :: i <= k < i + |word| ==> Letter(s[k])
  {
    forall k | i <= k < i + |word|
      ensures Letter(s[k])
    {
      assert s[k] == s[i..i + |word|][k - i];
    }
  }

  /** Whether a heading says a word is a matter of its version alone. */
  lemma HeadingMentions(s: Stamp, word: string)
    requires WellFormed(s) && AllLetters(word) && word != ""
    ensures Contains(Spell(HEADING, s), word) <==> Contains(s.version, word)
  {
    var after := DASH + s.date;
    assert Spell(HEADING, s) == "## " + s.version + after;
    DateHasNoLetter(s.date);
    forall i | 0 <= i < |after|
      ensures !Letter(after[i])
    {
      assert after[i] == if i < 3 then DASH[i] else s.date[i - 3];
    }
    ContainedWithin("## ", s.version, after, word);
  }

  lemma DateHasNoLetter(date: string)
    requires DateShape(date)
    ensures NoLetter(date)
  {
    forall i | 0 <= i < 10
      ensures !Letter(date[i])
    {
      if i < 4 { assert date[..4][i] in date[..4]; }
      else if 4 < i < 7 { assert date[5..7][i - 5] in date[5..7]; }
      else if i > 7 { assert date[8..][i - 8] in date[8..]; }
    }
  }

  lemma UnreleasedIsAWord()
    ensures AllLetters(UNRELEASED) && UNRELEASED != ""
  {
  }

  /** A text without a word's first letter does not hold the word. */
  lemma WithoutFirst(s: string, word: string)
    requires word != "" && word[0] !in s
    ensures !Contains(s, word)
  {
    forall i | 0 <= i <= |s|
      ensures !OccursAt(s, word, i)
    {
      assert i + |word| <= |s| ==> s[i] in s && s[i..i + |word|][0] == s[i];
    }
  }

  lemma NumbersDoNotMention(v: string)
    requires VersionParts(v).Some?
    ensures !Contains(v, UNRELEASED)
  {
    hide VersionParts, Contains;
    PartsOnly(v);
    assert UNRELEASED[0] == 'U';
    WithoutFirst(v, UNRELEASED);
  }

  /** An edit of one line changes what the document mentions only by what that line does. */
  lemma MentionsEdited(lines: seq<string>, at: nat, line: string, word: string)
    requires at < |lines| && (Contains(lines[at], word) <==> Contains(line, word))
    ensures Mentions(lines[at := line], word) <==> Mentions(lines, word)
  {
    hide Contains;
    var after := lines[at := line];
    if i :| 0 <= i < |lines| && Contains(lines[i], word) { assert Contains(after[i], word); }
    if i :| 0 <= i < |after| && Contains(after[i], word) { assert Contains(lines[i], word); }
  }

  lemma MentionsJoined(a: seq<string>, c: seq<string>, word: string)
    ensures Mentions(a + c, word) <==> Mentions(a, word) || Mentions(c, word)
  {
    hide Contains;
    var all := a + c;
    if i :| 0 <= i < |a| && Contains(a[i], word) { assert all[i] == a[i]; }
    if i :| 0 <= i < |c| && Contains(c[i], word) { assert all[|a| + i] == c[i]; }
    if i :| 0 <= i < |all| && Contains(all[i], word) {
      if i < |a| { assert Contains(a[i], word); } else { assert Contains(c[i - |a|], word); }
    }
  }

  /** Lines put in somewhere are mentioned besides those that were there. */
  lemma MentionsInserted(lines: seq<string>, at: nat, more: seq<string>, word: string)
    requires at <= |lines|
    ensures Mentions(lines[..at] + more + lines[at..], word) <==> Mentions(lines, word) || Mentions(more, word)
  {
    MentionsJoined(lines[..at] + more, lines[at..], word);
    MentionsJoined(lines[..at], more, word);
    MentionsJoined(lines[..at], lines[at..], word);
    assert lines[..at] + lines[at..] == lines;
  }

  lemma MentionsFew(line: string, word: string)
    requires word != ""
    ensures Mentions([line], word) <==> Contains(line, word)
    ensures Mentions([line, ""], word) <==> Contains(line, word)
  {
    assert !Contains("", word);
    if Contains(line, word) {
      assert Contains([line][0], word) && Contains([line, ""][0], word);
    }
  }
}
