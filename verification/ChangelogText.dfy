/**
 The text of the four documents that carry the version: headings, entries, version numbers and dates.

 A document is its lines. Digits are the ASCII ones.
 */
module ChangelogText {
  import opened Wrappers
  import opened Strings

  const EM_DASH := '\U{2014}'
  const DASH: string := [' ', EM_DASH, ' ']

  /** The characters a document is split into lines at; each of them is whitespace. */
  predicate Break(c: char) {
    var n := c as int;
    10 <= n <= 13 || 28 <= n <= 30 || n == 0x85 || n == 0x2028 || n == 0x2029
  }

  predicate Letter(c: char) {
    'a' <= c <= 'z' || 'A' <= c <= 'Z'
  }

  predicate NoSpace(s: string) {
    forall c :: c in s ==> !Space(c)
  }

  predicate Blank(s: string) {
    forall c :: c in s ==> Space(c)
  }

  // ---------- Dates and stamps ----------

  predicate DateShape(s: string) {
    |s| == 10 && AllDigits(s[..4]) && s[4] == '-' && AllDigits(s[5..7]) && s[7] == '-' && AllDigits(s[8..])
  }

  /** A version and its date, as a heading and the developers' notes carry them. */
  datatype Stamp = Stamp(version: string, date: string)

  /** What stands around a stamp: nothing else is on its line. */
  datatype Frame = Frame(open: string, close: string)

  const HEADING := Frame("## ", "")
  const AGENTS := Frame("Current development version: **", "**")

  function Spell(f: Frame, s: Stamp): string {
    f.open + s.version + DASH + s.date + f.close
  }

  predicate WellFormed(s: Stamp) {
    s.version != "" && NoSpace(s.version) && DateShape(s.date)
  }

  function Parse(f: Frame, line: string): (r: Option<Stamp>)
    ensures r.Some? ==> WellFormed(r.value) && line == Spell(f, r.value)
  {
    var first, last := |f.open|, |line| - |f.close|;
    if last - 13 <= first then None
    else
      var s := Stamp(line[first..last - 13], line[last - 10..last]);
      if WellFormed(s) && line == Spell(f, s) then Some(s) else None
  }

  lemma ParseSpelled(f: Frame, s: Stamp)
    requires WellFormed(s)
    ensures Parse(f, Spell(f, s)) == Some(s)
  {
    var line := Spell(f, s);
    assert line[|f.open|..|f.open| + |s.version|] == s.version;
    assert line[|line| - |f.close| - 10..|line| - |f.close|] == s.date;
  }

  // ---------- Entries ----------

  const LABELS := ["New", "Changed", "Fixed", "Security", "Limitation"]

  datatype Refusal = NotOneLine | NoLabel | UnknownLabel | HasEmDash | NoSections | MalformedHeading | OutOfSync
    | BadDate | NoAgentsLine | NoVersionLine | NoEntriesYet | NotReleased | NotAVersion | NotAfter | MinorMoved

  /** No two blanks in a row. */
  ghost predicate SingleBlanks(s: string) {
    forall i, j :: 0 <= i < j < |s| && j == i + 1 ==> !(s[i] == ' ' && s[j] == ' ')
  }

  lemma {:induction false} StripSingle(s: string)
    requires SingleBlanks(s)
    ensures SingleBlanks(Strip(s))
  {
    LeftSingle(s);
    var l := LeftStrip(s);
    assert RightStrip(l) == l[..|RightStrip(l)|];
  }

  lemma {:induction false} LeftSingle(s: string)
    requires SingleBlanks(s)
    ensures SingleBlanks(LeftStrip(s))
  {
    if s != "" && Space(s[0]) { LeftSingle(s[1..]); }
  }

  /** Every run of whitespace as one space. */
  function Collapse(s: string): (r: string)
    ensures forall c :: c in r && Space(c) ==> c == ' '
    ensures SingleBlanks(r)
    ensures r != "" && s != "" && !Space(s[0]) ==> r[0] == s[0]
    decreases |s|
  {
    if s == "" then ""
    else if !Space(s[0]) then [s[0]] + Collapse(s[1..])
    else [' '] + Collapse(LeftStrip(s[1..]))
  }

  /** How many letters `s` begins with. */
  function LettersFrom(s: string): (n: nat)
    ensures n <= |s| && (forall i :: 0 <= i < n ==> Letter(s[i])) && (n < |s| ==> !Letter(s[n]))
  {
    if s == "" || !Letter(s[0]) then 0 else 1 + LettersFrom(s[1..])
  }

  /** The label an entry starts with, if it does and then says something. */
  function LabelOf(entry: string): (r: Option<string>)
    ensures r.Some? ==> StartsWith(entry, "[" + r.value + "] ")
  {
    if !StartsWith(entry, "[") then None
    else
      var n := LettersFrom(entry[1..]);
      if 0 < n && n + 3 < |entry| && entry[n + 1] == ']' && entry[n + 2] == ' ' && !Space(entry[n + 3]) then
        Some(entry[1..n + 1])
      else None
  }

  function EntryFrom(text: string): (r: Result<string, Refusal>)
    ensures r.Success? ==> exists name :: name in LABELS && StartsWith(r.value, "[" + name + "] ")
    ensures r.Success? ==> (forall c :: c in r.value && Space(c) ==> c == ' ') && SingleBlanks(r.value)
  {
    if '\n' in Strip(text) then Failure(NotOneLine)
    else
      var collapsed := Collapse(Strip(text));
      var entry := if StartsWith(collapsed, "- ") then Strip(collapsed[2..]) else collapsed;
      StripSingle(collapsed[if StartsWith(collapsed, "- ") then 2 else 0..]);
      StripKeeps(collapsed[if StartsWith(collapsed, "- ") then 2 else 0..]);
      var name := LabelOf(entry);
      if name.None? then Failure(NoLabel)
      else if name.value !in LABELS then Failure(UnknownLabel)
      else if EM_DASH in entry then Failure(HasEmDash)
      else Success(entry)
  }

  // ---------- Version numbers ----------

  datatype Parts = Parts(major: nat, minor: nat, patch: nat) {
    predicate Before(that: Parts) {
      major < that.major || (major == that.major && minor < that.minor)
      || (major == that.major && minor == that.minor && patch < that.patch)
    }
  }

  function Value(digits: string): nat
    requires AllDigits(digits)
  {
    if digits == "" then 0
    else
      assert digits[|digits| - 1] in digits;
      10 * Value(digits[..|digits| - 1]) + (digits[|digits| - 1] as int - '0' as int)
  }

  function Show(n: nat): (s: string)
    ensures AllDigits(s) && s != "" && Value(s) == n
    ensures s[0] == '0' ==> s == "0"
  {
    if n < 10 then
      var s := [('0' as int + n) as char];
      assert s[..|s| - 1] == "";
      s
    else
      var last := [('0' as int + n % 10) as char];
      assert (Show(n / 10) + last)[..|Show(n / 10)|] == Show(n / 10);
      assert Value(Show(n / 10)) == n / 10 >= 1;
      ShownPositive(Show(n / 10));
      Show(n / 10) + last
  }

  lemma ShownPositive(s: string)
    requires AllDigits(s) && s != "" && Value(s) >= 1
    ensures s != "0"
  {
    assert "0"[..0] == "" && Value("0") == 0;
  }

  /** How many digits `s` begins with. */
  function DigitsFrom(s: string): (n: nat)
    ensures n <= |s| && AllDigits(s[..n]) && (n < |s| ==> !Digit(s[n]))
  {
    if s == "" || !Digit(s[0]) then 0
    else
      assert s[..1 + DigitsFrom(s[1..])] == [s[0]] + s[1..][..DigitsFrom(s[1..])];
      1 + DigitsFrom(s[1..])
  }

  /** The digits before the first dot, and what follows it. */
  function Head(s: string): (r: Option<(string, string)>)
    ensures r.Some? ==> r.value.0 != "" && AllDigits(r.value.0) && s == r.value.0 + "." + r.value.1
  {
    var n := DigitsFrom(s);
    if n == 0 || n == |s| || s[n] != '.' then None else Some((s[..n], s[n + 1..]))
  }

  /** A line feed at the end, which Python's `$` overlooks. */
  predicate EndsInNewline(v: string) {
    v != "" && v[|v| - 1] == '\n'
  }

  function Core(v: string): string {
    if EndsInNewline(v) then v[..|v| - 1] else v
  }

  /** Three numbers with dots between them and nothing else, but for one line feed at the end. */
  function VersionParts(v: string): (r: Option<Parts>) {
    CoreParts(Core(v))
  }

  function CoreParts(v: string): (r: Option<Parts>) {
    var first := Head(v);
    if first.None? then None
    else
      var second := Head(first.value.1);
      if second.None? || second.value.1 == "" || !AllDigits(second.value.1) then None
      else Some(Parts(Value(first.value.0), Value(second.value.0), Value(second.value.1)))
  }

  /** There is nothing but digits and dots in a version the tool can read, and that line feed. */
  lemma PartsOnly(v: string)
    requires VersionParts(v).Some?
    ensures v != "" && forall c :: c in Core(v) ==> Digit(c) || c == '.'
    ensures forall c :: c in v ==> Digit(c) || c == '.' || c == '\n'
    ensures NoSpace(v) <==> !EndsInNewline(v)
  {
    CoreOnly(Core(v));
    if EndsInNewline(v) {
      assert v == Core(v) + ['\n'] && '\n' in v;
    }
  }

  lemma CoreOnly(v: string)
    requires CoreParts(v).Some?
    ensures v != "" && forall c :: c in v ==> Digit(c) || c == '.'
  {
    var first := Head(v);
    var second := Head(first.value.1);
    assert v == first.value.0 + "." + (second.value.0 + "." + second.value.1);
  }

  function ShowParts(p: Parts): string {
    Show(p.major) + "." + Show(p.minor) + "." + Show(p.patch)
  }

  lemma {:induction false} DigitsThenDot(digits: string, rest: string)
    requires AllDigits(digits) && (rest == "" || !Digit(rest[0]))
    ensures DigitsFrom(digits + rest) == |digits|
  {
    var s := digits + rest;
    if digits != "" {
      assert s[0] == digits[0] && digits[0] in digits;
      assert s[1..] == digits[1..] + rest;
      DigitsThenDot(digits[1..], rest);
    } else {
      assert s == rest;
    }
  }

  lemma HeadRead(digits: string, rest: string)
    requires AllDigits(digits) && digits != ""
    ensures Head(digits + "." + rest) == Some((digits, rest))
  {
    var s := digits + ("." + rest);
    assert digits + "." + rest == s;
    DigitsThenDot(digits, "." + rest);
    assert s[..|digits|] == digits && s[|digits|] == '.' && s[|digits| + 1..] == rest;
  }

  lemma ThreeRead(a: string, b: string, c: string)
    requires AllDigits(a) && AllDigits(b) && AllDigits(c) && a != "" && b != "" && c != ""
    ensures VersionParts(a + "." + b + "." + c) == Some(Parts(Value(a), Value(b), Value(c)))
  {
    assert Digit(c[|c| - 1]) by { assert c[|c| - 1] in c; }
    hide Value, Head, AllDigits;
    var v := a + "." + b + "." + c;
    assert v[|v| - 1] == c[|c| - 1];
    assert v == a + "." + (b + "." + c);
    HeadRead(a, b + "." + c);
    HeadRead(b, c);
  }

  /** A version printed from its parts reads back as those parts. */
  lemma PartsRoundTrip(p: Parts)
    ensures VersionParts(ShowParts(p)) == Some(p)
  {
    ThreeRead(Show(p.major), Show(p.minor), Show(p.patch));
  }

  /** A number as SemVer writes it: no leading zero. */
  predicate Number(s: string) {
    s != "" && AllDigits(s) && (s[0] == '0' ==> s == "0")
  }

  predicate Identifiers(s: string) {
    && s != "" && s[0] != '.' && s[|s| - 1] != '.'
    && (forall c :: c in s ==> Digit(c) || Letter(c) || c == '-' || c == '.')
    && forall i :: 0 <= i < |s| - 1 ==> !(s[i] == '.' && s[i + 1] == '.')
  }

  predicate SemVerAt(v: string, i: int, j: int, k: int, m: int) {
    && 0 <= i < j < k <= m <= |v|
    && Number(v[..i]) && v[i] == '.' && Number(v[i + 1..j]) && v[j] == '.' && Number(v[j + 1..k])
    && (v[k..m] == "" || (v[k] == '-' && Identifiers(v[k + 1..m])))
    && (v[m..] == "" || (v[m] == '+' && Identifiers(v[m + 1..])))
  }

  predicate SemVer(v: string) {
    exists i, j, k, m :: 0 <= i <= |v| && 0 <= j <= |v| && 0 <= k <= |v| && 0 <= m <= |v| && SemVerAt(v, i, j, k, m)
  }

  /** No SemVer version ends in a line feed. */
  lemma SemVerEnds(v: string)
    requires SemVer(v)
    ensures !EndsInNewline(v)
  {
    var i, j, k, m :| 0 <= i <= |v| && 0 <= j <= |v| && 0 <= k <= |v| && 0 <= m <= |v| && SemVerAt(v, i, j, k, m);
    var last := v[|v| - 1];
    if m < |v| {
      assert v[m + 1..][|v| - m - 2] == last && last in v[m + 1..];
    } else if k < m {
      assert v[k + 1..m][|v| - k - 2] == last && last in v[k + 1..m];
    } else {
      assert v[j + 1..k][|v| - j - 2] == last && last in v[j + 1..k];
    }
  }

  /** What the tool prints is a SemVer version. */
  lemma ShownIsSemVer(p: Parts)
    ensures SemVer(ShowParts(p))
  {
    var a, b, c := Show(p.major), Show(p.minor), Show(p.patch);
    var v := ShowParts(p);
    var i, j := |a|, |a| + 1 + |b|;
    assert v[..i] == a && v[i + 1..j] == b && v[j + 1..|v|] == c && v[|v|..|v|] == "" && v[|v|..] == "";
    assert SemVerAt(v, i, j, |v|, |v|);
  }
}
