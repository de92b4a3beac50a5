/**
 The regular expression that `--name` and `--exclude` phrases compile to for vitest, and what that
 expression finds.

 Only the part of ECMA-262 section 22.2 that such an expression can hold is modelled: characters and
 escaped characters, `.`, `.*`, `^`, alternatives, groups that capture nothing, and lookaheads.
 Anything else is read as no expression at all.
 */
module VitestFilter {
  import opened Sequences
  import opened Strings
  import opened Wrappers

  /** The characters a regular expression gives a meaning of its own, and `/`. */
  predicate IsSpecial(c: char) {
    c in {'.', '*', '+', '?', '^', '$', '{', '}', '(', ')', '|', '[', ']', '\\', '/'}
  }

  /** A phrase as the text it is. */
  function Escape(phrase: string): string {
    if phrase == "" then ""
    else (if IsSpecial(phrase[0]) then "\\" else "") + [phrase[0]] + Escape(phrase[1..])
  }

  function Alternatives(phrases: seq<string>): string {
    if phrases == [] then ""
    else if |phrases| == 1 then "(?:" + Escape(phrases[0]) + ")"
    else "(?:" + Escape(phrases[0]) + ")" + "|" + Alternatives(phrases[1..])
  }

  function AnyOf(phrases: seq<string>): string {
    if |phrases| == 1 then Escape(phrases[0]) else Alternatives(phrases)
  }

  function Filter(names: seq<string>, excludes: seq<string>): string {
    if excludes == [] then AnyOf(names)
    else
      var pattern := "^(?!.*(?:" + AnyOf(excludes) + "))";
      if names != [] then pattern + "(?=.*(?:" + AnyOf(names) + "))" else pattern
  }

  // ---------------------------------------------------------------- regular expressions

  datatype Regex =
    | Empty
    | Char(c: char)
    | Dot
    | AnyRun                                  // .*
    | AtStart                                 // ^
    | Cat(first: Regex, second: Regex)
    | Alt(left: Regex, right: Regex)
    | Ahead(inner: Regex, negative: bool)

  predicate IsLineTerminator(c: char) {
    c == '\n' || c == '\r' || c == '\U{2028}' || c == '\U{2029}'
  }

  /** `.*` covers a stretch when there is no line terminator in it. */
  predicate OneLine(s: string) {
    forall i :: 0 <= i < |s| ==> !IsLineTerminator(s[i])
  }

  /** `r` matches `s` from `i` up to `j`. */
  ghost predicate Matches(r: Regex, s: string, i: nat, j: nat)
    requires i <= |s| && j <= |s|
    decreases r, 0
  {
    match r
    case Empty => i == j
    case Char(c) => j == i + 1 && s[i] == c
    case Dot => j == i + 1 && !IsLineTerminator(s[i])
    case AnyRun => i <= j && OneLine(s[i..j])
    case AtStart => i == j == 0
    case Cat(first, second) => exists k: nat :: k <= |s| && Matches(first, s, i, k) && Matches(second, s, k, j)
    case Alt(left, right) => Matches(left, s, i, j) || Matches(right, s, i, j)
    case Ahead(inner, negative) => i == j && (negative <==> !MatchesFrom(inner, s, i))
  }

  ghost predicate MatchesFrom(r: Regex, s: string, i: nat)
    requires i <= |s|
    decreases r, 1
  {
    exists k: nat :: k <= |s| && Matches(r, s, i, k)
  }

  /** Whether a search for `r` finds something anywhere in `s`. */
  ghost predicate Finds(r: Regex, s: string) {
    exists i: nat :: i <= |s| && MatchesFrom(r, s, i)
  }

  type Parse = Option<(Regex, string)>

  predicate IsQuantifier(s: string) {
    s != "" && s[0] in {'*', '+', '?', '{'}
  }

  function ParseDisjunction(s: string): (r: Parse)
    ensures r.Some? ==> |r.value.1| <= |s|
    decreases |s|, 2
  {
    match ParseAlternative(s)
    case None => None
    case Some((left, rest)) =>
      if rest != "" && rest[0] == '|' then
        match ParseDisjunction(rest[1..])
        case None => None
        case Some((right, after)) => Some((Alt(left, right), after))
      else Some((left, rest))
  }

  function ParseAlternative(s: string): (r: Parse)
    ensures r.Some? ==> |r.value.1| <= |s|
    decreases |s|, 1
  {
    if s == "" || s[0] == '|' || s[0] == ')' then Some((Empty, s))
    else
      match ParseTerm(s)
      case None => None
      case Some((first, rest)) =>
        match ParseAlternative(rest)
        case None => None
        case Some((second, after)) => Some((Cat(first, second), after))
  }

  function ParseTerm(s: string): (r: Parse)
    requires s != ""
    ensures r.Some? ==> |r.value.1| < |s|
    decreases |s|, 0
  {
    if s[0] == '^' then Some((AtStart, s[1..]))
    else if s[0] == '.' then
      if |s| > 1 && s[1] == '*' then Some((AnyRun, s[2..]))
      else if IsQuantifier(s[1..]) then None else Some((Dot, s[1..]))
    else if s[0] == '\\' then
      if |s| > 1 && IsSpecial(s[1]) && !IsQuantifier(s[2..]) then Some((Char(s[1]), s[2..])) else None
    else if s[0] == '(' then
      if |s| > 2 && s[1] == '?' && s[2] in {':', '=', '!'} then
        match ParseDisjunction(s[3..])
        case None => None
        case Some((inner, rest)) =>
          if rest == "" || rest[0] != ')' || IsQuantifier(rest[1..]) then None
          else if s[2] == ':' then Some((inner, rest[1..]))
          else Some((Ahead(inner, s[2] == '!'), rest[1..]))
      else None
    else if IsSpecial(s[0]) || IsQuantifier(s[1..]) then None
    else Some((Char(s[0]), s[1..]))
  }

  /** The expression a pattern is, all of it. */
  function Read(pattern: string): Option<Regex> {
    match ParseDisjunction(pattern)
    case None => None
    case Some((r, rest)) => if rest == "" then Some(r) else None
  }

  // ---------------------------------------------------------------- reading what was compiled

  /** The expression for a literal text. */
  function Literal(p: string): Regex {
    if p == "" then Empty else Cat(Char(p[0]), Literal(p[1..]))
  }

  predicate Closes(rest: string) {
    rest == "" || rest[0] == '|' || rest[0] == ')'
  }

  lemma EscapeHead(p: string, rest: string)
    requires Closes(rest)
    ensures !IsQuantifier(Escape(p) + rest)
  {
    if p == "" {
      assert Escape(p) + rest == rest;
    }
  }

  /** One escaped character reads as itself, whatever stands for the rest of the phrase. */
  lemma EscapedCharReads(c: char, after: string)
    requires !IsQuantifier(after)
    ensures var s := (if IsSpecial(c) then "\\" else "") + [c] + after;
      && s != "" && !Closes(s) && ParseTerm(s) == Some((Char(c), after))
  {
    if IsSpecial(c) {
      var s := "\\" + [c] + after;
      assert s[0] == '\\' && s[1] == c && s[2..] == after;
    } else {
      var s := "" + [c] + after;
      assert s[0] == c && s[1..] == after;
    }
  }

  /** An escaped phrase reads back as the literal phrase. */
  lemma {:induction false} EscapeReads(p: string, rest: string)
    requires Closes(rest)
    ensures ParseAlternative(Escape(p) + rest) == Some((Literal(p), rest))
    decreases p
  {
    hide IsSpecial, ParseTerm, IsQuantifier;
    if p == "" {
      assert Escape(p) + rest == rest;
    } else {
      EscapeHead(p[1..], rest);
      ConcatAssociates((if IsSpecial(p[0]) then "\\" else "") + [p[0]], Escape(p[1..]), rest);
      EscapedCharReads(p[0], Escape(p[1..]) + rest);
      EscapeReads(p[1..], rest);
    }
  }

  /** The expression that several phrases, each in a group, read as. */
  function Choice(phrases: seq<string>): Regex
    requires phrases != []
    decreases phrases
  {
    var first := Cat(Literal(phrases[0]), Empty);
    if |phrases| == 1 then first else Alt(first, Choice(phrases[1..]))
  }

  function AnyOfRegex(phrases: seq<string>): Regex
    requires phrases != []
  {
    if |phrases| == 1 then Literal(phrases[0]) else Choice(phrases)
  }

  lemma GroupReads(kind: char, inner: string, r: Regex, rest: string)
    requires kind in {':', '=', '!'}
    requires ParseDisjunction(inner + (")" + rest)) == Some((r, ")" + rest))
    requires !IsQuantifier(rest)
    ensures ParseTerm(['(', '?', kind] + inner + ")" + rest)
         == Some((if kind == ':' then r else Ahead(r, kind == '!'), rest))
  {
    var s := ['(', '?', kind] + inner + ")" + rest;
    assert s[3..] == inner + (")" + rest);
    assert (")" + rest)[1..] == rest;
  }

  lemma PhraseGroupReads(p: string, rest: string)
    requires !IsQuantifier(rest)
    ensures ParseTerm("(?:" + Escape(p) + ")" + rest) == Some((Literal(p), rest))
  {
    EscapeReads(p, ")" + rest);
    GroupReads(':', Escape(p), Literal(p), rest);
  }

  /** A phrase's group as a whole alternative. */
  lemma GroupAlone(p: string, rest: string)
    requires Closes(rest)
    ensures ParseAlternative("(?:" + Escape(p) + ")" + rest) == Some((Cat(Literal(p), Empty), rest))
  {
    PhraseGroupReads(p, rest);
    assert ParseAlternative(rest) == Some((Empty, rest));
    assert ("(?:" + Escape(p) + ")" + rest)[0] == '(';
  }

  lemma AlternativesSplit(phrases: seq<string>, rest: string)
    requires |phrases| > 1
    ensures Alternatives(phrases) + rest
         == "(?:" + Escape(phrases[0]) + ")" + ("|" + (Alternatives(phrases[1..]) + rest))
  {
    var head, tail := "(?:" + Escape(phrases[0]) + ")", Alternatives(phrases[1..]);
    ConcatAssociates(head + "|", tail, rest);
    ConcatAssociates(head, "|", tail + rest);
  }

  lemma {:induction false} AlternativesRead(phrases: seq<string>, rest: string)
    requires phrases != [] && (rest == "" || rest[0] == ')')
    ensures ParseDisjunction(Alternatives(phrases) + rest) == Some((Choice(phrases), rest))
    decreases phrases
  {
    if |phrases| == 1 {
      GroupAlone(phrases[0], rest);
    } else {
      var after := "|" + (Alternatives(phrases[1..]) + rest);
      AlternativesSplit(phrases, rest);
      GroupAlone(phrases[0], after);
      AlternativesRead(phrases[1..], rest);
      TakeDrop("|", Alternatives(phrases[1..]) + rest);
    }
  }

  lemma AnyOfReads(phrases: seq<string>, rest: string)
    requires phrases != [] && (rest == "" || rest[0] == ')')
    ensures ParseDisjunction(AnyOf(phrases) + rest) == Some((AnyOfRegex(phrases), rest))
  {
    if |phrases| == 1 {
      EscapeReads(phrases[0], rest);
    } else {
      AlternativesRead(phrases, rest);
    }
  }

  /** A lookahead for any of the phrases somewhere on the line. */
  function Somewhere(phrases: seq<string>, negative: bool): Regex
    requires phrases != []
  {
    Ahead(Cat(AnyRun, Cat(AnyOfRegex(phrases), Empty)), negative)
  }

  function SomewhereText(phrases: seq<string>, negative: bool): string {
    (if negative then "(?!" else "(?=") + ".*(?:" + AnyOf(phrases) + "))"
  }

  lemma SomewhereReads(phrases: seq<string>, negative: bool, rest: string)
    requires phrases != [] && !IsQuantifier(rest)
    ensures ParseTerm(SomewhereText(phrases, negative) + rest) == Some((Somewhere(phrases, negative), rest))
  {
    hide ParseTerm, AnyOf, AnyOfRegex, IsQuantifier;
    var kind := if negative then '!' else '=';
    var close := ")" + rest;
    var body := Cat(AnyOfRegex(phrases), Empty);
    AnyOfGroupReads(phrases, close);
    RunThenReads("(?:" + AnyOf(phrases) + ")", body, close);
    GroupReads(kind, ".*" + ("(?:" + AnyOf(phrases) + ")"), Cat(AnyRun, body), rest);
    SomewhereSpelled(AnyOf(phrases), negative, rest);
  }

  lemma SomewhereSpelled(x: string, negative: bool, rest: string)
    ensures (if negative then "(?!" else "(?=") + ".*(?:" + x + "))" + rest
         == ['(', '?', if negative then '!' else '='] + (".*" + ("(?:" + x + ")")) + ")" + rest
  {
  }

  /** The group of alternatives, as all there is before the parenthesis that follows. */
  lemma AnyOfGroupReads(phrases: seq<string>, close: string)
    requires phrases != [] && close != "" && close[0] == ')'
    ensures ParseAlternative("(?:" + AnyOf(phrases) + ")" + close) == Some((Cat(AnyOfRegex(phrases), Empty), close))
  {
    hide AnyOf, AnyOfRegex;
    var group := "(?:" + AnyOf(phrases) + ")";
    AnyOfReads(phrases, ")" + close);
    GroupReads(':', AnyOf(phrases), AnyOfRegex(phrases), close);
    assert ParseAlternative(close) == Some((Empty, close));
    assert (group + close)[0] == '(';
  }

  lemma RunThenReads(group: string, body: Regex, close: string)
    requires ParseAlternative(group + close) == Some((body, close))
    requires close != "" && close[0] == ')'
    ensures ParseDisjunction(".*" + group + (")" + close[1..])) == Some((Cat(AnyRun, body), close))
  {
    hide ParseAlternative;
    assert close == ")" + close[1..];
    ConcatAssociates(".*", group, close);
    RunThen(group + close, body, close);
  }

  lemma RunThen(rest: string, body: Regex, close: string)
    requires ParseAlternative(rest) == Some((body, close))
    ensures ParseAlternative(".*" + rest) == Some((Cat(AnyRun, body), close))
  {
    hide ParseTerm;
    AnyRunReads(rest);
    assert (".*" + rest)[0] == '.';
  }

  lemma AnyRunReads(rest: string)
    ensures ParseTerm(".*" + rest) == Some((AnyRun, rest))
  {
    assert (".*" + rest)[0] == '.' && (".*" + rest)[1] == '*' && (".*" + rest)[2..] == rest;
  }

  /** The expression a whole filter reads as. */
  function FilterRegex(names: seq<string>, excludes: seq<string>): Regex
    requires names != [] || excludes != []
  {
    if excludes == [] then AnyOfRegex(names)
    else
      Cat(AtStart, Cat(Somewhere(excludes, true),
                       if names == [] then Empty else Cat(Somewhere(names, false), Empty)))
  }

  lemma AnchoredReads(body: string, r: Regex)
    requires ParseAlternative(body) == Some((r, ""))
    ensures Read("^" + body) == Some(Cat(AtStart, r))
  {
    var s := "^" + body;
    assert s[0] == '^' && s[1..] == body;
    assert ParseTerm(s) == Some((AtStart, body));
    assert ParseAlternative(s) == Some((Cat(AtStart, r), ""));
  }

  /** Every filter is a well-formed expression, the one it was meant to be. */
  lemma FilterReads(names: seq<string>, excludes: seq<string>)
    requires names != [] || excludes != []
    ensures Read(Filter(names, excludes)) == Some(FilterRegex(names, excludes))
  {
    if excludes == [] {
      AnyOfReads(names, "");
      assert AnyOf(names) + "" == AnyOf(names);
    } else {
      var tail := if names == [] then "" else SomewhereText(names, false);
      if names != [] {
        SomewhereReads(names, false, "");
        assert tail + "" == tail;
        assert ParseAlternative("") == Some((Empty, ""));
        assert ParseAlternative(tail) == Some((Cat(Somewhere(names, false), Empty), ""));
      }
      SomewhereReads(excludes, true, tail);
      var body := SomewhereText(excludes, true) + tail;
      var keep := if names == [] then Empty else Cat(Somewhere(names, false), Empty);
      assert body[0] == '(';
      assert ParseAlternative(tail) == Some((keep, ""));
      assert ParseAlternative(body) == Some((Cat(Somewhere(excludes, true), keep), ""));
      FilterSplits(names, excludes);
      AnchoredReads(body, Cat(Somewhere(excludes, true), keep));
    }
  }

  lemma FilterSplits(names: seq<string>, excludes: seq<string>)
    requires excludes != []
    ensures Filter(names, excludes)
         == "^" + (SomewhereText(excludes, true) + if names == [] then "" else SomewhereText(names, false))
  {
    var x := AnyOf(excludes);
    assert "^(?!.*(?:" + x + "))" == "^" + ("(?!" + ".*(?:" + x + "))");
    if names != [] {
      var y := AnyOf(names);
      assert "^" + SomewhereText(excludes, true) + "(?=.*(?:" + y + "))"
          == "^" + (SomewhereText(excludes, true) + ("(?=" + ".*(?:" + y + "))"));
    }
  }

  // ---------------------------------------------------------------- what it finds

  /** The text holds `p`, beginning on its first line. */
  ghost predicate HoldsOnFirstLine(s: string, p: string) {
    exists i :: OccursAt(s, p, i) && OneLine(s[..i])
  }

  lemma NoCat(first: Regex, second: Regex, s: string, i: nat, j: nat)
    requires i <= |s| && j <= |s|
    requires forall k: nat :: k <= |s| ==> !(Matches(first, s, i, k) && Matches(second, s, k, j))
    ensures !Matches(Cat(first, second), s, i, j)
  {
  }

  lemma CatSplits(first: Regex, second: Regex, s: string, i: nat, j: nat) returns (k: nat)
    requires i <= |s| && j <= |s| && Matches(Cat(first, second), s, i, j)
    ensures k <= |s| && Matches(first, s, i, k) && Matches(second, s, k, j)
  {
    if forall k: nat :: k <= |s| ==> !(Matches(first, s, i, k) && Matches(second, s, k, j)) {
      NoCat(first, second, s, i, j);
    }
    k :| k <= |s| && Matches(first, s, i, k) && Matches(second, s, k, j);
  }

  lemma NoneFrom(r: Regex, s: string, i: nat)
    requires i <= |s|
    requires forall k: nat :: k <= |s| ==> !Matches(r, s, i, k)
    ensures !MatchesFrom(r, s, i)
  {
  }

  lemma EndOf(r: Regex, s: string, i: nat) returns (k: nat)
    requires i <= |s| && MatchesFrom(r, s, i)
    ensures k <= |s| && Matches(r, s, i, k)
  {
    if forall k: nat :: k <= |s| ==> !Matches(r, s, i, k) {
      NoneFrom(r, s, i);
    }
    k :| k <= |s| && Matches(r, s, i, k);
  }

  lemma {:induction false} LiteralMatches(p: string, s: string, i: nat, j: nat)
    requires i <= |s| && j <= |s|
    ensures Matches(Literal(p), s, i, j) <==> j == i + |p| && OccursAt(s, p, i)
    decreases p
  {
    if p == "" {
      assert s[i..i] == "";
    } else {
      if i < |s| {
        LiteralMatches(p[1..], s, i + 1, j);
      }
      if j == i + |p| && OccursAt(s, p, i) {
        assert s[i] == s[i..i + |p|][0] == p[0];
        assert s[i + 1..i + |p|] == s[i..i + |p|][1..] == p[1..];
        assert Matches(Char(p[0]), s, i, i + 1);
      }
      if Matches(Literal(p), s, i, j) {
        var k := CatSplits(Char(p[0]), Literal(p[1..]), s, i, j);
        assert s[i..j] == [s[i]] + s[i + 1..j];
        assert p == [p[0]] + p[1..];
      }
    }
  }

  lemma ThenEmpty(r: Regex, s: string, i: nat, j: nat)
    requires i <= |s| && j <= |s|
    ensures Matches(Cat(r, Empty), s, i, j) <==> Matches(r, s, i, j)
  {
    if Matches(r, s, i, j) {
      assert Matches(Empty, s, j, j);
    }
  }

  lemma {:induction false} ChoiceMatches(phrases: seq<string>, s: string, i: nat, j: nat)
    requires phrases != [] && i <= |s| && j <= |s|
    ensures Matches(Choice(phrases), s, i, j) <==> exists p :: p in phrases && j == i + |p| && OccursAt(s, p, i)
    decreases phrases
  {
    ThenEmpty(Literal(phrases[0]), s, i, j);
    LiteralMatches(phrases[0], s, i, j);
    if |phrases| > 1 {
      ChoiceMatches(phrases[1..], s, i, j);
      assert forall p :: p in phrases <==> p == phrases[0] || p in phrases[1..];
    } else {
      assert forall p :: p in phrases <==> p == phrases[0];
    }
  }

  lemma AnyOfMatches(phrases: seq<string>, s: string, i: nat, j: nat)
    requires phrases != [] && i <= |s| && j <= |s|
    ensures Matches(AnyOfRegex(phrases), s, i, j) <==> exists p :: p in phrases && j == i + |p| && OccursAt(s, p, i)
  {
    if |phrases| == 1 {
      LiteralMatches(phrases[0], s, i, j);
      assert forall p :: p in phrases <==> p == phrases[0];
    } else {
      ChoiceMatches(phrases, s, i, j);
    }
  }

  /** The lookahead body matches from the start exactly when some phrase begins on the first line. */
  lemma SomewhereMatches(phrases: seq<string>, s: string)
    requires phrases != []
    ensures MatchesFrom(Cat(AnyRun, Cat(AnyOfRegex(phrases), Empty)), s, 0)
       <==> exists p :: p in phrases && HoldsOnFirstLine(s, p)
  {
    var body := Cat(AnyOfRegex(phrases), Empty);
    if p :| p in phrases && HoldsOnFirstLine(s, p) {
      var i :| OccursAt(s, p, i) && OneLine(s[..i]);
      var j := i + |p|;
      AnyOfMatches(phrases, s, i, j);
      ThenEmpty(AnyOfRegex(phrases), s, i, j);
      assert s[0..i] == s[..i];
      assert Matches(AnyRun, s, 0, i) && Matches(body, s, i, j);
      assert Matches(Cat(AnyRun, body), s, 0, j);
    }
    if MatchesFrom(Cat(AnyRun, body), s, 0) {
      var j := EndOf(Cat(AnyRun, body), s, 0);
      var i := CatSplits(AnyRun, body, s, 0, j);
      ThenEmpty(AnyOfRegex(phrases), s, i, j);
      AnyOfMatches(phrases, s, i, j);
      var p :| p in phrases && j == i + |p| && OccursAt(s, p, i);
      assert s[0..i] == s[..i];
      assert HoldsOnFirstLine(s, p);
    }
  }

  /** A search for any of the phrases finds a text exactly when the text holds one. */
  lemma AnyOfFinds(phrases: seq<string>, s: string)
    requires phrases != []
    ensures Finds(AnyOfRegex(phrases), s) <==> exists p :: p in phrases && Contains(s, p)
  {
    if p :| p in phrases && Contains(s, p) {
      var i :| 0 <= i <= |s| && OccursAt(s, p, i);
      AnyOfMatches(phrases, s, i, i + |p|);
      assert MatchesFrom(AnyOfRegex(phrases), s, i);
    }
    if Finds(AnyOfRegex(phrases), s) {
      var i: nat :| i <= |s| && MatchesFrom(AnyOfRegex(phrases), s, i);
      var j := EndOf(AnyOfRegex(phrases), s, i);
      AnyOfMatches(phrases, s, i, j);
      var p :| p in phrases && j == i + |p| && OccursAt(s, p, i);
      assert Contains(s, p);
    }
  }

  /** The lookaheads of a filter with excludes, tested at the start of the text. */
  lemma ExcludingFinds(names: seq<string>, excludes: seq<string>, s: string)
    requires excludes != []
    ensures Finds(FilterRegex(names, excludes), s) <==>
        && !MatchesFrom(Cat(AnyRun, Cat(AnyOfRegex(excludes), Empty)), s, 0)
        && (names == [] || MatchesFrom(Cat(AnyRun, Cat(AnyOfRegex(names), Empty)), s, 0))
  {
    var r := FilterRegex(names, excludes);
    var reject, keep := r.second.first, r.second.second;
    if Finds(r, s) {
      var i: nat :| i <= |s| && MatchesFrom(r, s, i);
      var j := EndOf(r, s, i);
      var k := CatSplits(AtStart, r.second, s, i, j);
      var l := CatSplits(reject, keep, s, k, j);
      if names != [] {
        ThenEmpty(keep.first, s, l, j);
      }
    }
    if Matches(reject, s, 0, 0) && (names == [] || Matches(keep.first, s, 0, 0)) {
      if names != [] {
        ThenEmpty(keep.first, s, 0, 0);
      }
      assert Matches(keep, s, 0, 0);
      assert Matches(r.second, s, 0, 0);
      assert Matches(AtStart, s, 0, 0);
      assert Matches(r, s, 0, 0);
      assert MatchesFrom(r, s, 0);
    }
  }

  /**
   What a filter finds, for every test name. Without excludes, a name that holds one of the texts
   anywhere. With them, only the first line counts, for names and excludes alike.
   */
  lemma FilterFinds(names: seq<string>, excludes: seq<string>, s: string)
    requires names != [] || excludes != []
    ensures Read(Filter(names, excludes)).Some?
    ensures Finds(Read(Filter(names, excludes)).value, s) <==>
        if excludes == [] then exists n :: n in names && Contains(s, n)
        else
          && (forall x :: x in excludes ==> !HoldsOnFirstLine(s, x))
          && (names == [] || exists n :: n in names && HoldsOnFirstLine(s, n))
  {
    FilterReads(names, excludes);
    if excludes == [] {
      AnyOfFinds(names, s);
    } else {
      ExcludingFinds(names, excludes, s);
      SomewhereMatches(excludes, s);
      if names != [] {
        SomewhereMatches(names, s);
      }
    }
  }

  /**
   A test name on one line runs exactly when it holds one of the names, if any were given, and none of
   the excludes.
   */
  lemma FilterSelects(names: seq<string>, excludes: seq<string>, s: string)
    requires names != [] || excludes != []
    requires OneLine(s)
    ensures Read(Filter(names, excludes)).Some?
    ensures Finds(Read(Filter(names, excludes)).value, s) <==>
        && (names == [] || exists n :: n in names && Contains(s, n))
        && (forall x :: x in excludes ==> !Contains(s, x))
  {
    FilterFinds(names, excludes, s);
    forall p
      ensures Contains(s, p) <==> HoldsOnFirstLine(s, p)
    {
    }
  }

  /** On a name of several lines an exclude beyond the first line is not seen. */
  lemma LaterLineNotExcluded()
    ensures var s, x := "a\nb", "b";
      && Contains(s, x)
      && Read(Filter([], [x])).Some?
      && Finds(Read(Filter([], [x])).value, s)
  {
    var s, x := "a\nb", "b";
    assert OccursAt(s, x, 2);
    assert !HoldsOnFirstLine(s, x) by {
      if i :| OccursAt(s, x, i) && OneLine(s[..i]) {
        assert s[i] == s[i..i + 1][0] == 'b';
        assert IsLineTerminator(s[..i][1]);
      }
    }
    FilterFinds([], [x], s);
  }
}
