/**
 The `-k` expression that `--name` and `--exclude` phrases compile to, and the grammar pytest reads it by.

 `letter` says which characters beyond ASCII are word characters. The phrase splitter and pytest's own
 scanner share that class, so everything here holds for any choice of it.
 */
module PytestFilter {
  import opened Sequences
  import opened Wrappers

  type Letters = char -> bool

  /** The characters that both the phrase splitter and pytest's scanner take as part of a word. */
  predicate IsWord(c: char, letter: Letters) {
    || 'a' <= c <= 'z' || 'A' <= c <= 'Z' || '0' <= c <= '9'
    || c in {'_', ':', '+', '-', '.', '[', ']', '\\', '/'}
    || (c as int >= 0x80 && letter(c))
  }

  function Lower(s: string): (r: string)
    ensures |r| == |s|
  {
    if s == "" then "" else [if 'A' <= s[0] <= 'Z' then s[0] - 'A' + 'a' else s[0]] + Lower(s[1..])
  }

  /** A word `-k` reserves, in any case. */
  predicate IsKeyword(w: string) {
    Lower(w) in {"and", "or", "not"}
  }

  predicate WordText(w: string, letter: Letters) {
    w != "" && forall i :: 0 <= i < |w| ==> IsWord(w[i], letter)
  }

  /** How far the word characters reach at the start of `s`. */
  function WordRun(s: string, letter: Letters): (k: nat)
    ensures k <= |s|
    ensures forall i :: 0 <= i < k ==> IsWord(s[i], letter)
    ensures k < |s| ==> !IsWord(s[k], letter)
  {
    if s == "" || !IsWord(s[0], letter) then 0 else 1 + WordRun(s[1..], letter)
  }

  /** The words of a phrase: its longest runs of word characters. */
  function Words(s: string, letter: Letters): (r: seq<string>)
    ensures forall w :: w in r ==> WordText(w, letter)
    decreases |s|
  {
    if s == "" then []
    else
      var k := WordRun(s, letter);
      if k == 0 then Words(s[1..], letter) else [s[..k]] + Words(s[k..], letter)
  }

  // ---------------------------------------------------------------- words by their places

  datatype Run = Run(start: nat, end: nat)

  /** A stretch of word characters with no word character right before or after it. */
  predicate IsRun(s: string, run: Run, letter: Letters) {
    && run.start < run.end <= |s|
    && (forall k :: run.start <= k < run.end ==> IsWord(s[k], letter))
    && (run.start == 0 || !IsWord(s[run.start - 1], letter))
    && (run.end == |s| || !IsWord(s[run.end], letter))
  }

  /** Every run of a phrase, from left to right. */
  ghost predicate ListsRuns(s: string, runs: seq<Run>, letter: Letters) {
    && (forall m :: 0 <= m < |runs| ==> IsRun(s, runs[m], letter))
    && (forall m, n :: 0 <= m < n < |runs| ==> runs[m].end < runs[n].start)
    && (forall run :: IsRun(s, run, letter) ==> run in runs)
  }

  function RunTexts(s: string, runs: seq<Run>): (r: seq<string>)
    requires forall m :: 0 <= m < |runs| ==> runs[m].start < runs[m].end <= |s|
    ensures |r| == |runs| && forall m :: 0 <= m < |runs| ==> r[m] == s[runs[m].start..runs[m].end]
  {
    seq(|runs|, m requires 0 <= m < |runs| => s[runs[m].start..runs[m].end])
  }

  function Shifted(runs: seq<Run>, n: nat): (r: seq<Run>)
    ensures |r| == |runs| && forall m :: 0 <= m < |runs| ==> r[m] == Run(runs[m].start + n, runs[m].end + n)
  {
    seq(|runs|, m requires 0 <= m < |runs| => Run(runs[m].start + n, runs[m].end + n))
  }

  /** Where no word crosses the cut, a run after it is a run of the whole. */
  lemma RunAfter(s: string, k: nat, run: Run, letter: Letters)
    requires k <= |s|
    requires k == 0 || k == |s| || !IsWord(s[k - 1], letter) || !IsWord(s[k], letter)
    ensures IsRun(s, Run(run.start + k, run.end + k), letter) <==> IsRun(s[k..], run, letter)
  {
    hide IsWord;
    if IsRun(s[k..], run, letter) {
      forall i | run.start + k <= i < run.end + k
        ensures IsWord(s[i], letter)
      {
        assert s[k..][i - k] == s[i];
      }
    }
  }

  lemma {:induction false} WordsAreRuns(s: string, letter: Letters) returns (runs: seq<Run>)
    ensures ListsRuns(s, runs, letter) && Words(s, letter) == RunTexts(s, runs)
    decreases |s|
  {
    hide IsWord, ListsRuns;
    if s == "" {
      runs := [];
      NoRuns(letter);
    } else {
      var k := WordRun(s, letter);
      var next := if k == 0 then 1 else k;
      FirstRun(s, letter);
      var rest := WordsAreRuns(s[next..], letter);
      ListedRuns(s[next..], rest, letter);
      runs := (if k == 0 then [] else [Run(0, k)]) + Shifted(rest, next);
      RunsFromRest(s, k, next, rest, runs, letter);
      ListedRuns(s, runs, letter);
      hide Shifted, RunTexts, WordRun;
      ShiftedTexts(s, next, rest);
      FirstText(s, k, Shifted(rest, next));
    }
  }

  lemma FirstText(s: string, k: nat, rest: seq<Run>)
    requires k <= |s| && forall m :: 0 <= m < |rest| ==> rest[m].start < rest[m].end <= |s|
    ensures k > 0 ==> RunTexts(s, [Run(0, k)] + rest) == [s[..k]] + RunTexts(s, rest)
    ensures [] + rest == rest
  {
  }

  lemma ShiftedTexts(s: string, k: nat, runs: seq<Run>)
    requires k <= |s| && forall m :: 0 <= m < |runs| ==> runs[m].start < runs[m].end <= |s[k..]|
    ensures RunTexts(s, Shifted(runs, k)) == RunTexts(s[k..], runs)
  {
    var texts, shifted := RunTexts(s[k..], runs), RunTexts(s, Shifted(runs, k));
    forall m | 0 <= m < |runs|
      ensures shifted[m] == texts[m]
    {
      SliceOfRest(s, k, runs[m].start, runs[m].end);
    }
  }

  lemma SliceOfRest(s: string, k: nat, a: nat, b: nat)
    requires k <= |s| && a <= b <= |s[k..]|
    ensures s[k..][a..b] == s[a + k..b + k]
  {
  }

  lemma NoRuns(letter: Letters)
    ensures ListsRuns("", [], letter)
  {
  }

  lemma ListedRuns(s: string, runs: seq<Run>, letter: Letters)
    requires ListsRuns(s, runs, letter)
    ensures forall m :: 0 <= m < |runs| ==> runs[m].start < runs[m].end <= |s|
  {
  }

  lemma RunsFromRest(s: string, k: nat, next: nat, rest: seq<Run>, runs: seq<Run>, letter: Letters)
    requires s != "" && k == WordRun(s, letter) && next == (if k == 0 then 1 else k)
    requires ListsRuns(s[next..], rest, letter)
    requires runs == (if k == 0 then [] else [Run(0, k)]) + Shifted(rest, next)
    ensures ListsRuns(s, runs, letter)
  {
    hide IsWord, IsRun;
    FirstRun(s, letter);
    RunsHold(s, k, next, rest, runs, letter);
    hide WordRun;
    forall m, n | 0 <= m < n < |runs|
      ensures runs[m].end < runs[n].start
    {
      if k == 0 {
        assert rest[m].end < rest[n].start;
      } else if m > 0 {
        assert rest[m - 1].end < rest[n - 1].start;
      } else {
        AfterFirst(s, runs[n], letter);
      }
    }
    forall run | IsRun(s, run, letter)
      ensures run in runs
    {
      RunKnown(s, k, next, rest, runs, run, letter);
    }
  }

  lemma RunsHold(s: string, k: nat, next: nat, rest: seq<Run>, runs: seq<Run>, letter: Letters)
    requires s != "" && k == WordRun(s, letter) && next == (if k == 0 then 1 else k)
    requires ListsRuns(s[next..], rest, letter)
    requires runs == (if k == 0 then [] else [Run(0, k)]) + Shifted(rest, next)
    ensures forall m :: 0 <= m < |runs| ==> IsRun(s, runs[m], letter)
  {
    hide IsWord, IsRun;
    FirstRun(s, letter);
    hide WordRun;
    forall m | 0 <= m < |runs|
      ensures IsRun(s, runs[m], letter)
    {
      var at := if k == 0 then 0 else 1;
      if m >= at { RunAfter(s, next, rest[m - at], letter); }
    }
  }

  lemma RunKnown(s: string, k: nat, next: nat, rest: seq<Run>, runs: seq<Run>, run: Run, letter: Letters)
    requires s != "" && k == WordRun(s, letter) && next == (if k == 0 then 1 else k)
    requires ListsRuns(s[next..], rest, letter)
    requires runs == (if k == 0 then [] else [Run(0, k)]) + Shifted(rest, next)
    requires IsRun(s, run, letter)
    ensures run in runs
  {
    hide IsWord, IsRun, ListsRuns, Shifted;
    RunEnds(s, run, letter);
    if run.start >= next {
      LaterKnown(s, k, next, rest, run, letter);
    } else {
      FirstAlone(s, run, letter);
    }
  }

  lemma LaterKnown(s: string, k: nat, next: nat, rest: seq<Run>, run: Run, letter: Letters)
    requires s != "" && k == WordRun(s, letter) && next == (if k == 0 then 1 else k)
    requires ListsRuns(s[next..], rest, letter)
    requires IsRun(s, run, letter) && next <= run.start < run.end
    ensures run in Shifted(rest, next)
  {
    hide IsWord, IsRun, WordRun;
    FirstRun(s, letter);
    var its := Run(run.start - next, run.end - next);
    RunAfter(s, next, its, letter);
    assert its in rest;
    var m :| 0 <= m < |rest| && rest[m] == its;
    assert Shifted(rest, next)[m] == run;
  }

  /** The word characters at the start are a run, and no word crosses their end. */
  lemma FirstRun(s: string, letter: Letters)
    requires s != ""
    ensures var k := WordRun(s, letter);
      && (k > 0 ==> IsRun(s, Run(0, k), letter))
      && (k == 0 ==> !IsWord(s[0], letter))
      && (0 < k < |s| ==> !IsWord(s[k], letter))
  {
    hide IsWord;
  }

  lemma AfterFirst(s: string, run: Run, letter: Letters)
    requires IsRun(s, run, letter) && 0 < WordRun(s, letter) <= run.start
    ensures WordRun(s, letter) < run.start
  {
    hide IsWord;
    assert IsWord(s[run.start], letter);
  }

  lemma FirstAlone(s: string, run: Run, letter: Letters)
    requires IsRun(s, run, letter) && (WordRun(s, letter) > run.start || run.start == 0)
    ensures run == Run(0, WordRun(s, letter))
  {
    hide IsWord;
    var k := WordRun(s, letter);
    assert IsWord(s[run.start], letter);
  }

  lemma RunEnds(s: string, run: Run, letter: Letters)
    requires IsRun(s, run, letter)
    ensures run.start < run.end <= |s|
  {
  }

  /** There is one list of the runs of a phrase. */
  lemma RunsUnique(s: string, a: seq<Run>, b: seq<Run>, letter: Letters)
    requires ListsRuns(s, a, letter) && ListsRuns(s, b, letter)
    ensures a == b
  {
    hide IsRun;
    ListedRuns(s, a, letter);
    ListedRuns(s, b, letter);
    OrderedUnique(a, b);
  }

  predicate Ordered(a: seq<Run>) {
    && (forall m :: 0 <= m < |a| ==> a[m].start < a[m].end)
    && (forall m, n :: 0 <= m < n < |a| ==> a[m].end < a[n].start)
  }

  predicate AllIn(a: seq<Run>, b: seq<Run>) {
    forall m :: 0 <= m < |a| ==> a[m] in b
  }

  lemma FirstLeast(a: seq<Run>, b: seq<Run>)
    requires Ordered(a) && Ordered(b) && AllIn(a, b) && a != []
    ensures b != [] && b[0].start <= a[0].start && (b[0].start == a[0].start ==> b[0] == a[0])
  {
    assert a[0] in b;
    var i :| 0 <= i < |b| && b[i] == a[0];
  }

  lemma TailIn(a: seq<Run>, b: seq<Run>)
    requires Ordered(a) && Ordered(b) && AllIn(a, b) && a != [] && b != [] && a[0] == b[0]
    ensures AllIn(a[1..], b[1..]) && Ordered(a[1..])
  {
    forall m | 0 <= m < |a[1..]|
      ensures a[1..][m] in b[1..]
    {
      assert a[m + 1] in b;
      var k :| 0 <= k < |b| && b[k] == a[m + 1];
      assert k > 0 && b[1..][k - 1] == b[k];
    }
  }

  lemma {:induction false} OrderedUnique(a: seq<Run>, b: seq<Run>)
    requires Ordered(a) && Ordered(b) && AllIn(a, b) && AllIn(b, a)
    ensures a == b
  {
    if a != [] {
      FirstLeast(a, b);
      FirstLeast(b, a);
      hide Ordered, AllIn;
      TailIn(a, b);
      TailIn(b, a);
      OrderedUnique(a[1..], b[1..]);
    } else if b != [] {
      FirstLeast(b, a);
    }
  }

  // ---------------------------------------------------------------- the terms of a phrase

  /** Words joined into terms: a reserved word is joined to the words beside it. */
  function Join(terms: seq<string>, joining: bool, words: seq<string>): seq<string>
    decreases words
  {
    if words == [] then terms
    else
      var keyword := IsKeyword(words[0]);
      if terms != [] && (keyword || joining)
      then Join(terms[..|terms| - 1] + [terms[|terms| - 1] + "_" + words[0]], keyword, words[1..])
      else Join(terms + [words[0]], keyword, words[1..])
  }

  datatype Error = NoTerm

  method Terms(phrase: string, letter: Letters) returns (r: Result<seq<string>, Error>)
    ensures r == PhraseTerms(phrase, letter)
  {
    var terms: seq<string>, joining := [], false;
    var words := Words(phrase, letter);
    for i := 0 to |words|
      invariant Join([], false, words) == Join(terms, joining, words[i..])
    {
      assert words[i..][1..] == words[i + 1..];
      var keyword := IsKeyword(words[i]);
      if terms != [] && (keyword || joining) {
        terms := terms[..|terms| - 1] + [terms[|terms| - 1] + "_" + words[i]];
      } else {
        terms := terms + [words[i]];
      }
      joining := keyword;
    }
    assert words[|words|..] == [];
    if terms == [] || exists t :: t in terms && IsKeyword(t) {
      return Failure(NoTerm);
    }
    r := Success(terms);
  }

  /** The terms of a phrase, or its refusal. */
  function PhraseTerms(phrase: string, letter: Letters): Result<seq<string>, Error> {
    var terms := Join([], false, Words(phrase, letter));
    if terms == [] || exists t :: t in terms && IsKeyword(t) then Failure(NoTerm) else Success(terms)
  }

  lemma {:induction false} LowerConcat(a: string, b: string)
    ensures Lower(a + b) == Lower(a) + Lower(b)
  {
    if a == "" {
      assert a + b == b;
    } else {
      assert (a + b)[1..] == a[1..] + b;
      LowerConcat(a[1..], b);
    }
  }

  /** ASCII letters come in lower case, everything else as it is. */
  lemma {:induction false} LowerAt(s: string, i: nat)
    requires i < |s|
    ensures Lower(s)[i] == if 'A' <= s[i] <= 'Z' then s[i] - 'A' + 'a' else s[i]
  {
    if i > 0 { LowerAt(s[1..], i - 1); }
  }

  /** A joined term holds a `_` and so is no reserved word. */
  lemma JoinedNotKeyword(a: string, b: string)
    ensures !IsKeyword(a + "_" + b)
  {
    var s := a + "_" + b;
    LowerConcat(a + "_", b);
    LowerConcat(a, "_");
    assert Lower("_") == "_";
    assert Lower(s)[|a|] == '_';
  }

  /** What joining keeps: every term is a word text, and only the newest can still be a reserved word. */
  predicate Joined(terms: seq<string>, joining: bool, letter: Letters) {
    && (forall t :: t in terms ==> WordText(t, letter))
    && (forall i :: 0 <= i < |terms| - 1 ==> !IsKeyword(terms[i]))
    && (|terms| > 1 ==> !IsKeyword(terms[|terms| - 1]))
    && (|terms| == 1 && IsKeyword(terms[0]) ==> joining)
  }

  /** Whether some term is a reserved word. */
  predicate HasKeyword(terms: seq<string>) {
    exists t :: t in terms && IsKeyword(t)
  }

  predicate OneKeyword(terms: seq<string>) {
    |terms| == 1 && IsKeyword(terms[0])
  }

  predicate AllWords(terms: seq<string>, letter: Letters) {
    forall t :: t in terms ==> WordText(t, letter)
  }

  lemma JoinedAlone(terms: seq<string>, joining: bool, letter: Letters)
    requires Joined(terms, joining, letter)
    ensures HasKeyword(terms) <==> OneKeyword(terms)
    ensures AllWords(terms, letter)
  {
    hide IsKeyword, WordText;
    if OneKeyword(terms) { assert terms[0] in terms; }
  }

  lemma JoinedOn(terms: seq<string>, joining: bool, w: string, letter: Letters)
    requires Joined(terms, joining, letter) && WordText(w, letter) && terms != []
    ensures var next := terms[..|terms| - 1] + [terms[|terms| - 1] + "_" + w];
      Joined(next, IsKeyword(w), letter) && !OneKeyword(next)
  {
    hide IsKeyword;
    var last := terms[|terms| - 1];
    JoinedNotKeyword(last, w);
    assert last in terms;
    assert WordText(last + "_" + w, letter);
    hide WordText;
    forall t | t in terms[..|terms| - 1] + [last + "_" + w]
      ensures WordText(t, letter)
    {
      if t != last + "_" + w { assert t in terms; }
    }
  }

  lemma JoinedPush(terms: seq<string>, joining: bool, w: string, letter: Letters)
    requires Joined(terms, joining, letter) && WordText(w, letter)
    requires terms == [] || !(IsKeyword(w) || joining)
    ensures Joined(terms + [w], IsKeyword(w), letter)
    ensures OneKeyword(terms + [w]) <==> terms == [] && IsKeyword(w)
  {
    hide IsKeyword, WordText;
  }

  lemma {:induction false} JoinKeeps(terms: seq<string>, joining: bool, words: seq<string>, letter: Letters)
    requires Joined(terms, joining, letter)
    requires forall w :: w in words ==> WordText(w, letter)
    ensures var r := Join(terms, joining, words);
      && AllWords(r, letter)
      && (r == [] <==> terms == [] && words == [])
      && (HasKeyword(r) <==> (words == [] && OneKeyword(terms)) || (terms == [] && OneKeyword(words)))
    decreases words
  {
    hide IsKeyword, WordText, HasKeyword, OneKeyword, Joined, AllWords;
    if words == [] {
      JoinedAlone(terms, joining, letter);
      NoOneKeyword();
    } else {
      var w := words[0];
      assert w in words;
      OneKeywordFirst(words);
      if terms != [] && (IsKeyword(w) || joining) {
        JoinedOn(terms, joining, w, letter);
        JoinKeeps(terms[..|terms| - 1] + [terms[|terms| - 1] + "_" + w], IsKeyword(w), words[1..], letter);
      } else {
        JoinedPush(terms, joining, w, letter);
        JoinKeeps(terms + [w], IsKeyword(w), words[1..], letter);
      }
    }
  }

  lemma NoOneKeyword()
    ensures !OneKeyword([])
  {
  }

  lemma OneKeywordFirst(words: seq<string>)
    requires words != []
    ensures OneKeyword(words) <==> words[1..] == [] && IsKeyword(words[0])
  {
  }

  // ---------------------------------------------------------------- the compiled expression

  /** `separator.join(parts)`. */
  function JoinText(parts: seq<string>, separator: string): string {
    if parts == [] then ""
    else if |parts| == 1 then parts[0]
    else parts[0] + separator + JoinText(parts[1..], separator)
  }

  function Chain(terms: seq<string>): string {
    JoinText(terms, " and ")
  }

  function Kept(names: seq<seq<string>>): string {
    if |names| > 1 then JoinText(Map(names, t => "(" + Chain(t) + ")"), " or ")
    else if |names| == 1 then Chain(names[0]) else ""
  }

  function Dropped(excludes: seq<seq<string>>): string {
    JoinText(Map(excludes, t => "not (" + Chain(t) + ")"), " and ")
  }

  function Map<A, B>(xs: seq<A>, f: A -> B): (r: seq<B>)
    ensures |r| == |xs|
    ensures forall i :: 0 <= i < |xs| ==> r[i] == f(xs[i])
  {
    if xs == [] then [] else [f(xs[0])] + Map(xs[1..], f)
  }

  /** The expression for phrases already split into terms. */
  function Expression(names: seq<seq<string>>, excludes: seq<seq<string>>): string {
    if names != [] && excludes != [] then "(" + Kept(names) + ") and " + Dropped(excludes)
    else if names != [] then Kept(names)
    else Dropped(excludes)
  }

  /** The terms of every phrase, or the refusal of one. */
  function AllTerms(phrases: seq<string>, letter: Letters): (r: Result<seq<seq<string>>, Error>)
    ensures r.Success? ==> |r.value| == |phrases|
    ensures r.Success? ==> forall i :: 0 <= i < |phrases| ==> PhraseTerms(phrases[i], letter) == Success(r.value[i])
    ensures r.Failure? ==> exists i :: 0 <= i < |phrases| && PhraseTerms(phrases[i], letter).Failure?
  {
    if phrases == [] then Success([])
    else
      match PhraseTerms(phrases[0], letter)
      case Failure(e) => Failure(e)
      case Success(terms) =>
        match AllTerms(phrases[1..], letter)
        case Failure(e) => Failure(e)
        case Success(rest) => Success([terms] + rest)
  }

  function Selection(names: seq<string>, excludes: seq<string>, letter: Letters): Result<string, Error> {
    match (AllTerms(names, letter), AllTerms(excludes, letter))
    case (Success(kept), Success(dropped)) => Success(Expression(kept, dropped))
    case _ => Failure(NoTerm)
  }

  // ---------------------------------------------------------------- what the terms of a phrase are

  function Flat(groups: seq<seq<string>>): seq<string> {
    if groups == [] then [] else groups[0] + Flat(groups[1..])
  }

  /** Of two words side by side in one term, one is reserved. */
  predicate Knit(group: seq<string>) {
    group != [] && forall k :: 1 <= k < |group| ==> IsKeyword(group[k - 1]) || IsKeyword(group[k])
  }

  /** Of the two words on either side of the place between a term and the one before it, none is reserved. */
  predicate ApartAt(groups: seq<seq<string>>, g: nat)
    requires g < |groups|
  {
    g == 0 || (
      && groups[g - 1] != [] && groups[g] != []
      && !IsKeyword(groups[g - 1][|groups[g - 1]| - 1]) && !IsKeyword(groups[g][0]))
  }

  /** The words of one term are joined beside a reserved word, and only there. */
  predicate Grouped(groups: seq<seq<string>>) {
    forall g :: 0 <= g < |groups| ==> Knit(groups[g]) && ApartAt(groups, g)
  }

  /** The words of a phrase, all of them in order, as they are put together into terms. */
  ghost predicate TermsOf(phrase: string, letter: Letters, groups: seq<seq<string>>) {
    && Grouped(groups)
    && exists runs :: ListsRuns(phrase, runs, letter) && Flat(groups) == RunTexts(phrase, runs)
  }

  /** A term as it is written: its words with `_` between them. */
  function TermTexts(groups: seq<seq<string>>): (r: seq<string>)
    ensures |r| == |groups| && forall g :: 0 <= g < |groups| ==> r[g] == JoinText(groups[g], "_")
  {
    Map(groups, g => JoinText(g, "_"))
  }

  lemma {:induction false} FlatConcat(a: seq<seq<string>>, b: seq<seq<string>>)
    ensures Flat(a + b) == Flat(a) + Flat(b)
  {
    if a == [] {
      assert a + b == b;
    } else {
      assert (a + b)[1..] == a[1..] + b;
      FlatConcat(a[1..], b);
    }
  }

  lemma FlatOne(g: seq<string>)
    ensures Flat([g]) == g
  {
    assert [g][1..] == [];
  }

  lemma {:induction false} JoinTextOn(g: seq<string>, w: string)
    requires g != []
    ensures JoinText(g + [w], "_") == JoinText(g, "_") + "_" + w
  {
    if |g| == 1 {
      assert (g + [w])[1..] == [w];
    } else {
      assert (g + [w])[1..] == g[1..] + [w];
      JoinTextOn(g[1..], w);
    }
  }

  /** Whether the last word so far is a reserved one. */
  predicate EndsInKeyword(groups: seq<seq<string>>) {
    && groups != [] && groups[|groups| - 1] != []
    && IsKeyword(groups[|groups| - 1][|groups[|groups| - 1]| - 1])
  }

  lemma {:induction false} JoinGroups(groups: seq<seq<string>>, words: seq<string>) returns (all: seq<seq<string>>)
    requires Grouped(groups)
    ensures Grouped(all) && Flat(all) == Flat(groups) + words
    ensures Join(TermTexts(groups), EndsInKeyword(groups), words) == TermTexts(all)
    decreases words
  {
    hide IsKeyword, Grouped, EndsInKeyword, TermTexts, Flat;
    if words == [] {
      all := groups;
    } else {
      var w := words[0];
      var next := if groups != [] && (IsKeyword(w) || EndsInKeyword(groups))
        then groups[..|groups| - 1] + [groups[|groups| - 1] + [w]] else groups + [[w]];
      NextGroups(groups, w, next);
      all := JoinGroups(next, words[1..]);
      assert words == [w] + words[1..];
      ConcatAssociates(Flat(groups), [w], words[1..]);
    }
  }

  lemma NextGroups(groups: seq<seq<string>>, w: string, next: seq<seq<string>>)
    requires Grouped(groups)
    requires next == if groups != [] && (IsKeyword(w) || EndsInKeyword(groups))
                     then groups[..|groups| - 1] + [groups[|groups| - 1] + [w]] else groups + [[w]]
    ensures Grouped(next) && Flat(next) == Flat(groups) + [w] && EndsInKeyword(next) == IsKeyword(w)
    ensures var terms := TermTexts(groups);
      TermTexts(next) == if groups != [] && (IsKeyword(w) || EndsInKeyword(groups))
                         then terms[..|terms| - 1] + [terms[|terms| - 1] + "_" + w] else terms + [w]
  {
    hide IsKeyword, Flat, TermTexts, JoinText, ApartAt;
    if groups != [] && (IsKeyword(w) || EndsInKeyword(groups)) {
      assert Knit(groups[|groups| - 1]);
      LastGroupOn(groups, w);
      TermOn(groups, w);
      FlatOn(groups, w);
    } else {
      GroupPushed(groups, w);
      TermPushed(groups, w);
    }
  }

  lemma TermOn(groups: seq<seq<string>>, w: string)
    requires groups != [] && groups[|groups| - 1] != []
    ensures var next := groups[..|groups| - 1] + [groups[|groups| - 1] + [w]]; var terms := TermTexts(groups);
      TermTexts(next) == terms[..|terms| - 1] + [terms[|terms| - 1] + "_" + w]
  {
    hide JoinText;
    var last := groups[|groups| - 1];
    var next := groups[..|groups| - 1] + [last + [w]];
    JoinTextOn(last, w);
    var terms := TermTexts(groups);
    var more := terms[..|terms| - 1] + [terms[|terms| - 1] + "_" + w];
    forall g | 0 <= g < |next|
      ensures TermTexts(next)[g] == more[g]
    {
    }
  }

  lemma FlatOn(groups: seq<seq<string>>, w: string)
    requires groups != []
    ensures Flat(groups[..|groups| - 1] + [groups[|groups| - 1] + [w]]) == Flat(groups) + [w]
  {
    hide Flat;
    var before, last := groups[..|groups| - 1], groups[|groups| - 1];
    assert groups == before + [last];
    FlatConcat(before, [last]);
    FlatConcat(before, [last + [w]]);
    FlatOne(last);
    FlatOne(last + [w]);
    ConcatAssociates(Flat(before), last, [w]);
  }

  lemma TermPushed(groups: seq<seq<string>>, w: string)
    ensures TermTexts(groups + [[w]]) == TermTexts(groups) + [w] && Flat(groups + [[w]]) == Flat(groups) + [w]
  {
    FlatConcat(groups, [[w]]);
    FlatOne([w]);
  }

  lemma LastGroupOn(groups: seq<seq<string>>, w: string)
    requires Grouped(groups) && groups != [] && (IsKeyword(w) || EndsInKeyword(groups))
    ensures var next := groups[..|groups| - 1] + [groups[|groups| - 1] + [w]];
      Grouped(next) && EndsInKeyword(next) == IsKeyword(w)
  {
    var n := |groups| - 1;
    var next := groups[..n] + [groups[n] + [w]];
    KnitOn(groups[n], w);
    hide IsKeyword, Knit;
    KnitGroup(groups[n]);
    forall g | 0 <= g < |next|
      ensures Knit(next[g]) && ApartAt(next, g)
    {
      assert Knit(groups[g]) && ApartAt(groups, g);
    }
  }

  lemma KnitOn(group: seq<string>, w: string)
    requires Knit(group) && (IsKeyword(w) || IsKeyword(group[|group| - 1]))
    ensures Knit(group + [w])
  {
    hide IsKeyword;
  }

  lemma KnitGroup(group: seq<string>)
    requires Knit(group)
    ensures group != []
  {
  }

  lemma GroupPushed(groups: seq<seq<string>>, w: string)
    requires Grouped(groups) && (groups == [] || !(IsKeyword(w) || EndsInKeyword(groups)))
    ensures Grouped(groups + [[w]]) && EndsInKeyword(groups + [[w]]) == IsKeyword(w)
  {
    hide IsKeyword;
    var next := groups + [[w]];
    forall g | 0 <= g < |next|
      ensures Knit(next[g]) && ApartAt(next, g)
    {
      if g < |groups| {
        assert Knit(groups[g]) && ApartAt(groups, g);
      } else if g > 0 {
        KnitGroup(groups[g - 1]);
      }
    }
  }

  lemma FlatFirst(a: seq<seq<string>>)
    requires Grouped(a)
    ensures Flat(a) == [] <==> a == []
    ensures a != [] ==>
              && a[0] != [] && |Flat(a)| >= |a[0]| && Flat(a)[..|a[0]|] == a[0] && Flat(a)[|a[0]|..] == Flat(a[1..])
              && Flat(a)[|a[0]| - 1] == a[0][|a[0]| - 1]
              && (|Flat(a)| > |a[0]| ==>
                    !IsKeyword(Flat(a)[|a[0]| - 1]) && !IsKeyword(Flat(a)[|a[0]|]))
  {
    hide IsKeyword;
    if a != [] {
      assert Knit(a[0]);
      if |a| > 1 {
        assert Knit(a[1]) && ApartAt(a, 1);
      }
    }
  }

  lemma FirstGroupFits(a: seq<seq<string>>, b: seq<seq<string>>)
    requires Grouped(a) && Grouped(b) && Flat(a) == Flat(b) && a != [] && b != []
    ensures |a[0]| <= |b[0]|
  {
    FlatFirst(a);
    FlatFirst(b);
    hide IsKeyword;
    assert Knit(a[0]);
    var words := Flat(a);
    assert forall k :: 0 <= k < |a[0]| ==> a[0][k] == words[k];
  }

  lemma GroupedRest(a: seq<seq<string>>)
    requires Grouped(a) && a != []
    ensures Grouped(a[1..])
  {
    hide IsKeyword, Knit;
    var rest := a[1..];
    forall g | 0 <= g < |rest|
      ensures Knit(rest[g]) && ApartAt(rest, g)
    {
      assert Knit(a[g + 1]) && ApartAt(a, g + 1);
    }
  }

  /** Words are put together into terms in one way. */
  lemma {:induction false} GroupsUnique(a: seq<seq<string>>, b: seq<seq<string>>)
    requires Grouped(a) && Grouped(b) && Flat(a) == Flat(b)
    ensures a == b
    decreases a
  {
    hide IsKeyword, Knit, Grouped, ApartAt;
    FlatFirst(a);
    FlatFirst(b);
    if a != [] {
      FirstGroupFits(a, b);
      FirstGroupFits(b, a);
      GroupedRest(a);
      GroupedRest(b);
      GroupsUnique(a[1..], b[1..]);
      assert a == [a[0]] + a[1..] && b == [b[0]] + b[1..];
    }
  }

  lemma NoGroups()
    ensures Grouped([]) && Flat([]) == [] && TermTexts([]) == [] && !EndsInKeyword([])
  {
  }

  /** A phrase has terms, in one way. */
  lemma TermsOfExactly(phrase: string, letter: Letters) returns (groups: seq<seq<string>>)
    ensures TermsOf(phrase, letter, groups) && Flat(groups) == Words(phrase, letter)
    ensures Join([], false, Words(phrase, letter)) == TermTexts(groups)
    ensures forall other :: TermsOf(phrase, letter, other) ==> other == groups
  {
    hide IsKeyword, Grouped, Words, Join;
    var runs := WordsAreRuns(phrase, letter);
    NoGroups();
    groups := JoinGroups([], Words(phrase, letter));
    assert [] + Words(phrase, letter) == Words(phrase, letter);
    forall other | TermsOf(phrase, letter, other)
      ensures other == groups
    {
      var its :| ListsRuns(phrase, its, letter) && Flat(other) == RunTexts(phrase, its);
      RunsUnique(phrase, runs, its, letter);
      GroupsUnique(other, groups);
    }
  }

  /** A phrase without a word, or with one word and that one reserved. */
  ghost predicate Nameless(phrase: string, letter: Letters) {
    exists runs :: ListsRuns(phrase, runs, letter)
      && (runs == [] || (|runs| == 1 && IsKeyword(RunTexts(phrase, runs)[0])))
  }

  /** A phrase is refused exactly when it has no word, or a single one that `-k` reserves. */
  lemma RefusedExactly(phrase: string, letter: Letters)
    ensures PhraseTerms(phrase, letter).Failure? <==> Nameless(phrase, letter)
  {
    JoinKeeps([], false, Words(phrase, letter), letter);
    hide IsKeyword, IsRun;
    var runs := WordsAreRuns(phrase, letter);
    if Nameless(phrase, letter) {
      var its :| ListsRuns(phrase, its, letter)
        && (its == [] || (|its| == 1 && IsKeyword(RunTexts(phrase, its)[0])));
      RunsUnique(phrase, runs, its, letter);
    }
  }

  /** A phrase that is not refused gives the terms its words are put together into. */
  lemma TermsExactly(phrase: string, letter: Letters, groups: seq<seq<string>>)
    requires TermsOf(phrase, letter, groups)
    ensures PhraseTerms(phrase, letter)
         == if Nameless(phrase, letter) then Failure(NoTerm) else Success(TermTexts(groups))
  {
    hide Nameless, TermsOf, HasKeyword;
    var its := TermsOfExactly(phrase, letter);
    RefusedExactly(phrase, letter);
  }

  // ---------------------------------------------------------------- pytest's grammar

  datatype Token = LeftParen | RightParen | And | Or | Not | Ident(text: string)

  datatype Expr =
    | Name(text: string)
    | Negation(arg: Expr)
    | Both(left: Expr, right: Expr)
    | Either(left: Expr, right: Expr)

  function WordToken(w: string): Token {
    if w == "and" then And else if w == "or" then Or else if w == "not" then Not else Ident(w)
  }

  /** The tokens of an expression, or nothing where the scanner meets a character it does not take. */
  function Tokens(s: string, letter: Letters): Option<seq<Token>>
    decreases |s|
  {
    if s == "" then Some([])
    else if s[0] == ' ' || s[0] == '\t' then Tokens(s[1..], letter)
    else if s[0] == '(' then Before([LeftParen], Tokens(s[1..], letter))
    else if s[0] == ')' then Before([RightParen], Tokens(s[1..], letter))
    else
      var k := WordRun(s, letter);
      if k == 0 then None else Before([WordToken(s[..k])], Tokens(s[k..], letter))
  }

  function Before(tokens: seq<Token>, rest: Option<seq<Token>>): Option<seq<Token>> {
    match rest
    case None => None
    case Some(r) => Some(tokens + r)
  }

  type Parse = Option<(Expr, seq<Token>)>

  /** An alternation, then its first conjunct's alternatives. */
  function ParseExpr(tokens: seq<Token>): (r: Parse)
    ensures r.Some? ==> |r.value.1| < |tokens|
    decreases |tokens|, 4
  {
    match ParseAnd(tokens)
    case None => None
    case Some((left, rest)) => OrTail(left, rest)
  }

  function OrTail(left: Expr, tokens: seq<Token>): (r: Parse)
    ensures r.Some? ==> |r.value.1| <= |tokens|
    decreases |tokens|, 3
  {
    if tokens != [] && tokens[0] == Or then
      match ParseAnd(tokens[1..])
      case None => None
      case Some((right, rest)) => OrTail(Either(left, right), rest)
    else Some((left, tokens))
  }

  function ParseAnd(tokens: seq<Token>): (r: Parse)
    ensures r.Some? ==> |r.value.1| < |tokens|
    decreases |tokens|, 2
  {
    match ParseNot(tokens)
    case None => None
    case Some((left, rest)) => AndTail(left, rest)
  }

  function AndTail(left: Expr, tokens: seq<Token>): (r: Parse)
    ensures r.Some? ==> |r.value.1| <= |tokens|
    decreases |tokens|, 1
  {
    if tokens != [] && tokens[0] == And then
      match ParseNot(tokens[1..])
      case None => None
      case Some((right, rest)) => AndTail(Both(left, right), rest)
    else Some((left, tokens))
  }

  function ParseNot(tokens: seq<Token>): (r: Parse)
    ensures r.Some? ==> |r.value.1| < |tokens|
    decreases |tokens|, 0
  {
    if tokens == [] then None
    else
      match tokens[0]
      case Not =>
        (match ParseNot(tokens[1..])
         case None => None
         case Some((arg, rest)) => Some((Negation(arg), rest)))
      case LeftParen =>
        (match ParseExpr(tokens[1..])
         case None => None
         case Some((e, rest)) => if rest != [] && rest[0] == RightParen then Some((e, rest[1..])) else None)
      case Ident(text) => Some((Name(text), tokens[1..]))
      case _ => None
  }

  /** What pytest makes of an expression: all of it has to parse. */
  function Read(s: string, letter: Letters): Option<Expr> {
    match Tokens(s, letter)
    case None => None
    case Some(tokens) =>
      match ParseExpr(tokens)
      case Some((e, rest)) => if rest == [] then Some(e) else None
      case None => None
  }

  /** Whether a test is selected, `matches` saying which words its name holds. */
  predicate Eval(e: Expr, matches: string -> bool) {
    match e
    case Name(text) => matches(text)
    case Negation(arg) => !Eval(arg, matches)
    case Both(l, r) => Eval(l, matches) && Eval(r, matches)
    case Either(l, r) => Eval(l, matches) || Eval(r, matches)
  }

  // ---------------------------------------------------------------- parsing what was compiled

  /** These tokens parse as one operand, whatever follows them. */
  ghost predicate Operand(tokens: seq<Token>, e: Expr) {
    forall rest :: ParseNot(tokens + rest) == Some((e, rest))
  }

  /** These tokens parse as a whole expression up to the end or a closing parenthesis. */
  ghost predicate Whole(tokens: seq<Token>, e: Expr) {
    forall rest :: rest == [] || rest[0] == RightParen ==> ParseExpr(tokens + rest) == Some((e, rest))
  }

  lemma IdentOperand(t: string)
    ensures Operand([Ident(t)], Name(t))
  {
    forall rest
      ensures ParseNot([Ident(t)] + rest) == Some((Name(t), rest))
    {
      assert ([Ident(t)] + rest)[1..] == rest;
    }
  }

  lemma NotOperand(tokens: seq<Token>, e: Expr)
    requires Operand(tokens, e)
    ensures Operand([Not] + tokens, Negation(e))
  {
    forall rest
      ensures ParseNot([Not] + tokens + rest) == Some((Negation(e), rest))
    {
      assert ParseNot(tokens + rest) == Some((e, rest));
      ConcatAssociates([Not], tokens, rest);
      TakeDrop([Not], tokens + rest);
    }
  }

  lemma GroupOperand(tokens: seq<Token>, e: Expr)
    requires Whole(tokens, e)
    ensures Operand([LeftParen] + tokens + [RightParen], e)
  {
    forall rest
      ensures ParseNot([LeftParen] + tokens + [RightParen] + rest) == Some((e, rest))
    {
      hide ParseExpr;
      var close := [RightParen] + rest;
      TakeDrop([RightParen], rest);
      ConcatAssociates([LeftParen] + tokens, [RightParen], rest);
      ConcatAssociates([LeftParen], tokens, close);
      TakeDrop([LeftParen], tokens + close);
      assert ParseExpr(tokens + close) == Some((e, close));
    }
  }

  /** Each part of a list, with `separator` before it. */
  function Following(separator: Token, parts: seq<seq<Token>>): seq<Token> {
    if parts == [] then [] else [separator] + (parts[0] + Following(separator, parts[1..]))
  }

  /** A list of parts with `separator` between them. */
  function Separated(separator: Token, parts: seq<seq<Token>>): seq<Token>
    requires parts != []
  {
    parts[0] + Following(separator, parts[1..])
  }

  ghost predicate Operands(parts: seq<seq<Token>>, es: seq<Expr>) {
    |parts| == |es| && forall i :: 0 <= i < |parts| ==> Operand(parts[i], es[i])
  }

  function FoldBoth(left: Expr, es: seq<Expr>): Expr
    decreases es
  {
    if es == [] then left else FoldBoth(Both(left, es[0]), es[1..])
  }

  function FoldEither(left: Expr, es: seq<Expr>): Expr
    decreases es
  {
    if es == [] then left else FoldEither(Either(left, es[0]), es[1..])
  }

  lemma FollowingHead(separator: Token, parts: seq<seq<Token>>, rest: seq<Token>)
    ensures parts == [] ==> Following(separator, parts) + rest == rest
    ensures parts != [] ==> var all := Following(separator, parts) + rest;
      && all != [] && all[0] == separator
      && all[1..] == parts[0] + (Following(separator, parts[1..]) + rest)
  {
    if parts != [] {
      var tail := Following(separator, parts[1..]);
      ConcatAssociates([separator], parts[0] + tail, rest);
      ConcatAssociates(parts[0], tail, rest);
      TakeDrop([separator], parts[0] + (tail + rest));
    }
  }

  lemma {:induction false} AndTailReads(left: Expr, parts: seq<seq<Token>>, es: seq<Expr>, rest: seq<Token>)
    requires Operands(parts, es)
    requires rest == [] || rest[0] != And
    ensures AndTail(left, Following(And, parts) + rest) == Some((FoldBoth(left, es), rest))
    decreases parts
  {
    hide ParseNot, Following;
    FollowingHead(And, parts, rest);
    if parts != [] {
      var after := Following(And, parts[1..]) + rest;
      assert Operand(parts[0], es[0]);
      assert ParseNot(parts[0] + after) == Some((es[0], after));
      AndTailReads(Both(left, es[0]), parts[1..], es[1..], rest);
    }
  }

  lemma AndListReads(parts: seq<seq<Token>>, es: seq<Expr>, rest: seq<Token>)
    requires parts != [] && Operands(parts, es)
    requires rest == [] || rest[0] != And
    ensures ParseAnd(Separated(And, parts) + rest) == Some((FoldBoth(es[0], es[1..]), rest))
  {
    hide ParseNot, AndTail;
    var after := Following(And, parts[1..]) + rest;
    ConcatAssociates(parts[0], Following(And, parts[1..]), rest);
    assert Operand(parts[0], es[0]);
    assert ParseNot(parts[0] + after) == Some((es[0], after));
    AndTailReads(es[0], parts[1..], es[1..], rest);
  }

  /** Operands with `and` between them parse to their conjunction. */
  lemma AndListWhole(parts: seq<seq<Token>>, es: seq<Expr>)
    requires parts != [] && Operands(parts, es)
    ensures Whole(Separated(And, parts), FoldBoth(es[0], es[1..]))
  {
    forall rest | rest == [] || rest[0] == RightParen
      ensures ParseExpr(Separated(And, parts) + rest) == Some((FoldBoth(es[0], es[1..]), rest))
    {
      hide ParseAnd;
      AndListReads(parts, es, rest);
    }
  }

  lemma OperandAlone(tokens: seq<Token>, e: Expr, rest: seq<Token>)
    requires Operand(tokens, e)
    requires rest == [] || rest[0] != And
    ensures ParseAnd(tokens + rest) == Some((e, rest))
  {
    hide ParseNot;
    assert ParseNot(tokens + rest) == Some((e, rest));
  }

  lemma {:induction false} OrTailReads(left: Expr, parts: seq<seq<Token>>, es: seq<Expr>, rest: seq<Token>)
    requires Operands(parts, es)
    requires rest == [] || rest[0] == RightParen
    ensures OrTail(left, Following(Or, parts) + rest) == Some((FoldEither(left, es), rest))
    decreases parts
  {
    hide ParseAnd, Following;
    FollowingHead(Or, parts, rest);
    if parts != [] {
      var after := Following(Or, parts[1..]) + rest;
      assert Operand(parts[0], es[0]);
      FollowingHead(Or, parts[1..], rest);
      OperandAlone(parts[0], es[0], after);
      OrTailReads(Either(left, es[0]), parts[1..], es[1..], rest);
    }
  }

  /** Operands with `or` between them parse to their disjunction. */
  lemma OrListWhole(parts: seq<seq<Token>>, es: seq<Expr>)
    requires parts != [] && Operands(parts, es)
    ensures Whole(Separated(Or, parts), FoldEither(es[0], es[1..]))
  {
    forall rest | rest == [] || rest[0] == RightParen
      ensures ParseExpr(Separated(Or, parts) + rest) == Some((FoldEither(es[0], es[1..]), rest))
    {
      hide ParseAnd, OrTail, Following;
      var after := Following(Or, parts[1..]) + rest;
      ConcatAssociates(parts[0], Following(Or, parts[1..]), rest);
      assert Operand(parts[0], es[0]);
      FollowingHead(Or, parts[1..], rest);
      OperandAlone(parts[0], es[0], after);
      OrTailReads(es[0], parts[1..], es[1..], rest);
    }
  }

  predicate AllEval(es: seq<Expr>, matches: string -> bool) {
    forall i :: 0 <= i < |es| ==> Eval(es[i], matches)
  }

  predicate AnyEval(es: seq<Expr>, matches: string -> bool) {
    exists i :: 0 <= i < |es| && Eval(es[i], matches)
  }

  lemma {:induction false} FoldBothMeans(left: Expr, es: seq<Expr>, matches: string -> bool)
    ensures Eval(FoldBoth(left, es), matches) <==> Eval(left, matches) && AllEval(es, matches)
    decreases es
  {
    if es != [] {
      FoldBothMeans(Both(left, es[0]), es[1..], matches);
      assert AllEval(es, matches) <==> Eval(es[0], matches) && AllEval(es[1..], matches) by {
        assert forall i :: 0 < i < |es| ==> es[i] == es[1..][i - 1];
      }
    }
  }

  lemma {:induction false} FoldEitherMeans(left: Expr, es: seq<Expr>, matches: string -> bool)
    ensures Eval(FoldEither(left, es), matches) <==> Eval(left, matches) || AnyEval(es, matches)
    decreases es
  {
    if es != [] {
      FoldEitherMeans(Either(left, es[0]), es[1..], matches);
      assert AnyEval(es, matches) <==> Eval(es[0], matches) || AnyEval(es[1..], matches) by {
        assert forall i :: 0 < i < |es| ==> es[i] == es[1..][i - 1];
      }
    }
  }

  // ---------------------------------------------------------------- scanning what was compiled

  /** These characters scan as these tokens when a word does not run on after them. */
  ghost predicate Scans(text: string, tokens: seq<Token>, letter: Letters) {
    forall rest :: rest == "" || rest[0] == ' ' || rest[0] == ')' ==>
      Tokens(text + rest, letter) == Before(tokens, Tokens(rest, letter))
  }

  /** The run of word characters of a word followed by something else is the word. */
  lemma {:induction false} RunIsWord(w: string, rest: string, letter: Letters)
    requires forall i :: 0 <= i < |w| ==> IsWord(w[i], letter)
    requires rest == "" || !IsWord(rest[0], letter)
    ensures WordRun(w + rest, letter) == |w|
  {
    if w == "" {
      assert w + rest == rest;
    } else {
      assert (w + rest)[1..] == w[1..] + rest;
      RunIsWord(w[1..], rest, letter);
    }
  }

  lemma WordScans(w: string, letter: Letters)
    requires WordText(w, letter)
    ensures Scans(w, [WordToken(w)], letter)
  {
    forall rest | rest == "" || rest[0] == ' ' || rest[0] == ')'
      ensures Tokens(w + rest, letter) == Before([WordToken(w)], Tokens(rest, letter))
    {
      RunIsWord(w, rest, letter);
      assert IsWord((w + rest)[0], letter);
      assert (w + rest)[..|w|] == w && (w + rest)[|w|..] == rest;
    }
  }

  lemma BeforeTwice(a: seq<Token>, b: seq<Token>, rest: Option<seq<Token>>)
    ensures Before(a, Before(b, rest)) == Before(a + b, rest)
  {
    if rest.Some? {
      assert a + (b + rest.value) == (a + b) + rest.value;
    }
  }

  /** Two stretches with a blank between them scan one after the other. */
  lemma SpacedScans(a: string, x: seq<Token>, b: string, y: seq<Token>, letter: Letters)
    requires Scans(a, x, letter) && Scans(b, y, letter)
    ensures Scans(a + " " + b, x + y, letter)
  {
    forall rest | rest == "" || rest[0] == ' ' || rest[0] == ')'
      ensures Tokens(a + " " + b + rest, letter) == Before(x + y, Tokens(rest, letter))
    {
      hide Before;
      var after := " " + (b + rest);
      ConcatAssociates(a + " ", b, rest);
      ConcatAssociates(a, " ", b + rest);
      assert Tokens(a + after, letter) == Before(x, Tokens(after, letter));
      TakeDrop(" ", b + rest);
      assert Tokens(after, letter) == Tokens(b + rest, letter);
      assert Tokens(b + rest, letter) == Before(y, Tokens(rest, letter));
      BeforeTwice(x, y, Tokens(rest, letter));
    }
  }

  lemma GroupScans(a: string, x: seq<Token>, letter: Letters)
    requires Scans(a, x, letter)
    ensures Scans("(" + a + ")", [LeftParen] + x + [RightParen], letter)
  {
    forall rest | rest == "" || rest[0] == ' ' || rest[0] == ')'
      ensures Tokens("(" + a + ")" + rest, letter) == Before([LeftParen] + x + [RightParen], Tokens(rest, letter))
    {
      hide Before;
      var close := ")" + rest;
      ConcatAssociates("(" + a, ")", rest);
      ConcatAssociates("(", a, close);
      TakeDrop("(", a + close);
      assert Tokens("(" + (a + close), letter) == Before([LeftParen], Tokens(a + close, letter));
      assert Tokens(a + close, letter) == Before(x, Tokens(close, letter));
      TakeDrop(")", rest);
      assert Tokens(close, letter) == Before([RightParen], Tokens(rest, letter));
      BeforeTwice(x, [RightParen], Tokens(rest, letter));
      BeforeTwice([LeftParen], x + [RightParen], Tokens(rest, letter));
      ConcatAssociates([LeftParen], x, [RightParen]);
    }
  }

  ghost predicate AllScan(texts: seq<string>, parts: seq<seq<Token>>, letter: Letters) {
    |texts| == |parts| && forall i :: 0 <= i < |texts| ==> Scans(texts[i], parts[i], letter)
  }

  lemma JoinSplits(texts: seq<string>, word: string)
    requires |texts| > 1
    ensures JoinText(texts, " " + word + " ") == (texts[0] + " " + word) + " " + JoinText(texts[1..], " " + word + " ")
  {
    ConcatAssociates(texts[0], " " + word, " ");
    ConcatAssociates(texts[0], " ", word);
    ConcatAssociates(texts[0] + " " + word, " ", JoinText(texts[1..], " " + word + " "));
  }

  lemma SeparatedSplits(separator: Token, parts: seq<seq<Token>>)
    requires |parts| > 1
    ensures Separated(separator, parts) == (parts[0] + [separator]) + Separated(separator, parts[1..])
  {
    ConcatAssociates(parts[0], [separator], Separated(separator, parts[1..]));
  }

  /** A list of stretches joined by a blank-padded reserved word scans as the separated list. */
  lemma {:induction false} ListScans(texts: seq<string>, parts: seq<seq<Token>>, word: string, letter: Letters)
    requires word == "and" || word == "or"
    requires texts != [] && AllScan(texts, parts, letter)
    ensures Scans(JoinText(texts, " " + word + " "), Separated(WordToken(word), parts), letter)
    decreases texts
  {
    if |texts| == 1 {
      assert parts[0] + [] == parts[0];
    } else {
      hide Scans, Tokens, WordToken;
      ListScans(texts[1..], parts[1..], word, letter);
      WordScans(word, letter);
      SpacedScans(texts[0], parts[0], word, [WordToken(word)], letter);
      SpacedScans(texts[0] + " " + word, parts[0] + [WordToken(word)],
                  JoinText(texts[1..], " " + word + " "), Separated(WordToken(word), parts[1..]), letter);
      JoinSplits(texts, word);
      SeparatedSplits(WordToken(word), parts);
    }
  }

  /** Compiled text and what pytest reads in it: its tokens parse as a whole to `e`. */
  ghost predicate Compiles(text: string, tokens: seq<Token>, e: Expr, letter: Letters) {
    Scans(text, tokens, letter) && Whole(tokens, e)
  }

  ghost predicate AllHeld(terms: seq<string>, matches: string -> bool) {
    forall t :: t in terms ==> matches(t)
  }

  /** Terms that a phrase yields: words, none of them reserved, and at least one. */
  predicate GoodTerms(terms: seq<string>, letter: Letters) {
    terms != [] && forall t :: t in terms ==> WordText(t, letter) && !IsKeyword(t)
  }

  lemma KeywordsAreLower()
    ensures Lower("and") == "and" && Lower("or") == "or" && Lower("not") == "not"
  {
    assert "and"[1..] == "nd" && "nd"[1..] == "d" && "d"[1..] == "";
    assert "not"[1..] == "ot" && "ot"[1..] == "t" && "t"[1..] == "";
    assert "or"[1..] == "r" && "r"[1..] == "";
    assert Lower("d") == "d" && Lower("t") == "t" && Lower("r") == "r";
    assert Lower("nd") == "nd" && Lower("ot") == "ot";
  }

  lemma GoodWord(t: string)
    requires !IsKeyword(t)
    ensures WordToken(t) == Ident(t)
  {
    KeywordsAreLower();
  }

  lemma ChainParts(terms: seq<string>, letter: Letters) returns (parts: seq<seq<Token>>, es: seq<Expr>)
    requires GoodTerms(terms, letter)
    ensures AllScan(terms, parts, letter) && Operands(parts, es)
    ensures |es| == |terms| && forall i :: 0 <= i < |es| ==> es[i] == Name(terms[i])
  {
    parts, es := Map(terms, t => [Ident(t)]), Map(terms, t => Name(t));
    forall i | 0 <= i < |terms|
      ensures Scans(terms[i], parts[i], letter) && Operand(parts[i], es[i])
    {
      assert terms[i] in terms;
      GoodWord(terms[i]);
      WordScans(terms[i], letter);
      IdentOperand(terms[i]);
    }
  }

  /** A chain of terms holds when every term does. */
  lemma ChainCompiles(terms: seq<string>, letter: Letters) returns (tokens: seq<Token>, e: Expr)
    requires GoodTerms(terms, letter)
    ensures Compiles(Chain(terms), tokens, e, letter)
    ensures forall matches :: Eval(e, matches) <==> AllHeld(terms, matches)
  {
    var parts, es := ChainParts(terms, letter);
    ListScans(terms, parts, "and", letter);
    assert " " + "and" + " " == " and ";
    AndListWhole(parts, es);
    tokens, e := Separated(And, parts), FoldBoth(es[0], es[1..]);
    forall matches
      ensures Eval(e, matches) <==> AllHeld(terms, matches)
    {
      FoldBothWhole(es, matches);
      NamesHold(terms, es, matches);
    }
  }

  lemma FoldBothWhole(es: seq<Expr>, matches: string -> bool)
    requires es != []
    ensures Eval(FoldBoth(es[0], es[1..]), matches) <==> AllEval(es, matches)
  {
    FoldBothMeans(es[0], es[1..], matches);
    assert forall i :: 0 < i < |es| ==> es[i] == es[1..][i - 1];
  }

  lemma FoldEitherWhole(es: seq<Expr>, matches: string -> bool)
    requires es != []
    ensures Eval(FoldEither(es[0], es[1..]), matches) <==> AnyEval(es, matches)
  {
    FoldEitherMeans(es[0], es[1..], matches);
    assert forall i :: 0 < i < |es| ==> es[i] == es[1..][i - 1];
  }

  lemma NamesHold(terms: seq<string>, es: seq<Expr>, matches: string -> bool)
    requires |es| == |terms| && forall i :: 0 <= i < |es| ==> es[i] == Name(terms[i])
    ensures AllEval(es, matches) <==> AllHeld(terms, matches)
  {
    if AllEval(es, matches) {
      forall t | t in terms
        ensures matches(t)
      {
        var i :| 0 <= i < |terms| && terms[i] == t;
        assert Eval(es[i], matches);
      }
    }
  }

  // ---------------------------------------------------------------- names and excludes together

  ghost predicate GoodPhrases(phrases: seq<seq<string>>, letter: Letters) {
    forall i :: 0 <= i < |phrases| ==> GoodTerms(phrases[i], letter)
  }

  ghost predicate AnyHeld(phrases: seq<seq<string>>, matches: string -> bool) {
    exists i :: 0 <= i < |phrases| && AllHeld(phrases[i], matches)
  }

  /** The operand for each phrase: its chain in parentheses, with `not` before it when it is excluded. */
  lemma {:induction false} PhraseOperands(phrases: seq<seq<string>>, negated: bool, letter: Letters)
    returns (parts: seq<seq<Token>>, es: seq<Expr>)
    requires GoodPhrases(phrases, letter)
    ensures AllScan(Map(phrases, t => (if negated then "not (" else "(") + Chain(t) + ")"), parts, letter)
    ensures Operands(parts, es) && |es| == |phrases|
    ensures forall i, matches :: 0 <= i < |es| ==>
        (Eval(es[i], matches) <==> (AllHeld(phrases[i], matches) <==> !negated))
    decreases phrases
  {
    if phrases == [] {
      parts, es := [], [];
    } else {
      var restParts, restEs := PhraseOperands(phrases[1..], negated, letter);
      var part, e := PhraseOperand(phrases[0], negated, letter);
      parts, es := [part] + restParts, [e] + restEs;
    }
  }

  lemma PhraseOperand(terms: seq<string>, negated: bool, letter: Letters) returns (part: seq<Token>, e: Expr)
    requires GoodTerms(terms, letter)
    ensures Scans((if negated then "not (" else "(") + Chain(terms) + ")", part, letter)
    ensures Operand(part, e)
    ensures forall matches :: Eval(e, matches) <==> (AllHeld(terms, matches) <==> !negated)
  {
    var tokens, inner := ChainCompiles(terms, letter);
    GroupScans(Chain(terms), tokens, letter);
    GroupOperand(tokens, inner);
    part, e := [LeftParen] + tokens + [RightParen], inner;
    if negated {
      NotScans("(" + Chain(terms) + ")", part, letter);
      NegatedText(Chain(terms));
      NotOperand(part, e);
      part, e := [Not] + part, Negation(e);
    }
  }

  lemma NegatedText(x: string)
    ensures "not (" + x + ")" == "not" + " " + ("(" + x + ")")
  {
    assert "not" + " " + "(" == "not (";
    ConcatAssociates("not" + " ", "(", x);
    ConcatAssociates("not" + " ", "(" + x, ")");
  }

  lemma NotScans(text: string, tokens: seq<Token>, letter: Letters)
    requires Scans(text, tokens, letter)
    ensures Scans("not" + " " + text, [Not] + tokens, letter)
  {
    WordScans("not", letter);
    SpacedScans("not", [Not], text, tokens, letter);
  }

  lemma AndScans(a: string, x: seq<Token>, b: string, y: seq<Token>, letter: Letters)
    requires Scans(a, x, letter) && Scans(b, y, letter)
    ensures Scans(a + " and " + b, (x + [And]) + y, letter)
  {
    WordScans("and", letter);
    SpacedScans(a, x, "and", [And], letter);
    SpacedScans(a + " " + "and", x + [And], b, y, letter);
    ConcatAssociates(a, " ", "and");
    ConcatAssociates(a, " " + "and", " ");
    assert " " + "and" + " " == " and ";
  }

  /** What the names compile to is held when some name has all its terms. */
  lemma KeptCompiles(names: seq<seq<string>>, letter: Letters) returns (tokens: seq<Token>, e: Expr)
    requires names != [] && GoodPhrases(names, letter)
    ensures Compiles(Kept(names), tokens, e, letter)
    ensures forall matches :: Eval(e, matches) <==> AnyHeld(names, matches)
  {
    hide Scans, Whole, Chain;
    if |names| == 1 {
      tokens, e := ChainCompiles(names[0], letter);
    } else {
      var parts, es := PhraseOperands(names, false, letter);
      assert Map(names, t => (if false then "not (" else "(") + Chain(t) + ")")
          == Map(names, t => "(" + Chain(t) + ")");
      ListScans(Map(names, t => "(" + Chain(t) + ")"), parts, "or", letter);
      assert " " + "or" + " " == " or ";
      OrListWhole(parts, es);
      tokens, e := Separated(Or, parts), FoldEither(es[0], es[1..]);
      forall matches
        ensures Eval(e, matches) <==> AnyHeld(names, matches)
      {
        FoldEitherWhole(es, matches);
      }
    }
  }

  /** The excludes are a list of operands, each held when its phrase is not. */
  lemma DroppedCompiles(excludes: seq<seq<string>>, letter: Letters)
    returns (parts: seq<seq<Token>>, es: seq<Expr>)
    requires excludes != [] && GoodPhrases(excludes, letter)
    ensures |parts| == |es| == |excludes| && Operands(parts, es)
    ensures Scans(Dropped(excludes), Separated(And, parts), letter)
    ensures forall matches :: AllEval(es, matches) <==> !AnyHeld(excludes, matches)
  {
    hide Scans, Chain, JoinText, Separated, Operands;
    parts, es := PhraseOperands(excludes, true, letter);
    assert Map(excludes, t => (if true then "not (" else "(") + Chain(t) + ")")
        == Map(excludes, t => "not (" + Chain(t) + ")");
    ListScans(Map(excludes, t => "not (" + Chain(t) + ")"), parts, "and", letter);
    assert " " + "and" + " " == " and ";
  }

  lemma WholeReads(text: string, tokens: seq<Token>, e: Expr, letter: Letters)
    requires Compiles(text, tokens, e, letter)
    ensures Read(text, letter) == Some(e)
  {
    assert text + "" == text && tokens + [] == tokens;
    assert Tokens(text + "", letter) == Before(tokens, Tokens("", letter));
    assert ParseExpr(tokens + []) == Some((e, []));
  }

  /** The compiled expression parses, and selects what some name holds all of and no exclude does. */
  lemma ExpressionMeans(names: seq<seq<string>>, excludes: seq<seq<string>>, letter: Letters) returns (e: Expr)
    requires names != [] || excludes != []
    requires GoodPhrases(names, letter) && GoodPhrases(excludes, letter)
    ensures Read(Expression(names, excludes), letter) == Some(e)
    ensures forall matches :: Eval(e, matches) <==>
        (names == [] || AnyHeld(names, matches)) && !AnyHeld(excludes, matches)
  {
    if excludes == [] {
      var tokens;
      tokens, e := KeptCompiles(names, letter);
      WholeReads(Kept(names), tokens, e, letter);
    } else {
      var parts, es := DroppedCompiles(excludes, letter);
      if names == [] {
        AndListWhole(parts, es);
        e := FoldBoth(es[0], es[1..]);
        WholeReads(Dropped(excludes), Separated(And, parts), e, letter);
        forall matches
          ensures Eval(e, matches) <==> !AnyHeld(excludes, matches)
        {
          FoldBothWhole(es, matches);
        }
      } else {
        e := BothMeans(names, excludes, parts, es, letter);
      }
    }
  }

  lemma BothMeans(names: seq<seq<string>>, excludes: seq<seq<string>>, parts: seq<seq<Token>>, es: seq<Expr>,
      letter: Letters)
    returns (e: Expr)
    requires names != [] && excludes != [] && GoodPhrases(names, letter)
    requires |parts| == |es| == |excludes| && Operands(parts, es)
    requires Scans(Dropped(excludes), Separated(And, parts), letter)
    requires forall matches :: AllEval(es, matches) <==> !AnyHeld(excludes, matches)
    ensures Read(Expression(names, excludes), letter) == Some(e)
    ensures forall matches :: Eval(e, matches) <==> AnyHeld(names, matches) && !AnyHeld(excludes, matches)
  {
    var tokens, kept := KeptCompiles(names, letter);
    var group := [LeftParen] + tokens + [RightParen];
    GroupScans(Kept(names), tokens, letter);
    GroupOperand(tokens, kept);
    GroupAndList("(" + Kept(names) + ")", group, kept, Dropped(excludes), parts, es, letter);
    BothText(Kept(names), Dropped(excludes));
    e := FoldBoth(kept, es);
    forall matches
      ensures Eval(e, matches) <==> AnyHeld(names, matches) && !AnyHeld(excludes, matches)
    {
      FoldBothMeans(kept, es, matches);
    }
  }

  lemma BothText(kept: string, dropped: string)
    ensures "(" + kept + ")" + " and " + dropped == "(" + kept + ") and " + dropped
  {
    assert ")" + " and " == ") and ";
    ConcatAssociates("(" + kept, ")", " and ");
  }

  lemma GroupAndList(text: string, group: seq<Token>, kept: Expr, rest: string, parts: seq<seq<Token>>, es: seq<Expr>,
                     letter: Letters)
    requires Scans(text, group, letter) && Operand(group, kept)
    requires parts != [] && Operands(parts, es) && Scans(rest, Separated(And, parts), letter)
    ensures Read(text + " and " + rest, letter) == Some(FoldBoth(kept, es))
  {
    AndScans(text, group, rest, Separated(And, parts), letter);
    SeparatedSplits(And, [group] + parts);
    assert ([group] + parts)[1..] == parts && ([kept] + es)[1..] == es;
    AndListWhole([group] + parts, [kept] + es);
    WholeReads(text + " and " + rest, Separated(And, [group] + parts), FoldBoth(kept, es), letter);
  }

  /** The terms of an accepted phrase are words, none of them reserved. */
  lemma TermsGood(phrase: string, letter: Letters)
    requires PhraseTerms(phrase, letter).Success?
    ensures GoodTerms(PhraseTerms(phrase, letter).value, letter)
  {
    JoinKeeps([], false, Words(phrase, letter), letter);
  }

  /** Whether a test's name has every term of a phrase. */
  ghost predicate Holds(phrase: string, letter: Letters, matches: string -> bool) {
    exists groups :: TermsOf(phrase, letter, groups) && forall g :: g in groups ==> matches(JoinText(g, "_"))
  }

  lemma HoldsExactly(phrase: string, letter: Letters, matches: string -> bool)
    requires PhraseTerms(phrase, letter).Success?
    ensures Holds(phrase, letter, matches) <==> AllHeld(PhraseTerms(phrase, letter).value, matches)
  {
    hide TermsOf, Nameless, Words, JoinText;
    var groups := TermsOfExactly(phrase, letter);
    TermsExactly(phrase, letter, groups);
    var terms := TermTexts(groups);
    if AllHeld(terms, matches) {
      forall g | g in groups
        ensures matches(JoinText(g, "_"))
      {
        var i :| 0 <= i < |groups| && groups[i] == g;
        assert terms[i] in terms;
      }
    }
    if forall g :: g in groups ==> matches(JoinText(g, "_")) {
      forall t | t in terms
        ensures matches(t)
      {
        var i :| 0 <= i < |terms| && terms[i] == t;
        assert groups[i] in groups;
      }
    }
  }

  /**
   The selection is refused exactly when one of its phrases has no word, or one word and that one reserved.
   Otherwise pytest reads it as: some name has all its terms, or no name was given, and no exclude has all
   its terms, the terms of a phrase being its runs of word characters joined at the reserved ones.
   */
  lemma SelectionMeans(names: seq<string>, excludes: seq<string>, letter: Letters)
    requires names != [] || excludes != []
    ensures Selection(names, excludes, letter).Failure? <==>
        exists p :: (p in names || p in excludes) && Nameless(p, letter)
    ensures Selection(names, excludes, letter).Success? ==>
        && Read(Selection(names, excludes, letter).value, letter).Some?
        && forall matches :: Eval(Read(Selection(names, excludes, letter).value, letter).value, matches) <==>
             (names == [] || exists n :: n in names && Holds(n, letter, matches))
             && forall x :: x in excludes ==> !Holds(x, letter, matches)
  {
    hide Nameless, Holds, PhraseTerms, Read, Eval;
    var kept, dropped := AllTerms(names, letter), AllTerms(excludes, letter);
    forall p
      ensures PhraseTerms(p, letter).Failure? <==> Nameless(p, letter)
    {
      RefusedExactly(p, letter);
    }
    if kept.Success? && dropped.Success? {
      AllGood(names, kept.value, letter);
      AllGood(excludes, dropped.value, letter);
      var e := ExpressionMeans(kept.value, dropped.value, letter);
      forall matches
        ensures AnyHeld(kept.value, matches) <==> exists n :: n in names && Holds(n, letter, matches)
        ensures AnyHeld(dropped.value, matches) <==> exists x :: x in excludes && Holds(x, letter, matches)
      {
        HeldByPhrase(names, kept.value, letter, matches);
        HeldByPhrase(excludes, dropped.value, letter, matches);
      }
    }
  }

  lemma AllGood(phrases: seq<string>, terms: seq<seq<string>>, letter: Letters)
    requires |terms| == |phrases|
    requires forall i :: 0 <= i < |phrases| ==> PhraseTerms(phrases[i], letter) == Success(terms[i])
    ensures GoodPhrases(terms, letter)
  {
    hide PhraseTerms;
    forall i | 0 <= i < |phrases|
      ensures GoodTerms(terms[i], letter)
    {
      TermsGood(phrases[i], letter);
    }
  }

  lemma HeldByPhrase(phrases: seq<string>, terms: seq<seq<string>>, letter: Letters, matches: string -> bool)
    requires |terms| == |phrases|
    requires forall i :: 0 <= i < |phrases| ==> PhraseTerms(phrases[i], letter) == Success(terms[i])
    ensures AnyHeld(terms, matches) <==> exists p :: p in phrases && Holds(p, letter, matches)
  {
    hide PhraseTerms, Holds;
    forall i | 0 <= i < |phrases|
      ensures Holds(phrases[i], letter, matches) <==> AllHeld(terms[i], matches)
    {
      HoldsExactly(phrases[i], letter, matches);
    }
    if AnyHeld(terms, matches) {
      var i :| 0 <= i < |terms| && AllHeld(terms[i], matches);
      assert phrases[i] in phrases && Holds(phrases[i], letter, matches);
    }
    if p :| p in phrases && Holds(p, letter, matches) {
      var i :| 0 <= i < |phrases| && phrases[i] == p;
      assert AllHeld(terms[i], matches);
    }
  }
}
