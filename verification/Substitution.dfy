/**
 The counting guard of a table derivation: a global replacement is allowed when the occurrences in
 the whole text are as many as the occurrences inside the editable stretches. This module says when
 that guard is enough, for text cut into stretches that may be edited and stretches that may not.
 */
module Substitution {
  import opened Sequences

  /** A stretch that may not be edited, and the editable one after it. */
  datatype Piece<T> = Piece(outside: seq<T>, inside: seq<T>)

  function Join<T>(ps: seq<Piece<T>>, tail: seq<T>): seq<T> {
    if ps == [] then tail else ps[0].outside + (ps[0].inside + Join(ps[1..], tail))
  }

  function CountInside<T(==)>(ps: seq<Piece<T>>, pat: seq<T>): nat
    requires pat != []
  {
    if ps == [] then 0 else Count(ps[0].inside, pat) + CountInside(ps[1..], pat)
  }

  /** The same pieces with only the editable stretches replaced. */
  function ReplaceInside<T(==)>(ps: seq<Piece<T>>, pat: seq<T>, sub: seq<T>): (r: seq<Piece<T>>)
    requires pat != []
    ensures |r| == |ps|
    ensures forall i :: 0 <= i < |r| ==> r[i].outside == ps[i].outside && r[i].inside == Replace(ps[i].inside, pat, sub)
  {
    if ps == [] then []
    else [Piece(ps[0].outside, Replace(ps[0].inside, pat, sub))] + ReplaceInside(ps[1..], pat, sub)
  }

  /** Whether two occurrences of `pat` can overlap: some proper end of it is also its beginning. */
  predicate SelfOverlaps<T(==)>(pat: seq<T>) {
    exists k :: 0 < k < |pat| && pat[k..] <= pat
  }

  /** No occurrence of `pat` lies across the join of `a` and `b`, because an element at the join is not in `pat`. */
  predicate Seam<T(==)>(a: seq<T>, b: seq<T>, pat: seq<T>) {
    a == [] || b == [] || a[|a| - 1] !in pat || b[0] !in pat
  }

  /** Two occurrences that share elements show that the pattern can overlap itself. */
  lemma SharedEnd<T>(a: seq<T>, b: seq<T>, pat: seq<T>, i: nat)
    requires 0 < |a| && |a| + i < |pat| <= |a| + |b|
    requires pat <= a + b
    requires pat <= b[i..]
    ensures SelfOverlaps(pat)
  {
    var shift, k := |a| + i, |pat| - |a|;
    assert pat[shift..] == (a + b)[..|pat|][shift..] == b[i..k];
    assert b[i..k] == b[i..][..k - i] == pat[..k - i];
    assert pat[shift..] <= pat;
  }

  /** Where one occurrence of a pattern that cannot overlap itself ends, no other has begun. */
  lemma NoneBegun<T>(a: seq<T>, b: seq<T>, pat: seq<T>, sub: seq<T>)
    requires 0 < |a| < |pat| <= |a| + |b|
    requires pat <= a + b
    requires !SelfOverlaps(pat)
    ensures var k := |pat| - |a|; Count(b, pat) == Count(b[k..], pat)
  {
    var k := |pat| - |a|;
    var x, y := b[..k], b[k..];
    assert x + y == b;
    forall i | 0 <= i < |x|
      ensures !(pat <= (x + y)[i..])
    {
      if pat <= b[i..] {
        SharedEnd(a, b, pat, i);
      }
    }
    SkipStretch(x, y, pat, sub);
  }

  lemma WithinFirst<T>(a: seq<T>, b: seq<T>, pat: seq<T>)
    requires pat <= a + b
    requires |a| >= |pat|
    ensures pat <= a
  {
    assert pat == (a + b)[..|pat|] == a[..|pat|];
  }

  /**
   Cutting a text never finds more occurrences than the whole text has, and when it finds as many,
   replacing in the parts is replacing in the whole.
   */
  lemma {:induction false} SearchParts<T>(a: seq<T>, b: seq<T>, pat: seq<T>, sub: seq<T>)
    requires pat != []
    requires !SelfOverlaps(pat) || Seam(a, b, pat)
    ensures Count(a + b, pat) >= Count(a, pat) + Count(b, pat)
    ensures Count(a + b, pat) == Count(a, pat) + Count(b, pat)
        ==> Replace(a + b, pat, sub) == Replace(a, pat, sub) + Replace(b, pat, sub)
    decreases |a|
  {
    if a == [] {
      assert a + b == b;
    } else if pat <= a {
      assert (a + b)[|pat|..] == a[|pat|..] + b;
      SearchParts(a[|pat|..], b, pat, sub);
    } else if pat <= a + b {
      assert |a| < |pat| by {
        if |a| >= |pat| { WithinFirst(a, b, pat); }
      }
      AcrossJoin(a, b, pat);
      assert !Seam(a, b, pat);
      NoneBegun(a, b, pat, sub);
      assert (a + b)[|pat|..] == b[|pat| - |a|..];
      TooShort(a, pat);
    } else {
      assert (a + b)[1..] == a[1..] + b;
      SearchParts(a[1..], b, pat, sub);
    }
  }

  lemma {:induction false} TooShort<T>(a: seq<T>, pat: seq<T>)
    requires |a| < |pat|
    ensures Count(a, pat) == 0
  {
    if a != [] {
      TooShort(a[1..], pat);
    }
  }

  /** An occurrence that begins in `a` and is not all there holds the elements on both sides of the join. */
  lemma AcrossJoin<T>(a: seq<T>, b: seq<T>, pat: seq<T>)
    requires a != [] && !(pat <= a)
    ensures pat <= a + b ==> b != [] && a[|a| - 1] in pat && b[0] in pat
  {
    if pat <= a + b {
      if |a| >= |pat| { WithinFirst(a, b, pat); }
      assert pat[|a| - 1] == (a + b)[..|pat|][|a| - 1] == a[|a| - 1];
      assert pat[|a|] == (a + b)[..|pat|][|a|] == b[0];
    }
  }

  /** Where no occurrence can lie across the join, a text is searched part by part. */
  lemma {:induction false} SeamSplits<T>(a: seq<T>, b: seq<T>, pat: seq<T>, sub: seq<T>)
    requires pat != [] && Seam(a, b, pat)
    ensures Count(a + b, pat) == Count(a, pat) + Count(b, pat)
    ensures Replace(a + b, pat, sub) == Replace(a, pat, sub) + Replace(b, pat, sub)
    decreases |a|
  {
    if a == [] {
      assert a + b == b;
    } else if pat <= a {
      assert (a + b)[|pat|..] == a[|pat|..] + b;
      SeamSplits(a[|pat|..], b, pat, sub);
      ConcatAssociates(sub, Replace(a[|pat|..], pat, sub), Replace(b, pat, sub));
    } else {
      AcrossJoin(a, b, pat);
      assert b == [] ==> a + b == a;
      assert (a + b)[1..] == a[1..] + b;
      SeamSplits(a[1..], b, pat, sub);
      ConcatAssociates([a[0]], Replace(a[1..], pat, sub), Replace(b, pat, sub));
    }
  }

  /** A text counts no fewer than its beginning, and when no more, only the beginning is changed. */
  lemma {:induction false} SearchBeginning<T>(a: seq<T>, b: seq<T>, pat: seq<T>, sub: seq<T>)
    requires pat != []
    ensures Count(a + b, pat) >= Count(a, pat)
    ensures Count(a + b, pat) == Count(a, pat) ==> Replace(a + b, pat, sub) == Replace(a, pat, sub) + b
    decreases |a|
  {
    if a == [] {
      assert a + b == b;
      if Count(b, pat) == 0 { NothingToReplace(b, pat, sub); }
    } else if pat <= a {
      assert (a + b)[|pat|..] == a[|pat|..] + b;
      SearchBeginning(a[|pat|..], b, pat, sub);
      ConcatAssociates(sub, Replace(a[|pat|..], pat, sub), b);
    } else if pat <= a + b {
      if |a| >= |pat| { WithinFirst(a, b, pat); }
      TooShort(a, pat);
    } else {
      assert (a + b)[1..] == a[1..] + b;
      SearchBeginning(a[1..], b, pat, sub);
      ConcatAssociates([a[0]], Replace(a[1..], pat, sub), b);
    }
  }

  /** Every editable stretch comes right after one and the same element. */
  predicate Follow<T(==)>(ps: seq<Piece<T>>, edge: T) {
    forall i :: 0 <= i < |ps| ==> ps[i].outside != [] && ps[i].outside[|ps[i].outside| - 1] == edge
  }

  /**
   The guard is enough when the pattern cannot overlap itself, or does not hold the element that every
   editable stretch follows: what a global replacement then changes is the editable stretches alone,
   and every other stretch is still there, unchanged and in order.
   */
  lemma CountGuard<T>(ps: seq<Piece<T>>, tail: seq<T>, pat: seq<T>, sub: seq<T>, edge: T)
    requires pat != []
    requires !SelfOverlaps(pat) || (Follow(ps, edge) && edge !in pat)
    ensures Count(Join(ps, tail), pat) >= CountInside(ps, pat)
    ensures Count(Join(ps, tail), pat) == CountInside(ps, pat)
        ==> Replace(Join(ps, tail), pat, sub) == Join(ReplaceInside(ps, pat, sub), tail)
  {
    if !SelfOverlaps(pat) {
      GuardApart(ps, tail, pat, sub);
    } else if ps != [] {
      var rest := ps[0].inside + Join(ps[1..], tail);
      SeamSplits(ps[0].outside, rest, pat, sub);
      GuardAfter(ps[0].inside, ps[1..], tail, pat, sub, edge);
      if Count(Join(ps, tail), pat) == CountInside(ps, pat) {
        NothingToReplace(ps[0].outside, pat, sub);
        assert ReplaceInside(ps, pat, sub)[1..] == ReplaceInside(ps[1..], pat, sub);
      }
    } else if Count(tail, pat) == 0 {
      NothingToReplace(tail, pat, sub);
    }
  }

  lemma {:induction false} GuardApart<T>(ps: seq<Piece<T>>, tail: seq<T>, pat: seq<T>, sub: seq<T>)
    requires pat != [] && !SelfOverlaps(pat)
    ensures Count(Join(ps, tail), pat) >= CountInside(ps, pat)
    ensures Count(Join(ps, tail), pat) == CountInside(ps, pat)
        ==> Replace(Join(ps, tail), pat, sub) == Join(ReplaceInside(ps, pat, sub), tail)
  {
    if ps == [] {
      if Count(tail, pat) == 0 {
        NothingToReplace(tail, pat, sub);
      }
    } else {
      var rest := Join(ps[1..], tail);
      SearchParts(ps[0].inside, rest, pat, sub);
      SearchParts(ps[0].outside, ps[0].inside + rest, pat, sub);
      GuardApart(ps[1..], tail, pat, sub);
      if Count(Join(ps, tail), pat) == CountInside(ps, pat) {
        NothingToReplace(ps[0].outside, pat, sub);
        assert ReplaceInside(ps, pat, sub)[1..] == ReplaceInside(ps[1..], pat, sub);
      }
    }
  }

  /** What follows an edge: an editable stretch, and then every other one after an edge of its own. */
  lemma {:induction false} GuardAfter<T>(inside: seq<T>, ps: seq<Piece<T>>, tail: seq<T>, pat: seq<T>, sub: seq<T>,
      edge: T)
    requires pat != [] && edge !in pat && Follow(ps, edge)
    ensures Count(inside + Join(ps, tail), pat) >= Count(inside, pat) + CountInside(ps, pat)
    ensures Count(inside + Join(ps, tail), pat) == Count(inside, pat) + CountInside(ps, pat)
        ==> Replace(inside + Join(ps, tail), pat, sub)
            == Replace(inside, pat, sub) + Join(ReplaceInside(ps, pat, sub), tail)
    decreases |ps|
  {
    hide Count, Replace, SelfOverlaps;
    if ps == [] {
      SearchBeginning(inside, tail, pat, sub);
    } else {
      var out, rest := ps[0].outside, ps[0].inside + Join(ps[1..], tail);
      ConcatAssociates(inside, out, rest);
      assert (inside + out)[|inside + out| - 1] == edge;
      SeamSplits(inside + out, rest, pat, sub);
      SearchBeginning(inside, out, pat, sub);
      GuardAfter(ps[0].inside, ps[1..], tail, pat, sub, edge);
      assert ReplaceInside(ps, pat, sub)[1..] == ReplaceInside(ps[1..], pat, sub);
      ConcatAssociates(Replace(inside, pat, sub), out,
                       Replace(ps[0].inside, pat, sub) + Join(ReplaceInside(ps[1..], pat, sub), tail));
    }
  }

  /** Whether passing the guard always means that only editable stretches change. */
  ghost predicate GuardSound(pat: string)
    requires pat != []
  {
    forall ps, tail, sub ::
      Count(Join(ps, tail), pat) == CountInside(ps, pat)
      ==> Replace(Join(ps, tail), pat, sub) == Join(ReplaceInside(ps, pat, sub), tail)
  }

  /**
   Over arbitrary stretches the guard is sound for exactly the patterns that cannot overlap
   themselves. For any other pattern there is a text the guard lets through in which the
   replacement starts outside the editable stretch.
   */
  lemma GuardSoundExactly(pat: string)
    requires pat != []
    ensures GuardSound(pat) <==> !SelfOverlaps(pat)
  {
    if SelfOverlaps(pat) {
      var k :| 0 < k < |pat| && pat[k..] <= pat;
      Misaligned(pat, k);
    } else {
      forall ps, tail, sub
        ensures Count(Join(ps, tail), pat) == CountInside(ps, pat)
            ==> Replace(Join(ps, tail), pat, sub) == Join(ReplaceInside(ps, pat, sub), tail)
      {
        GuardApart(ps, tail, pat, sub);
      }
    }
  }

  lemma Misaligned(pat: string, k: nat)
    requires 0 < k < |pat| && pat[k..] <= pat
    ensures !GuardSound(pat)
  {
    var ps := [Piece(pat[..k], pat)];
    var sub := [if pat[0] == 'a' then 'b' else 'a'];
    var whole := pat[..k] + pat;
    assert Join(ps, []) == whole by {
      assert ps[1..] == [];
      assert pat + [] == pat;
    }
    assert pat <= whole by {
      assert pat == pat[..k] + pat[k..];
      assert pat == pat[..|pat| - k] + pat[|pat| - k..];
      assert pat[k..] == pat[..|pat| - k];
    }
    TooShort(whole[|pat|..], pat);
    NothingToReplace(whole[|pat|..], pat, sub);
    assert pat[|pat|..] == [];
    assert Count(pat, pat) == 1;
    assert ps[1..] == [];
    assert CountInside(ps, pat) == 1;
    assert Replace(whole, pat, sub)[0] == sub[0];
    assert ReplaceInside(ps, pat, sub)[0].outside == pat[..k];
    assert Join(ReplaceInside(ps, pat, sub), [])[0] == pat[0];
  }

  /** Editable stretches as a table has them: each after a `>` and before a `<`, and none of them empty. */
  predicate BetweenBrackets(ps: seq<Piece<char>>, tail: string) {
    forall i :: 0 <= i < |ps| ==> StandsBetween(ps, tail, i)
  }

  predicate StandsBetween(ps: seq<Piece<char>>, tail: string, i: nat)
    requires i < |ps|
  {
    var before, after := ps[i].outside, if i + 1 < |ps| then ps[i + 1].outside else tail;
    ps[i].inside != [] && before != [] && before[|before| - 1] == '>' && after != [] && after[0] == '<'
  }

  lemma BetweenFollow(ps: seq<Piece<char>>, tail: string)
    requires BetweenBrackets(ps, tail)
    ensures Follow(ps, '>')
  {
    forall i | 0 <= i < |ps|
      ensures ps[i].outside != [] && ps[i].outside[|ps[i].outside| - 1] == '>'
    {
      assert StandsBetween(ps, tail, i);
    }
  }

  /** Whether passing the guard means that only such stretches change. */
  ghost predicate GuardSoundBetween(pat: string)
    requires pat != []
  {
    forall ps, tail, sub ::
      BetweenBrackets(ps, tail) && Count(Join(ps, tail), pat) == CountInside(ps, pat)
      ==> Replace(Join(ps, tail), pat, sub) == Join(ReplaceInside(ps, pat, sub), tail)
  }

  /**
   Over stretches that stand between `>` and `<` the guard is sound for exactly the patterns that cannot
   overlap themselves or hold no `>`. For any other pattern there is a text the guard lets through in
   which the replacement starts before the editable stretch.
   */
  lemma GuardSoundBetweenExactly(pat: string)
    requires pat != []
    ensures GuardSoundBetween(pat) <==> !SelfOverlaps(pat) || '>' !in pat
  {
    if SelfOverlaps(pat) && '>' in pat {
      var k :| 0 < k < |pat| && pat[k..] <= pat;
      var i :| 0 <= i < |pat| && pat[i] == '>';
      MisalignedBetween(pat, k, InPeriod(pat, k, i));
    } else {
      forall ps, tail, sub | BetweenBrackets(ps, tail)
        ensures Count(Join(ps, tail), pat) == CountInside(ps, pat)
            ==> Replace(Join(ps, tail), pat, sub) == Join(ReplaceInside(ps, pat, sub), tail)
      {
        BetweenFollow(ps, tail);
        CountGuard(ps, tail, pat, sub, '>');
      }
    }
  }

  /** A pattern shifted by `k` onto itself repeats every element within its first `k`. */
  function InPeriod(pat: string, k: nat, i: nat): (j: nat)
    requires 0 < k < |pat| && pat[k..] <= pat && i < |pat|
    ensures j < k && pat[j] == pat[i]
  {
    if i < k then i
    else
      assert pat[k..][i - k] == pat[i - k];
      InPeriod(pat, k, i - k)
  }

  lemma MisalignedBetween(pat: string, k: nat, j: nat)
    requires 0 < k < |pat| && pat[k..] <= pat && j < k && pat[j] == '>'
    ensures !GuardSoundBetween(pat)
  {
    hide Count, Replace;
    var out, inside := pat[..j + 1], pat[j + 1..k] + pat;
    var ps := [Piece(out, inside)];
    var sub := [if pat[0] == 'a' then 'b' else 'a'];
    assert ps[1..] == [];
    assert Join(ps, "<") == out + (inside + "<");
    ShiftedText(pat, k, j, sub);
    CountedOnce(pat[j + 1..k], pat);
    assert CountInside(ps, pat) == Count(inside, pat) + CountInside(ps[1..], pat);
    assert BetweenBrackets(ps, "<");
    assert ReplaceInside(ps, pat, sub)[0].outside == out;
    assert Join(ReplaceInside(ps, pat, sub), "<")[0] == pat[0];
  }

  /**
   The pattern after its own first `k` elements holds one occurrence as the search goes, and that one at
   the start.
   */
  lemma ShiftedText(pat: string, k: nat, j: nat, sub: string)
    requires 0 < k < |pat| && pat[k..] <= pat && j < k && pat[j] == '>' && sub != []
    ensures var whole := pat[..j + 1] + (pat[j + 1..k] + pat + "<");
            Count(whole, pat) == 1 && Replace(whole, pat, sub) != [] && Replace(whole, pat, sub)[0] == sub[0]
  {
    var whole := pat[..j + 1] + (pat[j + 1..k] + pat + "<");
    assert whole == (pat[..k] + pat) + "<";
    ShiftedStart(pat, k);
    ConcatAssociates(pat, pat[|pat| - k..], "<");
    TakeDrop(pat, pat[|pat| - k..] + "<");
    LeftShort(pat, k, j);
  }

  lemma ShiftedStart(pat: string, k: nat)
    requires 0 < k < |pat| && pat[k..] <= pat
    ensures pat[..k] + pat == pat + pat[|pat| - k..]
  {
    assert pat == pat[..k] + pat[k..];
    assert pat[k..] == pat[..|pat| - k];
    assert pat == pat[..|pat| - k] + pat[|pat| - k..];
  }

  lemma LeftShort(pat: string, k: nat, j: nat)
    requires 0 < k < |pat| && j < |pat| && pat[j] == '>'
    ensures Count(pat[|pat| - k..] + "<", pat) == 0
  {
    var left := pat[|pat| - k..] + "<";
    if k + 1 < |pat| {
      TooShort(left, pat);
    } else {
      ShiftedByOne(pat, left, j);
      TooShort(left[1..], pat);
    }
  }

  lemma ShiftedByOne(pat: string, left: string, j: nat)
    requires pat != [] && left == pat[1..] + "<" && j < |pat|
    ensures pat <= left ==> pat[j] == '<'
  {
    if pat <= left {
      assert left == left[..|pat|] == pat;
      assert forall i :: 0 <= i < |pat| - 1 ==> pat[i] == left[i] == pat[i + 1];
      AllAlike(pat, j);
      assert left[|left| - 1] == '<';
    }
  }

  lemma {:induction false} AllAlike(pat: string, j: nat)
    requires j < |pat| && forall i :: 0 <= i < |pat| - 1 ==> pat[i] == pat[i + 1]
    ensures pat[|pat| - 1] == pat[j]
    decreases |pat| - j
  {
    if j + 1 < |pat| { AllAlike(pat, j + 1); }
  }

  lemma CountedOnce(before: string, pat: string)
    requires pat != [] && |before| < |pat|
    ensures Count(before + pat, pat) == 1
  {
    CountFinds(before, pat);
    CountShort(before + pat, pat);
  }

  lemma {:induction false} CountFinds(before: string, pat: string)
    requires pat != []
    ensures Count(before + pat, pat) >= 1
  {
    if before == [] {
      assert before + pat == pat;
    } else if !(pat <= before + pat) {
      assert (before + pat)[1..] == before[1..] + pat;
      CountFinds(before[1..], pat);
    }
  }

  lemma {:induction false} CountShort(s: string, pat: string)
    requires pat != [] && |s| < 2 * |pat|
    ensures Count(s, pat) <= 1
  {
    if s != [] {
      if pat <= s { TooShort(s[|pat|..], pat); } else { CountShort(s[1..], pat); }
    }
  }

  type Span = (nat, nat)

  /** Spans that follow each other from `at` on without overlapping, inside a text of length `n`. */
  predicate Disjoint(spans: seq<Span>, at: nat, n: nat) {
    if spans == [] then at <= n
    else at <= spans[0].0 <= spans[0].1 && Disjoint(spans[1..], spans[0].1, n)
  }

  lemma {:induction false} DisjointFits(spans: seq<Span>, at: nat, n: nat)
    requires Disjoint(spans, at, n)
    ensures at <= n
    ensures spans != [] ==> spans[0].1 <= n
  {
    if spans != [] {
      DisjointFits(spans[1..], spans[0].1, n);
    }
  }

  /** A text cut at spans: the pieces, from position `at` on. */
  function Cut<T>(text: seq<T>, spans: seq<Span>, at: nat): (r: (seq<Piece<T>>, seq<T>))
    requires Disjoint(spans, at, |text|)
  {
    DisjointFits(spans, at, |text|);
    if spans == [] then ([], text[at..])
    else
      var rest := Cut(text, spans[1..], spans[0].1);
      ([Piece(text[at..spans[0].0], text[spans[0].0..spans[0].1])] + rest.0, rest.1)
  }

  /** The guard's sum: the occurrences counted inside each span. */
  function CountInSpans<T(==)>(text: seq<T>, spans: seq<Span>, pat: seq<T>): nat
    requires pat != []
    requires forall s :: s in spans ==> s.0 <= s.1 <= |text|
  {
    if spans == [] then 0
    else Count(text[spans[0].0..spans[0].1], pat) + CountInSpans(text, spans[1..], pat)
  }

  lemma {:induction false} CutJoins<T>(text: seq<T>, spans: seq<Span>, at: nat)
    requires Disjoint(spans, at, |text|)
    ensures at <= |text|
    ensures forall s :: s in spans ==> s.0 <= s.1 <= |text|
    ensures var c := Cut(text, spans, at); Join(c.0, c.1) == text[at..]
  {
    DisjointFits(spans, at, |text|);
    if spans != [] {
      CutJoins(text, spans[1..], spans[0].1);
      var rest := Cut(text, spans[1..], spans[0].1);
      var c := Cut(text, spans, at);
      assert c.0[1..] == rest.0;
      assert text[at..] == text[at..spans[0].0] + (text[spans[0].0..spans[0].1] + text[spans[0].1..]);
    }
  }

  lemma {:induction false} CutCounts<T>(text: seq<T>, spans: seq<Span>, at: nat, pat: seq<T>)
    requires pat != []
    requires Disjoint(spans, at, |text|)
    requires forall s :: s in spans ==> s.0 <= s.1 <= |text|
    ensures CountInside(Cut(text, spans, at).0, pat) == CountInSpans(text, spans, pat)
  {
    if spans != [] {
      CutCounts(text, spans[1..], spans[0].1, pat);
      assert Cut(text, spans, at).0[1..] == Cut(text, spans[1..], spans[0].1).0;
    }
  }
}
