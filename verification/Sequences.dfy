/**
 Facts about sequences that several of the modelled programs share: lexicographic order, and
 the text search that `str.count` and `str.replace` perform.
 */
module Sequences {

  lemma ConcatAssociates<T>(a: seq<T>, b: seq<T>, c: seq<T>)
    ensures (a + b) + c == a + (b + c)
  {
  }

  /** A concatenation taken apart where it was joined. */
  lemma TakeDrop<T>(a: seq<T>, b: seq<T>)
    ensures (a + b)[..|a|] == a && (a + b)[|a|..] == b
  {
  }

  /** Lexicographic order on sequences of integers: a proper prefix comes first. */
  predicate LexLess(a: seq<int>, b: seq<int>) {
    if b == [] then false
    else if a == [] then true
    else a[0] < b[0] || (a[0] == b[0] && LexLess(a[1..], b[1..]))
  }

  /** Two sequences are ordered by the first element on which they differ. */
  lemma {:induction false} LexLessAt(a: seq<int>, b: seq<int>, k: nat)
    requires k < |a| && k < |b|
    requires a[..k] == b[..k]
    requires a[k] != b[k]
    ensures LexLess(a, b) <==> a[k] < b[k]
  {
    if k > 0 {
      assert a[0] == a[..k][0] == b[..k][0] == b[0];
      assert a[1..][..k - 1] == a[..k][1..] == b[..k][1..] == b[1..][..k - 1];
      LexLessAt(a[1..], b[1..], k - 1);
    }
  }

  /** A common prefix does not decide the order. */
  lemma {:induction false} LexLessCommon(p: seq<int>, a: seq<int>, b: seq<int>)
    ensures LexLess(p + a, p + b) <==> LexLess(a, b)
  {
    if p == [] {
      assert p + a == a && p + b == b;
    } else {
      assert (p + a)[1..] == p[1..] + a && (p + b)[1..] == p[1..] + b;
      LexLessCommon(p[1..], a, b);
    }
  }

  /** A sequence never comes before itself. */
  lemma LexLessIrreflexive(a: seq<int>)
    ensures !LexLess(a, a)
  {
  }

  lemma LexLessTotal(a: seq<int>, b: seq<int>)
    ensures a == b || LexLess(a, b) || LexLess(b, a)
  {
    if a != [] && b != [] && a[0] == b[0] {
      LexLessTotal(a[1..], b[1..]);
      assert a == [a[0]] + a[1..] && b == [b[0]] + b[1..];
    }
  }

  lemma LexLessTransitive(a: seq<int>, b: seq<int>, c: seq<int>)
    requires LexLess(a, b) && LexLess(b, c)
    ensures LexLess(a, c)
  {
    if a != [] && a[0] == b[0] == c[0] {
      LexLessTransitive(a[1..], b[1..], c[1..]);
    }
  }

  /** How often `pat` occurs in `s`, leftmost first and without overlap, as `str.count` counts. */
  function Count<T(==)>(s: seq<T>, pat: seq<T>): nat
    requires pat != []
  {
    if s == [] then 0
    else if pat <= s then 1 + Count(s[|pat|..], pat)
    else Count(s[1..], pat)
  }

  /** `s` with every occurrence that `Count` counts replaced by `new`, as `str.replace` replaces. */
  function Replace<T(==)>(s: seq<T>, pat: seq<T>, sub: seq<T>): seq<T>
    requires pat != []
  {
    if s == [] then []
    else if pat <= s then sub + Replace(s[|pat|..], pat, sub)
    else [s[0]] + Replace(s[1..], pat, sub)
  }

  /** Text in which nothing is counted is left alone. */
  lemma {:induction false} NothingToReplace<T>(s: seq<T>, pat: seq<T>, sub: seq<T>)
    requires pat != []
    requires Count(s, pat) == 0
    ensures Replace(s, pat, sub) == s
  {
    if s != [] {
      NothingToReplace(s[1..], pat, sub);
    }
  }

  /** A stretch in which no occurrence can start is copied, and counts nothing. */
  lemma {:induction false} SkipStretch<T>(x: seq<T>, y: seq<T>, pat: seq<T>, sub: seq<T>)
    requires pat != []
    requires forall i :: 0 <= i < |x| ==> !(pat <= (x + y)[i..])
    ensures Count(x + y, pat) == Count(y, pat)
    ensures Replace(x + y, pat, sub) == x + Replace(y, pat, sub)
  {
    if x == [] {
      assert x + y == y;
    } else {
      assert !(pat <= (x + y)[0..]);
      assert (x + y)[0..] == x + y;
      assert (x + y)[1..] == x[1..] + y;
      forall i | 0 <= i < |x[1..]|
        ensures !(pat <= (x[1..] + y)[i..])
      {
        assert (x[1..] + y)[i..] == (x + y)[i + 1..];
      }
      SkipStretch(x[1..], y, pat, sub);
    }
  }

  // ---------------------------------------------------------------- some elements, in order

  predicate Rising(at: seq<nat>) {
    forall m, n :: 0 <= m < n < |at| ==> at[m] < at[n]
  }

  /** The elements at the places `at` are those of `xs` to be kept: all of them, and in their order. */
  ghost predicate Filtered<T>(xs: seq<T>, ys: seq<T>, at: seq<nat>, keep: T -> bool) {
    && Rising(at) && |ys| == |at|
    && (forall k :: 0 <= k < |at| ==> at[k] < |xs| && ys[k] == xs[at[k]])
    && forall i: nat :: i in at <==> i < |xs| && keep(xs[i])
  }

  function OneOn(at: seq<nat>): (r: seq<nat>)
    ensures |r| == |at| && forall k :: 0 <= k < |r| ==> r[k] == at[k] + 1
  {
    seq(|at|, k requires 0 <= k < |at| => at[k] + 1)
  }

  lemma OneOnHas(at: seq<nat>, i: nat)
    ensures i in OneOn(at) <==> i > 0 && i - 1 in at
  {
    if i > 0 && i - 1 in at {
      var k :| 0 <= k < |at| && at[k] == i - 1;
      assert OneOn(at)[k] == i;
    }
  }

  lemma FilteredCons<T>(x: T, xs: seq<T>, ys: seq<T>, at: seq<nat>, keep: T -> bool) returns (more: seq<nat>)
    requires Filtered(xs, ys, at, keep)
    ensures Filtered([x] + xs, (if keep(x) then [x] else []) + ys, more, keep)
  {
    more := (if keep(x) then [0] else []) + OneOn(at);
    var all := [x] + xs;
    forall i: nat
      ensures i in more <==> i < |all| && keep(all[i])
    {
      OneOnHas(at, i);
      assert i > 0 ==> (i - 1 in at <==> i - 1 < |xs| && keep(xs[i - 1]));
    }
    FilteredPlaces(x, xs, ys, at, keep(x));
  }

  lemma FilteredPlaces<T>(x: T, xs: seq<T>, ys: seq<T>, at: seq<nat>, kept: bool)
    requires Rising(at) && |ys| == |at| && forall k :: 0 <= k < |at| ==> at[k] < |xs| && ys[k] == xs[at[k]]
    ensures var more, all := (if kept then [0] else []) + OneOn(at), (if kept then [x] else []) + ys;
      && Rising(more) && |all| == |more|
      && forall k :: 0 <= k < |more| ==> more[k] < |[x] + xs| && all[k] == ([x] + xs)[more[k]]
  {
    var more, all := (if kept then [0] else []) + OneOn(at), (if kept then [x] else []) + ys;
    var on := OneOn(at);
    forall k | 0 <= k < |more|
      ensures more[k] < |[x] + xs| && all[k] == ([x] + xs)[more[k]]
    {
      var j := if kept then k - 1 else k;
      if j >= 0 {
        assert more[k] == on[j] && all[k] == ys[j];
      }
    }
    OneOnRises(at);
    if kept { ZeroFirst(on); } else { assert more == on; }
  }

  lemma OneOnRises(at: seq<nat>)
    requires Rising(at)
    ensures Rising(OneOn(at)) && forall k :: 0 <= k < |at| ==> OneOn(at)[k] > 0
  {
  }

  lemma ZeroFirst(at: seq<nat>)
    requires Rising(at) && forall k :: 0 <= k < |at| ==> at[k] > 0
    ensures Rising([0] + at)
  {
  }
}
