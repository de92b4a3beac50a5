/**
 The reader of the compositor's statistics stream: lines put together from chunks, a rate and then the
 focus it was measured under, and the choice of the readings that cover one whole interval of one focus.
 */
module FpsReader {
  import opened Wrappers
  import opened Strings
  import opened Sequences

  const MAX_SAMPLES := 4096

  datatype Sample = Sample(rate: real, focus: Option<string>)

  /** How a rate is read from its text, or that it cannot be. */
  type Rate = string -> Option<real>

  datatype Seen = Seen(samples: seq<Sample>, focus: seq<string>)

  const NOTHING := Seen([], [])

  // ---------- Lines ----------

  /** The complete lines of a text, and what follows the last of them. */
  function Split(text: string): (seq<string>, string) {
    if text == "" then ([], "") else Prepend(text[0], Split(text[1..]))
  }

  function Prepend(c: char, s: (seq<string>, string)): (seq<string>, string) {
    if c == '\n' then ([""] + s.0, s.1)
    else if s.0 == [] then ([], [c] + s.1)
    else ([[c] + s.0[0]] + s.0[1..], s.1)
  }

  predicate NoNewline(s: string) {
    forall c :: c in s ==> c != '\n'
  }

  function Unsplit(lines: seq<string>, rest: string): string {
    if lines == [] then rest else lines[0] + "\n" + Unsplit(lines[1..], rest)
  }

  /** Splitting loses nothing, and no line has a newline in it. */
  lemma {:induction false} SplitSound(text: string)
    ensures var (lines, rest) := Split(text);
            && Unsplit(lines, rest) == text && NoNewline(rest)
            && forall line :: line in lines ==> NoNewline(line)
  {
    if text != "" {
      SplitSound(text[1..]);
      PrependSound(text[0], Split(text[1..]));
      assert text == [text[0]] + text[1..];
    }
  }

  lemma PrependSound(c: char, s: (seq<string>, string))
    requires NoNewline(s.1) && forall line :: line in s.0 ==> NoNewline(line)
    ensures var (lines, rest) := Prepend(c, s);
            && Unsplit(lines, rest) == [c] + Unsplit(s.0, s.1) && NoNewline(rest)
            && forall line :: line in lines ==> NoNewline(line)
  {
    if c == '\n' {
      assert ([""] + s.0)[1..] == s.0;
      assert "" + "\n" + Unsplit(s.0, s.1) == [c] + Unsplit(s.0, s.1);
    } else if s.0 != [] {
      var first := [c] + s.0[0];
      assert ([first] + s.0[1..])[1..] == s.0[1..];
      assert first + "\n" + Unsplit(s.0[1..], s.1) == [c] + (s.0[0] + "\n" + Unsplit(s.0[1..], s.1));
      assert s.0[0] in s.0;
    }
  }

  lemma {:induction false} SplitFirst(line: string, rest: string)
    requires NoNewline(line)
    ensures Split(line + "\n" + rest) == ([line] + Split(rest).0, Split(rest).1)
    ensures Split(line) == ([], line)
  {
    var text := line + "\n" + rest;
    if line == "" {
      assert text[1..] == rest;
    } else {
      assert forall c :: c in line[1..] ==> c in line;
      assert line[0] in line && text[1..] == line[1..] + "\n" + rest;
      SplitFirst(line[1..], rest);
      assert Split(text[1..]) == ([line[1..]] + Split(rest).0, Split(rest).1);
      assert ([line[1..]] + Split(rest).0)[1..] == Split(rest).0;
      assert [line[0]] + line[1..] == line;
    }
  }

  /** A text split on from what an earlier part of it left over splits as the whole does. */
  lemma {:induction false} SplitOn(text: string, more: string)
    ensures var (lines, rest) := Split(text);
            Split(text + more) == (lines + Split(rest + more).0, Split(rest + more).1)
  {
    hide Prepend;
    if text == "" {
      assert text + more == more && [] + Split(more).0 == Split(more).0;
    } else {
      SplitOn(text[1..], more);
      assert (text + more)[1..] == text[1..] + more;
      PrependOn(text[0], Split(text[1..]), more);
    }
  }

  lemma PrependOn(c: char, s: (seq<string>, string), more: string)
    ensures var (lines, rest) := Prepend(c, s);
            Prepend(c, (s.0 + Split(s.1 + more).0, Split(s.1 + more).1))
            == (lines + Split(rest + more).0, Split(rest + more).1)
  {
    var after := Split(s.1 + more);
    if c == '\n' {
      assert [""] + (s.0 + after.0) == [""] + s.0 + after.0;
    } else if s.0 == [] {
      assert s.0 + after.0 == after.0;
      assert ([c] + s.1 + more)[1..] == s.1 + more;
      assert [] + Split([c] + s.1 + more).0 == Split([c] + s.1 + more).0;
    } else {
      assert [[c] + s.0[0]] + (s.0 + after.0)[1..] == [[c] + s.0[0]] + s.0[1..] + after.0;
    }
  }

  // ---------- Readings ----------

  function Consumed(s: Seen, line: string, rate: Rate): Seen {
    if StartsWith(line, "fps=") then
      var r := rate(line[4..]);
      if r.Some? then s.(samples := s.samples + [Sample(r.value, None)]) else s
    else if StartsWith(line, "focus=") && line[6..] != "" then
      var value := line[6..];
      var last := |s.samples| - 1;
      Seen(
        if s.samples != [] && s.samples[last].focus.None? then s.samples[last := s.samples[last].(focus := Some(value))]
        else s.samples,
        if value in s.focus then s.focus else s.focus + [value])
    else s
  }

  /** The lines taken in one by one, none once there are as many samples as are kept. */
  function Taken(s: Seen, lines: seq<string>, rate: Rate): Seen
    decreases |lines|
  {
    if lines == [] || |s.samples| >= MAX_SAMPLES then s
    else Taken(Consumed(s, Strip(lines[0]), rate), lines[1..], rate)
  }

  lemma {:induction false} TakenOn(s: Seen, a: seq<string>, more: seq<string>, rate: Rate)
    ensures Taken(s, a + more, rate) == Taken(Taken(s, a, rate), more, rate)
    decreases |a|
  {
    if a == [] {
      assert a + more == more;
    } else if |s.samples| < MAX_SAMPLES {
      assert (a + more)[1..] == a[1..] + more;
      TakenOn(Consumed(s, Strip(a[0]), rate), a[1..], more, rate);
    }
  }

  function Concat(chunks: seq<string>): string {
    if chunks == [] then "" else Concat(chunks[..|chunks| - 1]) + chunks[|chunks| - 1]
  }

  lemma {:induction false} ConcatOn(chunks: seq<string>, n: nat)
    requires n <= |chunks|
    ensures exists more :: Concat(chunks) == Concat(chunks[..n]) + more
    decreases |chunks|
  {
    if n == |chunks| {
      assert chunks[..n] == chunks;
      assert Concat(chunks) == Concat(chunks[..n]) + "";
    } else {
      var before, last := chunks[..|chunks| - 1], chunks[|chunks| - 1];
      ConcatOn(before, n);
      assert before[..n] == chunks[..n];
      var more :| Concat(before) == Concat(chunks[..n]) + more;
      assert Concat(chunks) == Concat(chunks[..n]) + (more + last);
    }
  }

  lemma TakenNext(lines: seq<string>, line: string, rate: Rate)
    requires |Taken(NOTHING, lines, rate).samples| < MAX_SAMPLES
    ensures Taken(NOTHING, lines + [line], rate) == Consumed(Taken(NOTHING, lines, rate), Strip(line), rate)
  {
    TakenOn(NOTHING, lines, [line], rate);
    assert [line][1..] == [];
  }

  /** Once there are as many samples as are kept, nothing that comes later changes anything. */
  lemma CappedStays(chunks: seq<string>, n: nat, lines: seq<string>, rest: seq<string>, rate: Rate)
    requires n <= |chunks| && Split(Concat(chunks[..n])).0 == lines + rest
    requires |Taken(NOTHING, lines, rate).samples| >= MAX_SAMPLES
    ensures Taken(NOTHING, Split(Concat(chunks)).0, rate) == Taken(NOTHING, lines, rate)
  {
    hide Split, Taken, Concat;
    ConcatOn(chunks, n);
    var more :| Concat(chunks) == Concat(chunks[..n]) + more;
    SplitOn(Concat(chunks[..n]), more);
    var later := Split(Split(Concat(chunks[..n])).1 + more).0;
    assert Split(Concat(chunks)).0 == lines + (rest + later);
    TakenOn(NOTHING, lines, rest + later, rate);
    CappedTakes(Taken(NOTHING, lines, rate), rest + later, rate);
  }

  lemma CappedTakes(s: Seen, lines: seq<string>, rate: Rate)
    requires |s.samples| >= MAX_SAMPLES
    ensures Taken(s, lines, rate) == s
  {
  }

  lemma LeftOver(text: string)
    ensures Split(Split(text).1) == ([], Split(text).1)
  {
    SplitSound(text);
    SplitFirst(Split(text).1, "");
  }

  // ---------- What each reading is ----------

  predicate RateLine(line: string, rate: Rate) {
    StartsWith(Strip(line), "fps=") && rate(Strip(line)[4..]).Some?
  }

  predicate FocusLine(line: string) {
    StartsWith(Strip(line), "focus=") && Strip(line)[6..] != ""
  }

  predicate FocusOn(line: string, focus: string) {
    FocusLine(line) && Strip(line)[6..] == focus
  }

  /** No line from `i` up to `j` gives a rate or a focus. */
  predicate Quiet(lines: seq<string>, i: nat, j: nat, rate: Rate) {
    forall k :: i <= k < j <= |lines| ==> !RateLine(lines[k], rate) && !FocusLine(lines[k])
  }

  /** The first line after `i` that gives a rate or a focus is at `m`, `n` being where reading stops. */
  predicate Ends(lines: seq<string>, n: nat, i: nat, focus: Option<string>, rate: Rate, m: nat) {
    && i < m <= n <= |lines| && Quiet(lines, i + 1, m, rate)
    && if focus.Some? then m < n && FocusOn(lines[m], focus.value) else m == n || RateLine(lines[m], rate)
  }

  /** The focus of the reading at line `i`: the first given after it, if one is given before the next rate. */
  ghost predicate FocusGot(lines: seq<string>, n: nat, i: nat, focus: Option<string>, rate: Rate) {
    exists m: nat :: Ends(lines, n, i, focus, rate, m)
  }

  ghost predicate ReadingAt(lines: seq<string>, n: nat, rate: Rate, i: nat, sample: Sample) {
    && i < n <= |lines| && RateLine(lines[i], rate) && rate(Strip(lines[i])[4..]) == Some(sample.rate)
    && FocusGot(lines, n, i, sample.focus, rate)
  }

  /** The readings of the first `n` lines: one for each line that gives a rate, in order. */
  ghost predicate ReadingsOf(lines: seq<string>, n: nat, rate: Rate, at: seq<nat>, samples: seq<Sample>) {
    && n <= |lines| && Rising(at) && |samples| == |at|
    && (forall i: nat :: i in at <==> i < n && RateLine(lines[i], rate))
    && forall k :: 0 <= k < |at| ==> ReadingAt(lines, n, rate, at[k], samples[k])
  }

  lemma RateOrFocus(line: string, rate: Rate)
    ensures !(RateLine(line, rate) && FocusLine(line))
    ensures StartsWith(Strip(line), "fps=") ==> !FocusLine(line)
  {
    if StartsWith(Strip(line), "fps=") {
      assert Strip(line)[1] == 'p';
    }
  }

  /** A reading keeps its focus, or its lack of one, unless the next line gives one and it is the last. */
  lemma FocusNext(lines: seq<string>, n: nat, i: nat, focus: Option<string>, rate: Rate)
    requires n < |lines| && FocusGot(lines, n, i, focus, rate)
    ensures focus.Some? || !FocusLine(lines[n]) ==> FocusGot(lines, n + 1, i, focus, rate)
    ensures focus.None? && !Quiet(lines, i + 1, n, rate) ==> FocusGot(lines, n + 1, i, focus, rate)
    ensures forall v :: focus.None? && Quiet(lines, i + 1, n, rate) && FocusOn(lines[n], v)
                        ==> FocusGot(lines, n + 1, i, Some(v), rate)
  {
    hide RateLine, FocusOn, FocusLine;
    var m: nat :| Ends(lines, n, i, focus, rate, m);
    if focus.Some? || m < n || RateLine(lines[n], rate) {
      assert Ends(lines, n + 1, i, focus, rate, m);
    } else if !FocusLine(lines[n]) {
      assert Ends(lines, n + 1, i, focus, rate, n + 1);
    }
    forall v | focus.None? && Quiet(lines, i + 1, n, rate) && FocusOn(lines[n], v)
      ensures FocusGot(lines, n + 1, i, Some(v), rate)
    {
      assert Ends(lines, n + 1, i, Some(v), rate, n);
    }
  }

  /** After the last reading there is no line that gives a rate; so it has no focus yet exactly while all is quiet. */
  lemma LastIsQuiet(lines: seq<string>, n: nat, rate: Rate, at: seq<nat>, samples: seq<Sample>, k: nat)
    requires ReadingsOf(lines, n, rate, at, samples) && k < |at| && samples[k].focus.None?
    ensures Quiet(lines, at[k] + 1, n, rate) <==> k == |at| - 1
  {
    hide RateLine, FocusOn, FocusLine;
    assert ReadingAt(lines, n, rate, at[k], samples[k]);
    var m: nat :| Ends(lines, n, at[k], None, rate, m);
    if k == |at| - 1 {
      assert forall j :: j in at ==> j <= at[k];
    } else {
      assert at[k + 1] in at;
    }
  }

  lemma RateNext(lines: seq<string>, n: nat, rate: Rate, at: seq<nat>, samples: seq<Sample>)
    requires ReadingsOf(lines, n, rate, at, samples) && n < |lines| && RateLine(lines[n], rate)
    ensures ReadingsOf(lines, n + 1, rate, at + [n], samples + [Sample(rate(Strip(lines[n])[4..]).value, None)])
  {
    RateOrFocus(lines[n], rate);
    hide RateLine, FocusLine, FocusOn, Ends;
    var next, more := at + [n], samples + [Sample(rate(Strip(lines[n])[4..]).value, None)];
    forall k | 0 <= k < |at|
      ensures ReadingAt(lines, n + 1, rate, next[k], more[k]) && at[k] < n
    {
      assert ReadingAt(lines, n, rate, at[k], samples[k]);
      FocusNext(lines, n, at[k], samples[k].focus, rate);
    }
    NewReading(lines, n, rate);
  }

  lemma NewReading(lines: seq<string>, n: nat, rate: Rate)
    requires n < |lines| && RateLine(lines[n], rate)
    ensures ReadingAt(lines, n + 1, rate, n, Sample(rate(Strip(lines[n])[4..]).value, None))
  {
    assert Ends(lines, n + 1, n, None, rate, n + 1);
  }

  /** A line that gives no rate leaves a reading, but that a focus goes to the last one if it has none. */
  lemma ReadingKept(lines: seq<string>, n: nat, rate: Rate, i: nat, sample: Sample, last: bool)
    requires n < |lines| && !RateLine(lines[n], rate) && ReadingAt(lines, n, rate, i, sample)
    requires sample.focus.None? ==> (Quiet(lines, i + 1, n, rate) <==> last)
    ensures var focus := if FocusLine(lines[n]) && last && sample.focus.None? then Some(Strip(lines[n])[6..])
                         else sample.focus;
      ReadingAt(lines, n + 1, rate, i, sample.(focus := focus))
  {
    hide RateLine, FocusGot, Quiet;
    FocusNext(lines, n, i, sample.focus, rate);
  }

  lemma OtherNext(lines: seq<string>, n: nat, rate: Rate, at: seq<nat>, samples: seq<Sample>, more: seq<Sample>)
    requires ReadingsOf(lines, n, rate, at, samples) && n < |lines| && !RateLine(lines[n], rate)
    requires more == if FocusLine(lines[n]) && samples != [] && samples[|samples| - 1].focus.None?
      then samples[|samples| - 1 := samples[|samples| - 1].(focus := Some(Strip(lines[n])[6..]))] else samples
    ensures ReadingsOf(lines, n + 1, rate, at, more)
  {
    hide RateLine, Quiet, ReadingAt, FocusLine;
    forall k | 0 <= k < |at|
      ensures ReadingAt(lines, n + 1, rate, at[k], more[k])
    {
      assert ReadingAt(lines, n, rate, at[k], samples[k]);
      if samples[k].focus.None? { LastIsQuiet(lines, n, rate, at, samples, k); }
      ReadingKept(lines, n, rate, at[k], samples[k], k == |at| - 1);
    }
  }

  lemma OneMoreLine(lines: seq<string>, n: nat, rate: Rate, at: seq<nat>, s: Seen) returns (next: seq<nat>)
    requires n < |lines| && ReadingsOf(lines, n, rate, at, s.samples)
    ensures ReadingsOf(lines, n + 1, rate, next, Consumed(s, Strip(lines[n]), rate).samples)
    ensures next == if RateLine(lines[n], rate) then at + [n] else at
  {
    hide ReadingsOf, Strip;
    RateOrFocus(lines[n], rate);
    if RateLine(lines[n], rate) {
      RateNext(lines, n, rate, at, s.samples);
      next := at + [n];
    } else {
      OtherNext(lines, n, rate, at, s.samples, Consumed(s, Strip(lines[n]), rate).samples);
      next := at;
    }
  }

  predicate GivenBefore(lines: seq<string>, n: nat, focus: string) {
    exists i :: 0 <= i < n <= |lines| && FocusOn(lines[i], focus)
  }

  /** Every focus the first `n` lines give, once each. */
  ghost predicate FocusesOf(lines: seq<string>, n: nat, focus: seq<string>) {
    && (forall i, j :: 0 <= i < j < |focus| ==> focus[i] != focus[j])
    && forall v :: v in focus <==> GivenBefore(lines, n, v)
  }

  lemma FocusesNext(lines: seq<string>, n: nat, rate: Rate, s: Seen)
    requires n < |lines| && FocusesOf(lines, n, s.focus)
    ensures FocusesOf(lines, n + 1, Consumed(s, Strip(lines[n]), rate).focus)
  {
    RateOrFocus(lines[n], rate);
    hide Strip;
    forall v
      ensures GivenBefore(lines, n + 1, v) <==> GivenBefore(lines, n, v) || FocusOn(lines[n], v)
    {
    }
  }

  lemma AsMany(lines: seq<string>, n: nat, rate: Rate, at: seq<nat>, samples: seq<Sample>)
    requires ReadingsOf(lines, n, rate, at, samples)
    ensures |samples| == |at|
  {
  }

  lemma NothingRead(lines: seq<string>, rate: Rate)
    ensures ReadingsOf(lines, 0, rate, [], Taken(NOTHING, [], rate).samples)
    ensures FocusesOf(lines, 0, Taken(NOTHING, [], rate).focus)
  {
  }

  /**
   What a list of lines is read as, up to the cap: one reading for each line that gives a rate, in order,
   with that rate and the first focus given after it and before the next; and every focus given.
   */
  lemma {:induction false} ReadingsExactly(lines: seq<string>, n: nat, rate: Rate) returns (at: seq<nat>, stop: nat)
    requires n <= |lines|
    ensures ReadingsOf(lines, stop, rate, at, Taken(NOTHING, lines[..n], rate).samples)
    ensures FocusesOf(lines, stop, Taken(NOTHING, lines[..n], rate).focus)
    ensures |at| <= MAX_SAMPLES && stop <= n && (stop < n ==> |at| == MAX_SAMPLES)
    ensures |at| == MAX_SAMPLES ==> at[MAX_SAMPLES - 1] == stop - 1
    decreases n
  {
    hide Taken, Consumed, ReadingsOf, RateLine, FocusLine, FocusesOf;
    if n == 0 {
      at, stop := [], 0;
      assert lines[..0] == [];
      NothingRead(lines, rate);
    } else {
      at, stop := ReadingsExactly(lines, n - 1, rate);
      var before := Taken(NOTHING, lines[..n - 1], rate);
      assert lines[..n] == lines[..n - 1] + [lines[n - 1]];
      AsMany(lines, stop, rate, at, before.samples);
      if |before.samples| >= MAX_SAMPLES {
        TakenOn(NOTHING, lines[..n - 1], [lines[n - 1]], rate);
        CappedTakes(before, [lines[n - 1]], rate);
      } else {
        TakenNext(lines[..n - 1], lines[n - 1], rate);
        at := OneMoreLine(lines, n - 1, rate, at, before);
        FocusesNext(lines, n - 1, rate, before);
        stop := n;
      }
    }
  }

  class Reader {
    var samples: seq<Sample>
    var focus: seq<string>

    constructor ()
      ensures samples == [] && focus == []
    {
      samples, focus := [], [];
    }

    function State(): Seen
      reads this
    {
      Seen(samples, focus)
    }

    method Consume(line: string, rate: Rate)
      modifies this
      ensures State() == Consumed(old(State()), line, rate)
    {
      if StartsWith(line, "fps=") {
        var r := rate(line[4..]);
        if r.None? { return; }
        samples := samples + [Sample(r.value, None)];
      } else if StartsWith(line, "focus=") {
        var value := line[6..];
        if value == "" { return; }
        if samples != [] && samples[|samples| - 1].focus.None? {
          samples := samples[|samples| - 1 := samples[|samples| - 1].(focus := Some(value))];
        }
        if value !in focus { focus := focus + [value]; }
      }
    }

    /** Reads the chunks that came before the deadline; an empty one is a moment with nothing to read. */
    method Run(chunks: seq<string>, rate: Rate)
      requires samples == [] && focus == []
      modifies this
      ensures State() == Taken(NOTHING, Split(Concat(chunks)).0, rate)
    {
      hide Split, Taken, Consumed, Concat;
      Beginning(rate);
      var pending := "";
      for n := 0 to |chunks|
        invariant |samples| < MAX_SAMPLES && State() == Taken(NOTHING, Split(Concat(chunks[..n])).0, rate)
        invariant pending == Split(Concat(chunks[..n])).1
      {
        var chunk := chunks[n];
        ghost var was := Split(Concat(chunks[..n])).0;
        NextChunk(chunks, n);
        if chunk == "" { continue; }
        var (lines, rest) := Split(pending + chunk);
        assert was + lines[..0] == was;
        for i := 0 to |lines|
          invariant |samples| < MAX_SAMPLES && State() == Taken(NOTHING, was + lines[..i], rate)
        {
          Consume(Strip(lines[i]), rate);
          TakenNext(was + lines[..i], lines[i], rate);
          assert was + lines[..i] + [lines[i]] == was + lines[..i + 1];
          if |samples| >= MAX_SAMPLES {
            assert was + lines == was + lines[..i + 1] + lines[i + 1..];
            CappedStays(chunks, n + 1, was + lines[..i + 1], lines[i + 1..], rate);
            return;
          }
        }
        assert lines[..|lines|] == lines;
        pending := rest;
      }
      assert chunks[..|chunks|] == chunks;
    }
  }

  lemma Beginning(rate: Rate)
    ensures Split(Concat([])) == ([], "") && Taken(NOTHING, [], rate) == NOTHING
  {
  }

  /** One chunk more: its lines follow those already read, the first of them put together with what was left. */
  lemma NextChunk(chunks: seq<string>, n: nat)
    requires n < |chunks|
    ensures var (was, pending) := Split(Concat(chunks[..n]));
            var (lines, rest) := Split(pending + chunks[n]);
            && Split(Concat(chunks[..n + 1])) == (was + lines, rest)
            && (chunks[n] == "" ==> was + lines == was && rest == pending)
  {
    assert chunks[..n + 1][..n] == chunks[..n];
    SplitOn(Concat(chunks[..n]), chunks[n]);
    if chunks[n] == "" {
      var pending := Split(Concat(chunks[..n])).1;
      LeftOver(Concat(chunks[..n]));
      assert pending + chunks[n] == pending;
      assert Split(Concat(chunks[..n])).0 + [] == Split(Concat(chunks[..n])).0;
    }
  }

  // ---------- Usable readings ----------

  /** Reading `j` has the focus last known before reading `i`. */
  predicate LastAt(samples: seq<Sample>, i: nat, j: nat) {
    j < i <= |samples| && samples[j].focus.Some? && forall k :: j < k < i ==> samples[k].focus.None?
  }

  /** The focus last known before reading `i`. */
  function LastKnown(samples: seq<Sample>, i: nat): (r: Option<string>)
    requires i <= |samples|
    ensures r.None? ==> forall j :: 0 <= j < i ==> samples[j].focus.None?
    ensures r.Some? ==> exists j: nat :: LastAt(samples, i, j) && samples[j].focus == r
  {
    if i == 0 then None
    else if samples[i - 1].focus.Some? then
      assert LastAt(samples, i, i - 1);
      samples[i - 1].focus
    else
      var r := LastKnown(samples, i - 1);
      assert forall j: nat :: LastAt(samples, i - 1, j) ==> LastAt(samples, i, j);
      r
  }

  /** Not the first reading, its focus known, and no other focus known last before it. */
  predicate Whole(samples: seq<Sample>, i: nat)
    requires i < |samples|
  {
    i > 0 && samples[i].focus.Some?
    && (LastKnown(samples, i).None? || LastKnown(samples, i) == samples[i].focus)
  }

  /** The rates at the indices picked, in order. */
  predicate RatesAt(samples: seq<Sample>, picks: seq<nat>, rates: seq<real>) {
    |rates| == |picks|
    && forall n :: 0 <= n < |picks| ==> picks[n] < |samples| && rates[n] == samples[picks[n]].rate
  }

  /** The picks are exactly the whole readings among the first `n`, in order. */
  ghost predicate PickedTo(samples: seq<Sample>, picks: seq<nat>, n: nat) {
    n <= |samples| && Rising(picks) && forall i: nat :: i in picks <==> i < n && Whole(samples, i)
  }

  lemma PickedNext(samples: seq<Sample>, picks: seq<nat>, n: nat)
    requires n < |samples| && PickedTo(samples, picks, n)
    ensures PickedTo(samples, if Whole(samples, n) then picks + [n] else picks, n + 1)
  {
    hide Whole;
    var after := if Whole(samples, n) then picks + [n] else picks;
    forall i: nat
      ensures i in after <==> i < n + 1 && Whole(samples, i)
    {
      assert i in after <==> i in picks || (Whole(samples, n) && i == n);
      assert i in picks <==> i < n && Whole(samples, i);
    }
    forall k | 0 <= k < |picks|
      ensures picks[k] < n
    {
      assert picks[k] in picks;
    }
  }

  /** The rates of exactly the readings that are whole, each once and in order. */
  method Usable(samples: seq<Sample>) returns (usable: seq<real>, ghost picks: seq<nat>)
    ensures RatesAt(samples, picks, usable) && PickedTo(samples, picks, |samples|)
  {
    hide LastKnown, PickedTo;
    usable, picks := [], [];
    var previous: Option<string> := None;
    NothingKnown(samples);
    NothingPicked(samples);
    for index := 0 to |samples|
      invariant RatesAt(samples, picks, usable) && PickedTo(samples, picks, index)
      invariant previous == LastKnown(samples, index)
    {
      var Sample(value, focus) := samples[index];
      KnownNext(samples, index);
      var boundary := index == 0 || focus.None?;
      if focus.Some? && previous.Some? && focus != previous { boundary := true; }
      if focus.Some? { previous := focus; }
      PickedNext(samples, picks, index);
      if !boundary {
        usable := usable + [value];
        picks := picks + [index];
      }
    }
  }

  lemma NothingPicked(samples: seq<Sample>)
    ensures PickedTo(samples, [], 0)
  {
  }

  lemma NothingKnown(samples: seq<Sample>)
    ensures LastKnown(samples, 0) == None
  {
  }

  lemma KnownNext(samples: seq<Sample>, i: nat)
    requires i < |samples|
    ensures LastKnown(samples, i + 1) == if samples[i].focus.Some? then samples[i].focus else LastKnown(samples, i)
  {
  }

  /** A reading is kept with no focus known before it: being kept does not mean a focus was seen to last. */
  lemma KeptWithNothingKnown()
    ensures exists samples :: |samples| == 2 && Whole(samples, 1) && LastKnown(samples, 1).None?
  {
    var samples := [Sample(60.0, None), Sample(59.0, Some("game"))];
    assert LastKnown(samples, 0) == None;
    assert LastKnown(samples, 1) == None;
    assert |samples| == 2 && Whole(samples, 1);
  }
}
