/**
 The counting guard's sum by the structure of a document: how often a pattern stands in the contents of
 its fields, and with that, which derivations succeed.
 */
module FieldCounts {
  import opened Sequences
  import opened Substitution
  import opened TableSpans
  import opened TableRepair
  import opened ProtectedTree
  import opened Utf8
  import opened Wrappers

  // ---------------------------------------------------------------- the guard's sum by structure

  /** The content of every field that `FieldSpans` has a span for, in the same order. */
  function FieldContents(n: Node, inEntry: bool): seq<seq<Byte>> {
    match n
    case Raw(_) => []
    case Element(t, children, _) =>
      if t.closed then []
      else
        AllFieldContents(children, t.local == CheatEntry) +
        if inEntry && IsField(t.local) && Texts(children) != [] then [Texts(children)] else []
  }

  function AllFieldContents(ns: seq<Node>, inEntry: bool): seq<seq<Byte>> {
    if ns == [] then [] else FieldContents(ns[0], inEntry) + AllFieldContents(ns[1..], inEntry)
  }

  predicate Holds(blob: seq<Byte>, spans: seq<Span>, contents: seq<seq<Byte>>) {
    |spans| == |contents|
    && forall i :: 0 <= i < |spans| ==>
         spans[i].0 <= spans[i].1 <= |blob| && blob[spans[i].0..spans[i].1] == contents[i]
  }

  lemma HoldsJoin(blob: seq<Byte>, s: seq<Span>, c: seq<seq<Byte>>, s': seq<Span>, c': seq<seq<Byte>>)
    requires Holds(blob, s, c) && Holds(blob, s', c')
    ensures Holds(blob, s + s', c + c')
  {
  }

  lemma {:induction false} SpanContents(blob: seq<Byte>, n: Node, inEntry: bool, at: nat)
    requires StandsAt(blob, at, Text(n))
    ensures Holds(blob, FieldSpans(n, inEntry, at), FieldContents(n, inEntry))
    decreases n, 1
  {
    hide Holds, TagText, EndText;
    match n
    case Raw(_) =>
      HoldsNothing(blob);
    case Element(t, children, endTrail) =>
      if t.closed {
        HoldsNothing(blob);
      } else {
        var inner := at + |TagText(t)|;
        StandsApart(blob, at, TagText(t) + Texts(children), EndText(t, endTrail));
        StandsApart(blob, at, TagText(t), Texts(children));
        AllSpanContents(blob, children, t.local == CheatEntry, inner);
        HoldsNothing(blob);
        HoldsOne(blob, inner, Texts(children));
        OpenShape(n, inEntry, at);
        var own := inEntry && IsField(t.local) && Texts(children) != [];
        HoldsJoin(blob, AllFieldSpans(children, t.local == CheatEntry, inner),
            AllFieldContents(children, t.local == CheatEntry),
                  if own then [(inner, inner + |Texts(children)|)] else [], if own then [Texts(children)] else []);
      }
  }

  lemma HoldsNothing(blob: seq<Byte>)
    ensures Holds(blob, [], [])
  {
  }

  lemma HoldsOne(blob: seq<Byte>, at: nat, x: seq<Byte>)
    requires StandsAt(blob, at, x)
    ensures Holds(blob, [(at, at + |x|)], [x])
  {
  }

  /** Where a document stands in a text, its spans mark its fields' contents. */
  lemma {:induction false} AllSpanContents(blob: seq<Byte>, ns: seq<Node>, inEntry: bool, at: nat)
    requires StandsAt(blob, at, Texts(ns))
    ensures Holds(blob, AllFieldSpans(ns, inEntry, at), AllFieldContents(ns, inEntry))
    decreases ns, 0
  {
    hide Holds;
    if ns == [] {
      HoldsNothing(blob);
    } else {
      StandsApart(blob, at, Text(ns[0]), Texts(ns[1..]));
      SpanContents(blob, ns[0], inEntry, at);
      AllSpanContents(blob, ns[1..], inEntry, at + |Text(ns[0])|);
      HoldsJoin(blob, FieldSpans(ns[0], inEntry, at), FieldContents(ns[0], inEntry),
                AllFieldSpans(ns[1..], inEntry, at + |Text(ns[0])|), AllFieldContents(ns[1..], inEntry));
    }
  }

  function CountAll(contents: seq<seq<Byte>>, pat: seq<Byte>): nat
    requires pat != []
  {
    if contents == [] then 0 else Count(contents[0], pat) + CountAll(contents[1..], pat)
  }

  lemma {:induction false} CountHeld(blob: seq<Byte>, spans: seq<Span>, contents: seq<seq<Byte>>, pat: seq<Byte>)
    requires pat != [] && Holds(blob, spans, contents)
    requires forall s :: s in spans ==> s.0 <= s.1 <= |blob|
    ensures CountInSpans(blob, spans, pat) == CountAll(contents, pat)
  {
    if spans != [] { CountHeld(blob, spans[1..], contents[1..], pat); }
  }

  lemma {:induction false} CountInserted(blob: seq<Byte>, span: Span, spans: seq<Span>, pat: seq<Byte>)
    requires pat != [] && span.0 <= span.1 <= |blob| && forall s :: s in spans ==> s.0 <= s.1 <= |blob|
    ensures forall s :: s in Insert(span, spans) ==> s.0 <= s.1 <= |blob|
    ensures CountInSpans(blob, Insert(span, spans), pat)
         == Count(blob[span.0..span.1], pat) + CountInSpans(blob, spans, pat)
  {
    hide Count;
    if Insert(span, spans) == [span] + spans {
      assert ([span] + spans)[1..] == spans;
    } else {
      CountInserted(blob, span, spans[1..], pat);
      assert Insert(span, spans)[1..] == Insert(span, spans[1..]);
    }
  }

  /** In what order the spans are summed over makes no difference. */
  lemma {:induction false} CountSorted(blob: seq<Byte>, spans: seq<Span>, pat: seq<Byte>)
    requires pat != [] && forall s :: s in spans ==> s.0 <= s.1 <= |blob|
    ensures forall s :: s in Sorted(spans) ==> s.0 <= s.1 <= |blob|
    ensures CountInSpans(blob, Sorted(spans), pat) == CountInSpans(blob, spans, pat)
  {
    hide Count;
    if spans != [] {
      CountSorted(blob, spans[1..], pat);
      CountInserted(blob, spans[0], Sorted(spans[1..]), pat);
    }
  }

  /** The sum the guard compares with is the count over the contents of the fields. */
  lemma GuardCounts(doc: Document, pat: seq<Byte>)
    requires AllWellFormed(doc) && pat != []
    ensures forall s :: s in SpansOf(doc) ==> s.0 <= s.1 <= |Texts(doc)|
    ensures CountInSpans(Texts(doc), SpansOf(doc), pat) == CountAll(AllFieldContents(doc, false), pat)
  {
    var blob, spans := Texts(doc), AllFieldSpans(doc, false, 0);
    ScanDocument(doc);
    AllSpansWithin(doc, false, 0);
    assert StandsAt(blob, 0, Texts(doc));
    AllSpanContents(blob, doc, false, 0);
    CountHeld(blob, spans, AllFieldContents(doc, false), pat);
    CountSorted(blob, spans, pat);
  }

  lemma GuardCountsRead(parse: Parser, blob: seq<Byte>, pat: seq<Byte>)
    requires Faithful(parse) && parse(blob).Some? && pat != []
    ensures var doc := parse(blob).value;
      && AllWellFormed(doc) && Texts(doc) == blob
      && (forall s :: s in SpansOf(doc) ==> s.0 <= s.1 <= |blob|)
      && CountInSpans(blob, SpansOf(doc), pat) == CountAll(AllFieldContents(doc, false), pat)
  {
    GuardCounts(parse(blob).value, pat);
  }

  // ---------------------------------------------------------------- which derivations succeed

  /** A substitution that is let through: bounded, counted right in the text and in its fields, and made everywhere. */
  ghost predicate Passes(before: string, after: string, item: Item, parse: Parser) {
    && item.pat != [] && item.pat != item.sub && |item.pat| <= 4096 && |item.sub| <= 4096 && 1 <= item.count <= 4096
    && parse(Encode(before)).Some?
    && Count(before, item.pat) == item.count
    && Encode(item.pat) != []
    && CountAll(AllFieldContents(parse(Encode(before)).value, false), Encode(item.pat)) == item.count
    && after == Replace(before, item.pat, item.sub) && |Encode(after)| <= 32 * 1024 * 1024
  }

  lemma PassesExactly(before: string, after: string, item: Item, parse: Parser)
    requires Faithful(parse)
    ensures Substitute(before, item, parse) == Success(after) <==> Passes(before, after, item, parse)
  {
    if item.pat != [] {
      PatternEncoded(item.pat);
      hide Encode, Count, Replace, CountInSpans, SpansOf, AllFieldContents, CountAll;
      if parse(Encode(before)).Some? { GuardCountsRead(parse, Encode(before), Encode(item.pat)); }
    }
  }

  lemma PatternEncoded(pat: string)
    requires pat != []
    ensures Encode(pat) != []
  {
  }

  /** Texts from one to another by all the substitutions in turn, each of them let through. */
  ghost predicate Through(stages: seq<string>, text: string, items: seq<Item>, parse: Parser, result: string) {
    && |stages| == |items| + 1 && stages[0] == text && stages[|items|] == result
    && forall i :: 0 <= i < |items| ==> Passes(stages[i], stages[i + 1], items[i], parse)
  }

  lemma {:induction false} AllPass(text: string, items: seq<Item>, parse: Parser) returns (stages: seq<string>)
    requires Faithful(parse) && SubstituteAll(text, items, parse).Success?
    ensures Through(stages, text, items, parse, SubstituteAll(text, items, parse).value)
    decreases items
  {
    hide Passes, Substitute;
    if items == [] {
      stages := [text];
    } else {
      var changed := Substitute(text, items[0], parse).value;
      PassesExactly(text, changed, items[0], parse);
      var rest := AllPass(changed, items[1..], parse);
      stages := [text] + rest;
      forall i | 0 <= i < |items|
        ensures Passes(stages[i], stages[i + 1], items[i], parse)
      {
        if i > 0 { assert Passes(rest[i - 1], rest[i], items[1..][i - 1], parse); }
      }
    }
  }

  lemma {:induction false} PassedAll(stages: seq<string>, text: string, items: seq<Item>, parse: Parser, result: string)
    requires Faithful(parse) && Through(stages, text, items, parse, result)
    ensures SubstituteAll(text, items, parse) == Success(result)
    decreases items
  {
    hide Passes, Substitute;
    if items != [] {
      assert Passes(stages[0], stages[1], items[0], parse);
      PassesExactly(text, stages[1], items[0], parse);
      forall i | 0 <= i < |items[1..]|
        ensures Passes(stages[1..][i], stages[1..][i + 1], items[1..][i], parse)
      {
        assert Passes(stages[i + 1], stages[i + 2], items[i + 1], parse);
      }
      PassedAll(stages[1..], stages[1], items[1..], parse, result);
    }
  }

  /**
   A derivation gives a text exactly when 1 to 64 substitutions lead to it, each of them let through, it is
   another text than the source, both are documents and their protected content is the same.
   */
  lemma DerivesExactly(text: string, items: seq<Item>, parse: Parser, reading: Reading, result: string)
    requires Faithful(parse)
    ensures Derived(text, items, parse, reading) == Success(result) <==>
        && 1 <= |items| <= 64 && (exists stages :: Through(stages, text, items, parse, result))
        && result != text
        && parse(Encode(text)).Some? && parse(Encode(result)).Some?
        && Protected(parse(Encode(text)).value, reading) == Protected(parse(Encode(result)).value, reading)
  {
    hide Through, Protected, SubstituteAll, Encode, Faithful;
    if SubstituteAll(text, items, parse).Success? {
      var stages := AllPass(text, items, parse);
    }
    forall stages | Through(stages, text, items, parse, result)
      ensures SubstituteAll(text, items, parse) == Success(result)
    {
      PassedAll(stages, text, items, parse, result);
    }
  }

  // ---------------------------------------------------------------- one letter, in any document

  lemma {:induction false} LetterSplits<T>(a: seq<T>, b: seq<T>, c: T, sub: seq<T>)
    ensures Count(a + b, [c]) == Count(a, [c]) + Count(b, [c])
    ensures Replace(a + b, [c], sub) == Replace(a, [c], sub) + Replace(b, [c], sub)
  {
    if a == [] {
      assert a + b == b;
    } else {
      assert (a + b)[1..] == a[1..] + b;
      assert [c] <= a + b <==> [c] <= a;
      LetterSplits(a[1..], b, c, sub);
      ConcatAssociates(if a[0] == c then sub else [a[0]], Replace(a[1..], [c], sub), Replace(b, [c], sub));
    }
  }

  /** How often a byte stands outside every field. */
  function OutsideCount(ns: seq<Node>, inEntry: bool, c: Byte): nat {
    if ns == [] then 0
    else
      (if ns[0].Raw? then Count(ns[0].bytes, [c])
       else if ns[0].tag.closed then Count(TagText(ns[0].tag), [c])
       else
         Count(TagText(ns[0].tag), [c]) + Count(EndText(ns[0].tag, ns[0].endTrail), [c])
         + if IsOwnField(ns[0], inEntry) then 0 else OutsideCount(ns[0].children, ns[0].tag.local == CheatEntry, c))
      + OutsideCount(ns[1..], inEntry, c)
  }

  /** How often it is counted in fields that lie in other fields. */
  function NestedCount(ns: seq<Node>, inEntry: bool, c: Byte): nat {
    if ns == [] then 0
    else
      (if ns[0].Raw? || ns[0].tag.closed then 0
       else if IsOwnField(ns[0], inEntry) then
         CountAll(AllFieldContents(ns[0].children, ns[0].tag.local == CheatEntry), [c])
       else NestedCount(ns[0].children, ns[0].tag.local == CheatEntry, c))
      + NestedCount(ns[1..], inEntry, c)
  }

  lemma {:induction false} CountAllJoin(a: seq<seq<Byte>>, b: seq<seq<Byte>>, pat: seq<Byte>)
    requires pat != []
    ensures CountAll(a + b, pat) == CountAll(a, pat) + CountAll(b, pat)
  {
    if a == [] {
      assert a + b == b;
    } else {
      assert (a + b)[1..] == a[1..] + b;
      CountAllJoin(a[1..], b, pat);
    }
  }

  /** The whole count and the guard's differ by what is outside fields and what is counted again in nested ones. */
  lemma {:induction false} LetterBalance(ns: seq<Node>, inEntry: bool, c: Byte)
    ensures Count(Texts(ns), [c]) + NestedCount(ns, inEntry, c)
         == OutsideCount(ns, inEntry, c) + CountAll(AllFieldContents(ns, inEntry), [c])
    decreases ns
  {
    hide Count, CountAll, TagText, EndText;
    if ns == [] {
      NoBytes(c);
    } else {
      LetterBalance(ns[1..], inEntry, c);
      LetterSplits(Text(ns[0]), Texts(ns[1..]), c, []);
      CountAllJoin(FieldContents(ns[0], inEntry), AllFieldContents(ns[1..], inEntry), [c]);
      if ns[0].Element? && !ns[0].tag.closed {
        LetterBalance(ns[0].children, ns[0].tag.local == CheatEntry, c);
        OpenCounts(ns[0], inEntry, c);
      } else {
        NoBytes(c);
      }
    }
  }

  lemma NoBytes(c: Byte)
    ensures Count<Byte>([], [c]) == 0 && CountAll([], [c]) == 0
  {
  }

  lemma OpenCounts(n: Node, inEntry: bool, c: Byte)
    requires n.Element? && !n.tag.closed
    ensures Count(Text(n), [c])
         == Count(TagText(n.tag), [c]) + Count(Texts(n.children), [c]) + Count(EndText(n.tag, n.endTrail), [c])
    ensures CountAll(FieldContents(n, inEntry), [c])
         == CountAll(AllFieldContents(n.children, n.tag.local == CheatEntry), [c])
            + if IsOwnField(n, inEntry) then Count(Texts(n.children), [c]) else 0
  {
    hide Count, TagText, EndText, AllFieldContents;
    LetterSplits(TagText(n.tag) + Texts(n.children), EndText(n.tag, n.endTrail), c, []);
    LetterSplits(TagText(n.tag), Texts(n.children), c, []);
    var within := AllFieldContents(n.children, n.tag.local == CheatEntry);
    CountAllJoin(within, if IsOwnField(n, inEntry) then [Texts(n.children)] else [], [c]);
    CountOne(Texts(n.children), [c]);
    NoBytes(c);
  }

  /**
   For one letter the guard passes exactly when it stands outside the fields as often as it is counted
   again in fields that lie in fields.
   */
  lemma LetterGuardExactly(doc: Document, c: Byte)
    requires AllWellFormed(doc)
    ensures forall s :: s in SpansOf(doc) ==> s.0 <= s.1 <= |Texts(doc)|
    ensures CountInSpans(Texts(doc), SpansOf(doc), [c]) == Count(Texts(doc), [c])
            <==> OutsideCount(doc, false, c) == NestedCount(doc, false, c)
  {
    GuardCounts(doc, [c]);
    LetterBalance(doc, false, c);
  }

  lemma CountOne(content: seq<Byte>, pat: seq<Byte>)
    requires pat != []
    ensures CountAll([content], pat) == Count(content, pat)
  {
    assert [content][1..] == [];
  }
}
