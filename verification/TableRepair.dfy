/**
 `derive` of the table repair tool: reviewed substitutions applied one after another to a table, each
 let through only when its occurrences are counted inside editable spans.

 The XML parser is the function `parse`: the document some bytes are, or nothing where the parser
 would raise. All that is asked of it is that the document it reports is spelled by those bytes.
 */
module TableRepair {
  import opened TableSpans
  import opened ProtectedTree
  import opened Sequences
  import opened Substitution
  import opened Utf8
  import opened Wrappers

  const MAX_TEXT := 4096
  const MAX_COUNT := 4096
  const MAX_SUBSTITUTIONS := 64
  const MAX_CT_BYTES := 32 * 1024 * 1024

  datatype Item = Item(pat: string, sub: string, count: int)

  datatype Refusal = BadRecipe | BadItem | WrongCount | NotXml | Outside | TooLarge | Altered | NoEdit

  type Parser = seq<Byte> -> Option<Document>

  ghost predicate Faithful(parse: Parser) {
    forall blob :: parse(blob).Some? ==> AllWellFormed(parse(blob).value) && Texts(parse(blob).value) == blob
  }

  predicate ValidItem(item: Item) {
    && item.pat != [] && item.pat != item.sub
    && |item.pat| <= MAX_TEXT && |item.sub| <= MAX_TEXT
    && 1 <= item.count <= MAX_COUNT
  }

  /** The spans the guard sums over, for one parsed document. */
  function SpansOf(doc: Document): (r: seq<Span>)
    requires AllWellFormed(doc)
  {
    ScanDocument(doc);
    Sorted(Run(Texts(doc), Scan([], []), AllEvents(doc, 0)).spans)
  }

  lemma {:induction false} InsertKeeps(span: Span, spans: seq<Span>)
    ensures multiset(Insert(span, spans)) == multiset(spans) + multiset{span}
  {
    if spans != [] {
      InsertKeeps(span, spans[1..]);
      assert spans == [spans[0]] + spans[1..];
    }
  }

  lemma {:induction false} SortedKeeps(spans: seq<Span>)
    ensures multiset(Sorted(spans)) == multiset(spans)
  {
    if spans != [] {
      SortedKeeps(spans[1..]);
      InsertKeeps(spans[0], Sorted(spans[1..]));
      assert spans == [spans[0]] + spans[1..];
    }
  }

  /** Every span of a document is one of its field contents, and lies inside the text between `>` and `<`. */
  lemma SpansInText(doc: Document)
    requires AllWellFormed(doc)
    ensures forall s :: s in SpansOf(doc) ==> s.0 < s.1 <= |Texts(doc)| && Angled(Texts(doc), s)
  {
    ScanDocument(doc);
    SortedKeeps(AllFieldSpans(doc, false, 0));
    AllSpansWithin(doc, false, 0);
    AllSpansAngled(Texts(doc), doc, false, 0);
    forall s | s in SpansOf(doc)
      ensures s in AllFieldSpans(doc, false, 0)
    {
      assert s in multiset(SpansOf(doc));
    }
  }

  /** One substitution of the recipe. */
  function Substitute(text: string, item: Item, parse: Parser): Result<string, Refusal>
    requires Faithful(parse)
  {
    if !ValidItem(item) then Failure(BadItem)
    else if Count(text, item.pat) != item.count then Failure(WrongCount)
    else
      match parse(Encode(text))
      case None => Failure(NotXml)
      case Some(doc) =>
        SpansInText(doc);
        if CountInSpans(Encode(text), SpansOf(doc), Encode(item.pat)) != item.count then Failure(Outside)
        else
          var changed := Replace(text, item.pat, item.sub);
          if |Encode(changed)| > MAX_CT_BYTES then Failure(TooLarge) else Success(changed)
  }

  function SubstituteAll(text: string, items: seq<Item>, parse: Parser): Result<string, Refusal>
    requires Faithful(parse)
    decreases items
  {
    if items == [] then Success(text)
    else
      match Substitute(text, items[0], parse)
      case Failure(e) => Failure(e)
      case Success(changed) => SubstituteAll(changed, items[1..], parse)
  }

  /** The whole recipe: every substitution in turn, and the result read again and compared before it is let out. */
  function Derived(original: string, items: seq<Item>, parse: Parser, reading: Reading): Result<string, Refusal>
    requires Faithful(parse)
  {
    match parse(Encode(original))
    case None => Failure(NotXml)
    case Some(source) =>
      if !(1 <= |items| <= MAX_SUBSTITUTIONS) then Failure(BadRecipe)
      else
        match SubstituteAll(original, items, parse)
        case Failure(e) => Failure(e)
        case Success(text) => Compared(original, source, text, parse, reading)
  }

  function Compared(original: string, source: Document, text: string, parse: Parser, reading: Reading)
    : Result<string, Refusal>
    requires Faithful(parse)
  {
    match parse(Encode(text))
    case None => Failure(NotXml)
    case Some(result) =>
      if Protected(source, reading) != Protected(result, reading) then Failure(Altered)
      else if text == original then Failure(NoEdit)
      else Success(text)
  }

  method Derive(original: string, substitutions: seq<Item>, parse: Parser, reading: Reading)
    returns (r: Result<string, Refusal>)
    requires Faithful(parse)
    ensures r == Derived(original, substitutions, parse, reading)
  {
    hide Protected, Compared;
    var source := parse(Encode(original));
    if source.None? {
      return Failure(NotXml);
    }
    if !(1 <= |substitutions| <= MAX_SUBSTITUTIONS) {
      return Failure(BadRecipe);
    }
    var changed := original;
    for i := 0 to |substitutions|
      invariant SubstituteAll(original, substitutions, parse) == SubstituteAll(changed, substitutions[i..], parse)
    {
      var item := substitutions[i];
      assert substitutions[i..][1..] == substitutions[i + 1..];
      if !ValidItem(item) {
        return Failure(BadItem);
      }
      if Count(changed, item.pat) != item.count {
        return Failure(WrongCount);
      }
      var encoded, token := Encode(changed), Encode(item.pat);
      var document := parse(encoded);
      if document.None? {
        return Failure(NotXml);
      }
      ScanDocument(document.value);
      var spans := EditableSpans(encoded, AllEvents(document.value, 0));
      SpansInText(document.value);
      var permitted := CountInSpans(encoded, spans, token);
      if permitted != item.count {
        return Failure(Outside);
      }
      changed := Replace(changed, item.pat, item.sub);
      if |Encode(changed)| > MAX_CT_BYTES {
        return Failure(TooLarge);
      }
    }
    assert substitutions[|substitutions|..] == [];
    r := Compared(original, source.value, changed, parse, reading);
  }

  // ---------------------------------------------------------------- what a substitution keeps

  /** A pattern whose bytes overlap themselves overlaps itself: byte overlaps begin at a character. */
  lemma OverlapDecoded(pat: string)
    requires SelfOverlaps(Encode(pat))
    ensures SelfOverlaps(pat)
  {
    var k :| 0 < k < |Encode(pat)| && Encode(pat)[k..] <= Encode(pat);
    assert Encode(pat)[k] == Encode(pat)[k..][0] == Encode(pat)[0] == EncodeChar(pat[0])[0];
    var i := Boundary(pat, k);
    EncodePrefix(pat[i..], pat);
    assert pat[i..] <= pat;
  }

  lemma {:induction false} AsciiDecoded(s: string, c: char)
    requires c as int < 0x80 && c as int in Encode(s)
    ensures c in s
  {
    if c as int in EncodeChar(s[0]) {
      var k :| 0 <= k < |EncodeChar(s[0])| && EncodeChar(s[0])[k] == c as int;
      assert k == 0;
      assert Continuations(s[0]) == 0;
    } else {
      AsciiDecoded(s[1..], c);
      assert s == [s[0]] + s[1..];
    }
  }

  /** Stretches cut at spans that stand after a `>` each follow one. */
  lemma {:induction false} AngledFollow(text: seq<Byte>, spans: seq<Span>, at: nat)
    requires Disjoint(spans, at, |text|)
    requires forall s :: s in spans ==> Angled(text, s)
    requires spans != [] ==> at < spans[0].0
    requires Apart(spans)
    ensures Follow(Cut(text, spans, at).0, GT)
  {
    if spans != [] {
      var pieces, rest := Cut(text, spans, at).0, Cut(text, spans[1..], spans[0].1).0;
      assert spans[0] in spans && pieces[1..] == rest;
      ApartRest(spans);
      var before := text[at..spans[0].0];
      assert before[|before| - 1] == text[spans[0].0 - 1] && pieces[0].outside == before;
      AngledFollow(text, spans[1..], spans[0].1);
      forall i | 0 <= i < |pieces|
        ensures pieces[i].outside != [] && pieces[i].outside[|pieces[i].outside| - 1] == GT
      {
        if i > 0 { assert pieces[i] == rest[i - 1]; }
      }
    }
  }

  /** A pattern the guard can be relied on for: it cannot overlap itself, or it holds no `>`. */
  predicate Reliable(pat: string) {
    !SelfOverlaps(pat) || '>' !in pat
  }

  /**
   What an accepted substitution does to the bytes of the table: the table is its editable contents
   and the bytes around them, and the result is the same bytes around the replaced contents.
   */
  ghost predicate OnlyFieldsChange(before: seq<Byte>, after: seq<Byte>, doc: Document, item: Item)
    requires AllWellFormed(doc) && item.pat != []
  {
    var spans := AllFieldSpans(doc, false, 0);
    && Disjoint(spans, 0, |before|)
    && var (pieces, tail) := Cut(before, spans, 0);
       && before == Join(pieces, tail)
       && after == Join(ReplaceInside(pieces, Encode(item.pat), Encode(item.sub)), tail)
  }

  /** An accepted substitution of a reliable pattern changes only field contents, if no field lies in a field. */
  lemma SubstituteKeepsRest(text: string, item: Item, parse: Parser)
    requires Faithful(parse)
    requires Substitute(text, item, parse).Success?
    requires Reliable(item.pat)
    requires AllFlat(parse(Encode(text)).value, false)
    ensures OnlyFieldsChange(Encode(text), Encode(Substitute(text, item, parse).value), parse(Encode(text)).value, item)
  {
    hide Replace, Count, Encode, SelfOverlaps, Follow, Angled, Disjoint;
    var blob, pat, sub := Encode(text), Encode(item.pat), Encode(item.sub);
    var doc := parse(blob).value;
    var spans := AllFieldSpans(doc, false, 0);
    AllFlatDisjoint(doc, false, 0);
    AllSpansWithin(doc, false, 0);
    ScanDocument(doc);
    SortedAlready(spans, 0, |blob|);
    var (pieces, tail) := Cut(blob, spans, 0);
    CutJoins(blob, spans, 0);
    assert blob[0..] == blob;
    CutCounts(blob, spans, 0, pat);
    SearchInBytes(text, item.pat, item.sub);
    if SelfOverlaps(pat) {
      OverlapDecoded(item.pat);
      if GT in pat { AsciiDecoded(item.pat, '>'); }
      SpansFollow(doc);
    }
    CountGuard(pieces, tail, pat, sub, GT);
  }

  /** In a flat document every field's content is cut off right after a `>`. */
  lemma SpansFollow(doc: Document)
    requires AllWellFormed(doc) && AllFlat(doc, false)
    ensures var spans := AllFieldSpans(doc, false, 0);
      Disjoint(spans, 0, |Texts(doc)|) && Follow(Cut(Texts(doc), spans, 0).0, GT)
  {
    var spans := AllFieldSpans(doc, false, 0);
    AllFlatDisjoint(doc, false, 0);
    AllSpansWithin(doc, false, 0);
    AllSpansAngled(Texts(doc), doc, false, 0);
    AllFlatApart(doc, false, 0);
    assert spans != [] ==> spans[0] in spans;
    AngledFollow(Texts(doc), spans, 0);
  }

  /** One accepted step: the text before it parses, and a reliable pattern in a flat document changes only fields. */
  ghost predicate Stage(before: string, after: string, item: Item, parse: Parser) {
    && item.pat != []
    && parse(Encode(before)).Some?
    && var doc := parse(Encode(before)).value;
       && AllWellFormed(doc)
       && (Reliable(item.pat) && AllFlat(doc, false) ==> OnlyFieldsChange(Encode(before), Encode(after), doc, item))
  }

  /** The texts a derivation goes through, from the source to the result. */
  ghost predicate Stages(stages: seq<string>, items: seq<Item>, parse: Parser) {
    && |stages| == |items| + 1
    && forall i :: 0 <= i < |items| ==> Stage(stages[i], stages[i + 1], items[i], parse)
  }

  lemma SubstituteStage(text: string, item: Item, parse: Parser)
    requires Faithful(parse)
    requires Substitute(text, item, parse).Success?
    ensures Stage(text, Substitute(text, item, parse).value, item, parse)
  {
    if Reliable(item.pat) && AllFlat(parse(Encode(text)).value, false) {
      SubstituteKeepsRest(text, item, parse);
    }
  }

  /**
   Substitutions that are all let through go from the source to their result through one text each, which
   differs from the one before it only inside that text's own fields.
   */
  lemma {:induction false} SubstituteStages(text: string, items: seq<Item>, parse: Parser) returns (stages: seq<string>)
    requires Faithful(parse)
    requires SubstituteAll(text, items, parse).Success?
    ensures Stages(stages, items, parse)
    ensures stages[0] == text && stages[|items|] == SubstituteAll(text, items, parse).value
    decreases items
  {
    hide Stage, Substitute;
    if items == [] {
      stages := [text];
    } else {
      var changed := Substitute(text, items[0], parse).value;
      SubstituteStage(text, items[0], parse);
      var rest := SubstituteStages(changed, items[1..], parse);
      stages := [text] + rest;
      forall i | 0 <= i < |items|
        ensures Stage(stages[i], stages[i + 1], items[i], parse)
      {
        if i > 0 {
          assert Stage(rest[i - 1], rest[i], items[1..][i - 1], parse);
        }
      }
    }
  }

  /**
   A derivation that succeeds went from the source to its result through one text per substitution, each
   differing from the one before it only inside that text's own fields; the result is a document whose
   protected content is the source's.
   */
  lemma DeriveStages(text: string, items: seq<Item>, parse: Parser, reading: Reading) returns (stages: seq<string>)
    requires Faithful(parse)
    requires Derived(text, items, parse, reading).Success?
    ensures Stages(stages, items, parse)
    ensures stages[0] == text && stages[|items|] == Derived(text, items, parse, reading).value
    ensures var source, result := parse(Encode(text)), parse(Encode(stages[|items|]));
      source.Some? && result.Some? && Protected(source.value, reading) == Protected(result.value, reading)
  {
    stages := SubstituteStages(text, items, parse);
  }
}
