/**
 Two tables on which an accepted derivation changes bytes outside every field: one by a pattern that
 overlaps itself over the end of a start tag, one by a field that lies in a field.
 */
module RepairExamples {
  import opened Sequences
  import opened Substitution
  import opened TableSpans
  import opened TableRepair
  import opened FieldCounts
  import opened ProtectedTree
  import opened Utf8
  import opened Wrappers

  // ---------------------------------------------------------------- tables written out

  /** A piece of a table: words, or an element with plain tags. */
  datatype Markup = Words(s: string) | Nest(local: Local, name: string, trail: string, kids: seq<Markup>)

  /** The text of some pieces with what follows them. */
  function Spelled(ms: seq<Markup>, rest: string): string {
    if ms == [] then rest
    else
      match ms[0]
      case Words(s) => s + Spelled(ms[1..], rest)
      case Nest(_, name, trail, kids) =>
        "<" + name + trail + ">" + Spelled(kids, "</" + name + ">" + Spelled(ms[1..], rest))
  }

  function Built(m: Markup): Node {
    match m
    case Words(s) => Raw(Encode(s))
    case Nest(local, name, trail, kids) =>
      Element(Tag(local, Encode(name), [], Encode(trail), false), AllBuilt(kids), [])
  }

  function AllBuilt(ms: seq<Markup>): Document {
    if ms == [] then [] else [Built(ms[0])] + AllBuilt(ms[1..])
  }

  predicate PlainText(s: string) {
    forall c :: c in s ==> c != '"' && c != '\'' && c != '>' && c != '/'
  }

  predicate PlainMarkup(ms: seq<Markup>) {
    ms == [] || (
      && (match ms[0]
          case Words(_) => true
          case Nest(_, name, trail, kids) => name != "" && PlainText(name) && PlainText(trail) && PlainMarkup(kids))
      && PlainMarkup(ms[1..]))
  }

  lemma PlainEncoded(s: string)
    requires PlainText(s)
    ensures Plain(Encode(s)) && SLASH !in Encode(s)
  {
    if DOUBLE in Encode(s) { AsciiDecoded(s, '"'); }
    if SINGLE in Encode(s) { AsciiDecoded(s, '\''); }
    if GT in Encode(s) { AsciiDecoded(s, '>'); }
    if SLASH in Encode(s) { AsciiDecoded(s, '/'); }
  }

  lemma {:induction false} BuiltWellFormed(ms: seq<Markup>)
    requires PlainMarkup(ms)
    ensures AllWellFormed(AllBuilt(ms))
  {
    if ms != [] {
      BuiltWellFormed(ms[1..]);
      assert AllBuilt(ms)[1..] == AllBuilt(ms[1..]);
      match ms[0]
      case Words(_) =>
      case Nest(_, name, trail, kids) =>
        PlainEncoded(name);
        PlainEncoded(trail);
        BuiltWellFormed(kids);
    }
  }

  lemma EncodeTag(name: string, trail: string)
    ensures Encode("<" + name + trail + ">") == ([LT] + Encode(name)) + ([] + (Encode(trail) + [] + [GT]))
    ensures Encode("</" + name + ">") == [LT, SLASH] + Encode(name) + [] + [GT]
  {
    hide Encode;
    EncodeBrackets();
    EncodeConcat("<", name);
    EncodeConcat("<" + name, trail);
    EncodeConcat("<" + name + trail, ">");
    EncodeConcat("</", name);
    EncodeConcat("</" + name, ">");
    var n, e := Encode(name), Encode(trail);
    assert e + [] == e && [] + (e + [GT]) == e + [GT];
    ConcatAssociates([LT] + n, e, [GT]);
    assert [LT, SLASH] + n + [] == [LT, SLASH] + n;
  }

  lemma EncodeBrackets()
    ensures Encode("<") == [LT] && Encode(">") == [GT] && Encode("</") == [LT, SLASH]
  {
    assert "<"[1..] == "" && ">"[1..] == "" && "</"[1..] == "/" && "/"[1..] == "";
  }

  /** The bytes of the nodes are the bytes of the text. */
  lemma {:induction false} BuiltSpelled(ms: seq<Markup>, rest: string)
    ensures Encode(Spelled(ms, rest)) == Texts(AllBuilt(ms)) + Encode(rest)
    decreases ms
  {
    hide Encode;
    if ms != [] {
      var after := Spelled(ms[1..], rest);
      BuiltSpelled(ms[1..], rest);
      assert AllBuilt(ms)[1..] == AllBuilt(ms[1..]);
      match ms[0]
      case Words(s) =>
        EncodeConcat(s, after);
        ConcatAssociates(Encode(s), Texts(AllBuilt(ms[1..])), Encode(rest));
      case Nest(_, name, trail, kids) =>
        NestSpelled(ms[0], after);
        ConcatAssociates(Text(Built(ms[0])), Texts(AllBuilt(ms[1..])), Encode(rest));
    }
  }

  lemma {:induction false} NestSpelled(m: Markup, after: string)
    requires m.Nest?
    ensures Encode("<" + m.name + m.trail + ">" + Spelled(m.kids, "</" + m.name + ">" + after))
         == Text(Built(m)) + Encode(after)
    decreases m
  {
    hide Encode;
    var open, close := "<" + m.name + m.trail + ">", "</" + m.name + ">";
    BuiltSpelled(m.kids, close + after);
    EncodeTag(m.name, m.trail);
    EncodeConcat(open, Spelled(m.kids, close + after));
    EncodeConcat(close, after);
    var t, e, k := Encode(open), Encode(close), Texts(AllBuilt(m.kids));
    assert Text(Built(m)) == t + k + e;
    ConcatAssociates(k, e, Encode(after));
    ConcatAssociates(t, k, e);
    ConcatAssociates(t, k + e, Encode(after));
  }

  lemma SpelledOne(m: Markup, rest: string)
    ensures Spelled([m], rest)
         == if m.Words? then m.s + rest
            else "<" + m.name + m.trail + ">" + Spelled(m.kids, "</" + m.name + ">" + rest)
  {
    assert [m][1..] == [];
  }

  lemma SpelledTwo(m: Markup, m': Markup, rest: string)
    ensures Spelled([m, m'], rest) == Spelled([m], Spelled([m'], rest))
  {
    assert [m, m'][1..] == [m'];
    SpelledOne(m, Spelled([m'], rest));
  }

  /** The parser of two texts that are known, and of no other. */
  function ReadsBoth(a: Document, b: Document): Parser {
    blob => if blob == Texts(a) then Some(a) else if blob == Texts(b) then Some(b) else None
  }

  // ---------------------------------------------------------------- letters between tags

  lemma FirstIsOther(s: string, c: char)
    requires s != "" && s[0] != c
    ensures !([c] <= s)
  {
  }

  lemma {:induction false} LetterAbsent(s: string, c: char, sub: string)
    requires c !in s
    ensures Count(s, [c]) == 0 && Replace(s, [c], sub) == s
  {
    if s != "" {
      assert s[0] in s && c !in s[1..];
      FirstIsOther(s, c);
      LetterAbsent(s[1..], c, sub);
    }
  }

  /** How often the words of a table, its tags aside, have a letter. */
  function WordsCount(ms: seq<Markup>, c: char): nat {
    if ms == [] then 0
    else (if ms[0].Words? then Count(ms[0].s, [c]) else WordsCount(ms[0].kids, c)) + WordsCount(ms[1..], c)
  }

  /** The table with the letter replaced in its words. */
  function Reworded(ms: seq<Markup>, c: char, sub: string): seq<Markup> {
    if ms == [] then []
    else
      [if ms[0].Words? then Words(Replace(ms[0].s, [c], sub)) else ms[0].(kids := Reworded(ms[0].kids, c, sub))]
      + Reworded(ms[1..], c, sub)
  }

  predicate TagsWithout(ms: seq<Markup>, c: char) {
    ms == [] || (
      && (ms[0].Nest? ==> c !in ms[0].name && c !in ms[0].trail && TagsWithout(ms[0].kids, c))
      && TagsWithout(ms[1..], c))
  }

  /** A letter that is in no tag is found, and replaced, in the words alone. */
  lemma {:induction false} LetterInWords(ms: seq<Markup>, rest: string, c: char, sub: string)
    requires TagsWithout(ms, c) && c !in "</>"
    ensures Count(Spelled(ms, rest), [c]) == WordsCount(ms, c) + Count(rest, [c])
    ensures Replace(Spelled(ms, rest), [c], sub) == Spelled(Reworded(ms, c, sub), Replace(rest, [c], sub))
    decreases ms
  {
    hide Count, Replace;
    if ms != [] {
      var after := Spelled(ms[1..], rest);
      LetterInWords(ms[1..], rest, c, sub);
      assert Reworded(ms, c, sub)[1..] == Reworded(ms[1..], c, sub);
      match ms[0]
      case Words(s) => LetterSplits(s, after, c, sub);
      case Nest(_, name, trail, kids) =>
        var open, close := "<" + name + trail + ">", "</" + name + ">";
        LetterInWords(kids, close + after, c, sub);
        LetterSplits(open, Spelled(kids, close + after), c, sub);
        LetterSplits(close, after, c, sub);
        TagWithout(name, trail, c, sub);
    }
  }

  lemma TagWithout(name: string, trail: string, c: char, sub: string)
    requires c !in name && c !in trail && c !in "</>"
    ensures var open, close := "<" + name + trail + ">", "</" + name + ">";
      && Count(open, [c]) == 0 && Replace(open, [c], sub) == open
      && Count(close, [c]) == 0 && Replace(close, [c], sub) == close
  {
    assert "</>"[0] == '<' && "</>"[1] == '/' && "</>"[2] == '>';
    LetterAbsent("<" + name + trail + ">", c, sub);
    LetterAbsent("</" + name + ">", c, sub);
  }

  // ---------------------------------------------------------------- a pattern over the end of a start tag

  const OVER := "s>s"
  const SPACED := "s >s"

  /** The table `<CheatTable><CheatEntries><CheatEntry><ID>7</ID><Address>s>s</Address></CheatEntry>...`. */
  function OverTable(trail: string): seq<Markup> {
    [Nest(Other, "CheatTable", "", [Nest(Other, "CheatEntries", "", [OverEntry(trail)])])]
  }

  function OverEntry(trail: string): Markup {
    Nest(CheatEntry, "CheatEntry", "", [Nest(Other, "ID", "", [Words("7")]), OverField(trail)])
  }

  function OverField(trail: string): Markup {
    Nest(Address, "Address", trail, [Words(OVER)])
  }

  predicate AfterTag(rest: string) {
    rest == "" || rest[0] == '<' || rest[0] == '7'
  }

  /** No tag holds the pattern, because a tag's only `>` is its last character. */
  lemma TagPassed(body: string, rest: string)
    requires '>' !in body && AfterTag(rest)
    ensures Count(body + ">" + rest, OVER) == Count(rest, OVER)
    ensures Replace(body + ">" + rest, OVER, SPACED) == body + ">" + Replace(rest, OVER, SPACED)
  {
    var tag := body + ">";
    forall i | 0 <= i < |tag|
      ensures !(OVER <= (tag + "")[i..])
    {
      assert tag + "" == tag;
      assert i + 2 < |tag| ==> tag[i..][1] == tag[i + 1] == body[i + 1];
    }
    SkipStretch(tag, "", OVER, SPACED);
    assert tag + "" == tag && tag + Replace("", OVER, SPACED) == tag;
    assert OVER[0] == 's' && OVER[1] == '>' && OVER[2] == 's';
    SeamSplits(tag, rest, OVER, SPACED);
  }

  const START := "<Addres"

  lemma NoneInStart(after: string)
    ensures forall i :: 0 <= i < |START| ==> !(OVER <= (START + (OVER + after))[i..])
  {
    var text := START + (OVER + after);
    forall i | 0 <= i < |START|
      ensures !(OVER <= text[i..])
    {
      assert text[i..][0] == START[i] && text[i..][1] == if i + 1 < |START| then START[i + 1] else 's';
      assert START[i] != 's' || i + 1 == |START|;
    }
  }

  lemma FieldStart(after: string)
    ensures Count(START + (OVER + after), OVER) == 1 + Count(after, OVER)
    ensures Replace(START + (OVER + after), OVER, SPACED) == START + (SPACED + Replace(after, OVER, SPACED))
  {
    NoneInStart(after);
    SkipStretch(START, OVER + after, OVER, SPACED);
    TakeDrop(OVER, after);
  }

  lemma FieldEnd(rest: string)
    requires rest != "" && rest[0] == '<'
    ensures Count(">s" + rest, OVER) == Count(rest, OVER)
    ensures Replace(">s" + rest, OVER, SPACED) == ">s" + Replace(rest, OVER, SPACED)
  {
    assert OVER[0] == 's' && OVER[1] == '>' && OVER[2] == 's';
    TooShort(">s", OVER);
    NothingToReplace(">s", OVER, SPACED);
    SeamSplits(">s", rest, OVER, SPACED);
  }

  lemma FieldSpelled(rest: string)
    ensures "<" + "Address" + "" + ">" + (OVER + rest) == START + (OVER + (">s" + rest))
    ensures "<" + "Address" + " " + ">" + (OVER + rest) == START + (SPACED + (">s" + rest))
  {
    assert "<" + "Address" + "" + ">" + OVER == START + (OVER + ">s");
    assert "<" + "Address" + " " + ">" + OVER == START + (SPACED + ">s");
    ConcatAssociates("<" + "Address" + "" + ">", OVER, rest);
    ConcatAssociates("<" + "Address" + " " + ">", OVER, rest);
    ConcatAssociates(START, OVER + ">s", rest);
    ConcatAssociates(START, SPACED + ">s", rest);
    ConcatAssociates(OVER, ">s", rest);
    ConcatAssociates(SPACED, ">s", rest);
  }

  lemma FieldFound(rest: string)
    requires rest != "" && rest[0] == '<'
    ensures var field := "<" + "Address" + "" + ">" + (OVER + rest);
      && Count(field, OVER) == 1 + Count(rest, OVER)
      && Replace(field, OVER, SPACED) == "<" + "Address" + " " + ">" + (OVER + Replace(rest, OVER, SPACED))
  {
    hide Count, Replace;
    FieldSpelled(rest);
    FieldSpelled(Replace(rest, OVER, SPACED));
    FieldStart(">s" + rest);
    FieldEnd(rest);
  }

  lemma Passed(name: string, trail: string, rest: string)
    requires PlainText(name) && PlainText(trail) && AfterTag(rest)
    ensures Count("<" + name + trail + ">" + rest, OVER) == Count(rest, OVER)
    ensures Replace("<" + name + trail + ">" + rest, OVER, SPACED)
         == "<" + name + trail + ">" + Replace(rest, OVER, SPACED)
  {
    TagPassed("<" + name + trail, rest);
  }

  lemma Closed(name: string, rest: string)
    requires PlainText(name) && AfterTag(rest)
    ensures Count("</" + name + ">" + rest, OVER) == Count(rest, OVER)
    ensures Replace("</" + name + ">" + rest, OVER, SPACED) == "</" + name + ">" + Replace(rest, OVER, SPACED)
  {
    TagPassed("</" + name, rest);
  }

  lemma IdPassed(rest: string)
    requires rest != "" && rest[0] == '<'
    ensures var id := Nest(Other, "ID", "", [Words("7")]);
      && Count(Spelled([id], rest), OVER) == Count(rest, OVER)
      && Replace(Spelled([id], rest), OVER, SPACED) == Spelled([id], Replace(rest, OVER, SPACED))
      && Spelled([id], rest) != "" && Spelled([id], rest)[0] == '<'
  {
    var id, after := Nest(Other, "ID", "", [Words("7")]), "</ID>" + rest;
    SpelledOne(id, rest);
    SpelledOne(Words("7"), "</" + "ID" + ">" + rest);
    SpelledOne(id, Replace(rest, OVER, SPACED));
    SpelledOne(Words("7"), "</" + "ID" + ">" + Replace(rest, OVER, SPACED));
    hide Count, Replace;
    Passed("ID", "", "7" + ("</" + "ID" + ">" + rest));
    SevenPassed("</" + "ID" + ">" + rest);
    Closed("ID", rest);
  }

  lemma SevenPassed(rest: string)
    ensures Count("7" + rest, OVER) == Count(rest, OVER)
    ensures Replace("7" + rest, OVER, SPACED) == "7" + Replace(rest, OVER, SPACED)
  {
    assert OVER[0] == 's' && ("7" + rest)[0] == '7' && ("7" + rest)[1..] == rest;
  }

  lemma FieldPassed(rest: string)
    requires rest != "" && rest[0] == '<'
    ensures Count(Spelled([OverField("")], rest), OVER) == 1 + Count(rest, OVER)
    ensures Replace(Spelled([OverField("")], rest), OVER, SPACED)
        == Spelled([OverField(" ")], Replace(rest, OVER, SPACED))
  {
    hide Count, Replace;
    SpelledOne(OverField(""), rest);
    SpelledOne(Words(OVER), "</" + "Address" + ">" + rest);
    SpelledOne(OverField(" "), Replace(rest, OVER, SPACED));
    SpelledOne(Words(OVER), "</" + "Address" + ">" + Replace(rest, OVER, SPACED));
    FieldFound("</" + "Address" + ">" + rest);
    Closed("Address", rest);
  }

  lemma EntryPassed(rest: string)
    requires rest != "" && rest[0] == '<'
    ensures Count(Spelled([OverEntry("")], rest), OVER) == 1 + Count(rest, OVER)
    ensures Replace(Spelled([OverEntry("")], rest), OVER, SPACED)
        == Spelled([OverEntry(" ")], Replace(rest, OVER, SPACED))
  {
    hide Count, Replace;
    var id := Nest(Other, "ID", "", [Words("7")]);
    var close := "</" + "CheatEntry" + ">" + rest;
    var done := Replace(rest, OVER, SPACED);
    Closed("CheatEntry", rest);
    SpelledOne(OverEntry(""), rest);
    SpelledTwo(id, OverField(""), close);
    SpelledOne(OverField(""), close);
    SpelledOne(OverEntry(" "), done);
    SpelledTwo(id, OverField(" "), "</" + "CheatEntry" + ">" + done);
    FieldPassed(close);
    IdPassed(Spelled([OverField("")], close));
    Passed("CheatEntry", "", Spelled([id], Spelled([OverField("")], close)));
  }

  /** The pattern is found once in the whole table, over the end of the start tag. */
  lemma OverSearched()
    ensures Count(Spelled(OverTable(""), ""), OVER) == 1
    ensures Replace(Spelled(OverTable(""), ""), OVER, SPACED) == Spelled(OverTable(" "), "")
  {
    NothingLeft();
    hide Count, Replace, Spelled;
    forall trail | trail in ["", " "]
      ensures Spelled(OverTable(trail), "") == "<" + "CheatTable" + "" + ">" + ("<" + "CheatEntries" + "" + ">"
                + Spelled([OverEntry(trail)], "</" + "CheatEntries" + ">" + ("</" + "CheatTable" + ">" + "")))
    {
      SpelledOne(OverTable(trail)[0], "");
      SpelledOne(Nest(Other, "CheatEntries", "", [OverEntry(trail)]), "</" + "CheatTable" + ">" + "");
    }
    var outer := "</" + "CheatTable" + ">" + "";
    var inner := "</" + "CheatEntries" + ">" + outer;
    Closed("CheatTable", "");
    Closed("CheatEntries", outer);
    EntryPassed(inner);
    SpelledOne(OverEntry(""), inner);
    Passed("CheatEntries", "", Spelled([OverEntry("")], inner));
    Passed("CheatTable", "", "<" + "CheatEntries" + "" + ">" + Spelled([OverEntry("")], inner));
    assert "" in ["", " "] && " " in ["", " "];
  }

  lemma NothingLeft()
    ensures Count("", OVER) == 0 && Replace("", OVER, SPACED) == ""
  {
  }

  const OVER_ITEM := Item(OVER, SPACED, 1)

  lemma PlainNest(local: Local, name: string, trail: string, kids: seq<Markup>)
    requires name != "" && PlainText(name) && PlainText(trail) && PlainMarkup(kids)
    ensures PlainMarkup([Nest(local, name, trail, kids)])
  {
    assert [Nest(local, name, trail, kids)][1..] == [];
  }

  lemma PlainWords(s: string)
    ensures PlainMarkup([Words(s)])
  {
    assert [Words(s)][1..] == [];
  }

  lemma PlainTwo(m: Markup, m': Markup)
    requires PlainMarkup([m]) && PlainMarkup([m'])
    ensures PlainMarkup([m, m'])
  {
    assert [m, m'][1..] == [m'];
  }

  /** A table written out is a document, spelled by its own text. */
  lemma BuiltDocument(ms: seq<Markup>)
    requires PlainMarkup(ms)
    ensures AllWellFormed(AllBuilt(ms)) && Encode(Spelled(ms, "")) == Texts(AllBuilt(ms))
  {
    BuiltWellFormed(ms);
    BuiltSpelled(ms, "");
    assert Texts(AllBuilt(ms)) + [] == Texts(AllBuilt(ms));
  }

  lemma PlainNames()
    ensures PlainText("") && PlainText("ID") && PlainText("Address")
    ensures PlainText("CheatEntry") && PlainText("CheatEntries") && PlainText("CheatTable")
  {
  }

  lemma OverPlain(trail: string)
    requires PlainText(trail)
    ensures PlainMarkup(OverTable(trail))
  {
    hide PlainMarkup, PlainText;
    PlainNames();
    PlainWords(OVER);
    PlainWords("7");
    PlainNest(Address, "Address", trail, [Words(OVER)]);
    PlainNest(Other, "ID", "", [Words("7")]);
    PlainTwo(Nest(Other, "ID", "", [Words("7")]), OverField(trail));
    PlainNest(CheatEntry, "CheatEntry", "", OverEntry(trail).kids);
    PlainNest(Other, "CheatEntries", "", [OverEntry(trail)]);
    PlainNest(Other, "CheatTable", "", OverTable(trail)[0].kids);
  }

  lemma BuiltOne(m: Markup)
    ensures AllBuilt([m]) == [Built(m)]
    ensures Texts(AllBuilt([m])) == Text(Built(m))
    ensures forall inEntry :: AllFieldContents(AllBuilt([m]), inEntry) == FieldContents(Built(m), inEntry)
    ensures forall inEntry :: AllFlat(AllBuilt([m]), inEntry) <==> Flat(Built(m), inEntry)
  {
    assert [m][1..] == [] && [Built(m)][1..] == [];
    assert Text(Built(m)) + [] == Text(Built(m));
    assert forall inEntry :: FieldContents(Built(m), inEntry) + [] == FieldContents(Built(m), inEntry);
  }

  lemma BuiltTwo(m: Markup, m': Markup)
    ensures AllBuilt([m, m']) == [Built(m), Built(m')]
    ensures forall inEntry :: AllFieldContents(AllBuilt([m, m']), inEntry)
                              == FieldContents(Built(m), inEntry) + FieldContents(Built(m'), inEntry)
    ensures forall inEntry ::
              AllFlat(AllBuilt([m, m']), inEntry) <==> Flat(Built(m), inEntry) && Flat(Built(m'), inEntry)
  {
    BuiltOne(m');
    assert [m, m'][1..] == [m'] && [Built(m), Built(m')][1..] == [Built(m')];
  }

  /** An element that is no field has the fields of what it holds. */
  lemma NotAField(m: Markup, inEntry: bool)
    requires m.Nest? && !(inEntry && IsField(m.local))
    ensures FieldContents(Built(m), inEntry) == AllFieldContents(AllBuilt(m.kids), m.local == CheatEntry)
    ensures Flat(Built(m), inEntry) <==> AllFlat(AllBuilt(m.kids), m.local == CheatEntry)
  {
    var within := AllFieldContents(AllBuilt(m.kids), m.local == CheatEntry);
    assert within + [] == within;
  }

  lemma OverFieldContents(trail: string)
    ensures FieldContents(Built(OverField(trail)), true) == [Encode(OVER)]
    ensures Flat(Built(OverField(trail)), true)
  {
    BuiltOne(Words(OVER));
    assert [Raw(Encode(OVER))][1..] == [];
    assert NoFields([Raw(Encode(OVER))], false);
    assert [] + [Encode(OVER)] == [Encode(OVER)];
  }

  lemma OverContents(trail: string)
    ensures AllFieldContents(AllBuilt(OverTable(trail)), false) == [Encode(OVER)]
    ensures AllFlat(AllBuilt(OverTable(trail)), false)
  {
    hide Encode, AllFieldContents, FieldContents, Flat, AllFlat, AllBuilt, Built;
    var id, entries := Nest(Other, "ID", "", [Words("7")]), Nest(Other, "CheatEntries", "", [OverEntry(trail)]);
    NoFieldInWords("7");
    BuiltOne(Words("7"));
    NotAField(id, true);
    OverFieldContents(trail);
    BuiltTwo(id, OverField(trail));
    NotAField(OverEntry(trail), false);
    BuiltOne(OverEntry(trail));
    NotAField(entries, false);
    BuiltOne(entries);
    NotAField(OverTable(trail)[0], false);
    BuiltOne(OverTable(trail)[0]);
    assert [] + [Encode(OVER)] == [Encode(OVER)];
  }

  lemma NoFieldInWords(s: string)
    ensures forall inEntry :: FieldContents(Built(Words(s)), inEntry) == [] && Flat(Built(Words(s)), inEntry)
  {
  }

  /** Where only fields change and there is one field, its content is changed in place, right after a `>`. */
  lemma OneFieldChanged(before: seq<Byte>, after: seq<Byte>, doc: Document, item: Item, content: seq<Byte>)
    returns (x: seq<Byte>, y: seq<Byte>)
    requires AllWellFormed(doc) && Texts(doc) == before && AllFlat(doc, false)
    requires AllFieldContents(doc, false) == [content] && item.pat != []
    requires OnlyFieldsChange(before, after, doc, item)
    ensures x != [] && x[|x| - 1] == GT
    ensures before == x + (content + y) && after == x + (Replace(content, Encode(item.pat), Encode(item.sub)) + y)
  {
    hide Count, Replace, Encode, AllFieldContents, AllFieldSpans, AllFlat;
    var spans := AllFieldSpans(doc, false, 0);
    assert StandsAt(before, 0, Texts(doc));
    AllSpanContents(before, doc, false, 0);
    SpansFollow(doc);
    assert |spans| == 1 && spans == [spans[0]];
    CutOne(before, spans[0]);
    var (pieces, tail) := Cut(before, spans, 0);
    x, y := before[..spans[0].0], tail;
    assert pieces == [Piece(x, content)];
    OneReplaced(x, content, Encode(item.pat), Encode(item.sub));
    JoinOne(Piece(x, content), tail);
    JoinOne(Piece(x, Replace(content, Encode(item.pat), Encode(item.sub))), tail);
    assert Follow(pieces, GT) && pieces[0].outside == x;
  }

  lemma CutOne(text: seq<Byte>, s: Span)
    requires Disjoint([s], 0, |text|)
    ensures s.0 <= s.1 <= |text|
    ensures Cut(text, [s], 0) == ([Piece(text[..s.0], text[s.0..s.1])], text[s.1..])
  {
    DisjointFits([s], 0, |text|);
    var spans: seq<Span> := [s];
    assert spans[1..] == [];
    var p := Piece(text[0..s.0], text[s.0..s.1]);
    assert [p] + [] == [p] && text[0..s.0] == text[..s.0];
    CutNothing(text, s.1);
  }

  lemma CutNothing(text: seq<Byte>, at: nat)
    requires at <= |text|
    ensures Cut(text, [], at) == ([], text[at..])
  {
  }

  lemma OneReplaced(x: seq<Byte>, content: seq<Byte>, pat: seq<Byte>, sub: seq<Byte>)
    requires pat != []
    ensures ReplaceInside([Piece(x, content)], pat, sub) == [Piece(x, Replace(content, pat, sub))]
  {
    assert [Piece(x, content)][1..] == [];
  }

  lemma JoinOne(p: Piece<Byte>, tail: seq<Byte>)
    ensures Join([p], tail) == p.outside + (p.inside + tail)
  {
    assert [p][1..] == [];
  }

  /** One text cannot be changed by one insertion both after a `>` and elsewhere. */
  lemma OnePlace(before: seq<Byte>, after: seq<Byte>, x: seq<Byte>, y: seq<Byte>, x': seq<Byte>, y': seq<Byte>)
    requires before == x + ([115, 62, 115] + y) && after == x + ([115, 32, 62, 115] + y)
    requires before == x' + ([115, 62, 115] + y') && after == x' + ([115, 32, 62, 115] + y')
    ensures x == x'
  {
    assert before[|x| + 1] == 62 && after[|x| + 1] == 32 && before[|x'| + 1] == 62 && after[|x'| + 1] == 32;
    assert forall i :: 0 <= i <= |x| ==> before[i] == after[i];
    assert forall i :: 0 <= i <= |x'| ==> before[i] == after[i];
    assert x == before[..|x|] && x' == before[..|x'|];
  }

  lemma OverBytes()
    ensures Encode(OVER) == [115, 62, 115] && Encode(SPACED) == [115, 32, 62, 115]
    ensures Replace(Encode(OVER), Encode(OVER), Encode(SPACED)) == Encode(SPACED)
    ensures Count(Encode(OVER), Encode(OVER)) == 1
  {
    assert OVER == ['s', '>', 's'] && SPACED == ['s', ' ', '>', 's'];
    assert OVER[1..] == ['>', 's'] && OVER[1..][1..] == ['s'] && OVER[1..][1..][1..] == [];
    assert SPACED[1..] == [' ', '>', 's'] && SPACED[1..][1..] == ['>', 's'] && SPACED[1..][1..][1..] == ['s'];
    assert Encode(OVER) <= Encode(OVER) && Encode(OVER)[|Encode(OVER)|..] == [];
  }

  /** The table's text cut where the pattern stands. */
  lemma OverCut() returns (before: string, after: string)
    ensures Spelled(OverTable(""), "") == before + (OVER + after)
    ensures Spelled(OverTable(" "), "") == before + (SPACED + after)
    ensures before != "" && before[|before| - 1] == 's'
  {
    var outer := "</" + "CheatTable" + ">" + "";
    var inner := "</" + "CheatEntries" + ">" + outer;
    var close := "</" + "CheatEntry" + ">" + inner;
    var rest := "</" + "Address" + ">" + close;
    after := ">s" + rest;
    FieldSpelled(rest);
    before := OverHead() + START;
    assert before[|before| - 1] == START[|START| - 1];
    OverText("");
    OverText(" ");
    ConcatAssociates(OverHead(), START, OVER + after);
    ConcatAssociates(OverHead(), START, SPACED + after);
  }

  function OverHead(): string {
    "<" + "CheatTable" + "" + ">" + ("<" + "CheatEntries" + "" + ">" + ("<" + "CheatEntry" + "" + ">"
      + ("<" + "ID" + "" + ">" + ("7" + ("</" + "ID" + ">")))))
  }

  lemma OverText(trail: string)
    ensures Spelled(OverTable(trail), "")
         == OverHead() + ("<" + "Address" + trail + ">" + (OVER + ("</" + "Address" + ">" + ("</" + "CheatEntry" + ">"
              + ("</" + "CheatEntries" + ">" + ("</" + "CheatTable" + ">" + ""))))))
  {
    var outer := "</" + "CheatTable" + ">" + "";
    var inner := "</" + "CheatEntries" + ">" + outer;
    var close := "</" + "CheatEntry" + ">" + inner;
    var id := Nest(Other, "ID", "", [Words("7")]);
    SpelledOne(OverTable(trail)[0], "");
    SpelledOne(Nest(Other, "CheatEntries", "", [OverEntry(trail)]), outer);
    SpelledOne(OverEntry(trail), inner);
    SpelledTwo(id, OverField(trail), close);
    SpelledOne(OverField(trail), close);
    SpelledOne(Words(OVER), "</" + "Address" + ">" + close);
    var field := Spelled([OverField(trail)], close);
    SpelledOne(id, field);
    SpelledOne(Words("7"), "</" + "ID" + ">" + field);
    HeadSpelled(field);
  }

  lemma HeadSpelled(field: string)
    ensures "<" + "CheatTable" + "" + ">" + ("<" + "CheatEntries" + "" + ">" + ("<" + "CheatEntry" + "" + ">"
              + ("<" + "ID" + "" + ">" + ("7" + ("</" + "ID" + ">" + field)))))
         == OverHead() + field
  {
    var t, e, r, i, c := "<" + "CheatTable" + "" + ">", "<" + "CheatEntries" + "" + ">", "<" + "CheatEntry" + "" + ">",
                         "<" + "ID" + "" + ">", "</" + "ID" + ">";
    ConcatAssociates("7", c, field);
    ConcatAssociates(i, "7" + c, field);
    ConcatAssociates(r, i + ("7" + c), field);
    ConcatAssociates(e, r + (i + ("7" + c)), field);
    ConcatAssociates(t, e + (r + (i + ("7" + c))), field);
  }

  lemma TreesOne(m: Markup, inEntry: bool, r: Reading)
    requires m.Nest?
    ensures Leading(AllBuilt([m]), r) == ""
    ensures Trees(AllBuilt([m]), inEntry, r)
         == [Tree(r.tag(Encode(m.name), []), if inEntry && IsField(m.local) then "" else Leading(AllBuilt(m.kids), r),
                  Trees(AllBuilt(m.kids), m.local == CheatEntry, r), "")]
  {
    hide Encode;
    BuiltOne(m);
    assert [Built(m)][1..] == [];
  }

  lemma TreesTwo(m: Markup, m': Markup, inEntry: bool, r: Reading)
    requires m.Nest? && m'.Nest?
    ensures Leading(AllBuilt([m, m']), r) == ""
    ensures Trees(AllBuilt([m, m']), inEntry, r) == Trees(AllBuilt([m]), inEntry, r) + Trees(AllBuilt([m']), inEntry, r)
  {
    hide Encode;
    BuiltOne(m);
    BuiltOne(m');
    BuiltTwo(m, m');
    assert [Built(m), Built(m')][1..] == [Built(m')] && [Built(m)][1..] == [];
  }

  /** How the field's tag is spaced, and what the field holds, are no part of the tree. */
  lemma OverTrees(r: Reading)
    ensures Protected(AllBuilt(OverTable("")), r) == Protected(AllBuilt(OverTable(" ")), r)
  {
    hide Encode, Trees, Leading, AllBuilt;
    var id := Nest(Other, "ID", "", [Words("7")]);
    forall trail: string
      ensures Trees(AllBuilt(OverTable(trail)), false, r)
           == [Tree(r.tag(Encode("CheatTable"), []), "", [Tree(r.tag(Encode("CheatEntries"), []), "",
                [Tree(r.tag(Encode("CheatEntry"), []), "", Trees(AllBuilt([id]), true, r)
                  + [Tree(r.tag(Encode("Address"), []), "", Trees(AllBuilt([Words(OVER)]), false, r), "")], "")
                ], "")], "")]
    {
      TreesOne(OverField(trail), true, r);
      TreesTwo(id, OverField(trail), true, r);
      TreesOne(OverEntry(trail), false, r);
      TreesOne(Nest(Other, "CheatEntries", "", [OverEntry(trail)]), false, r);
      TreesOne(OverTable(trail)[0], false, r);
    }
  }

  lemma OverShort()
    ensures |Encode(Spelled(OverTable(" "), ""))| <= MAX_CT_BYTES
  {
    OverText(" ");
    EncodeLength(Spelled(OverTable(" "), ""));
  }

  /** The two texts are read as the two tables. */
  predicate ReadAs(parse: Parser, a: seq<Markup>, b: seq<Markup>) {
    parse(Encode(Spelled(a, ""))) == Some(AllBuilt(a)) && parse(Encode(Spelled(b, ""))) == Some(AllBuilt(b))
  }

  /** There is a parser that reads them so. */
  lemma ReadsBothFaithfully(a: seq<Markup>, b: seq<Markup>)
    requires PlainMarkup(a) && PlainMarkup(b)
    ensures var parse := ReadsBoth(AllBuilt(a), AllBuilt(b));
      Faithful(parse) && (Texts(AllBuilt(a)) != Texts(AllBuilt(b)) ==> ReadAs(parse, a, b))
  {
    hide Encode, Spelled, AllBuilt, Texts, AllWellFormed, PlainMarkup;
    BuiltDocument(a);
    BuiltDocument(b);
  }

  lemma SubstituteOne(a: seq<Markup>, b: seq<Markup>, item: Item, parse: Parser)
    requires Faithful(parse) && ReadAs(parse, a, b) && ValidItem(item)
    requires Count(Spelled(a, ""), item.pat) == item.count
    requires CountAll(AllFieldContents(AllBuilt(a), false), Encode(item.pat)) == item.count
    requires Replace(Spelled(a, ""), item.pat, item.sub) == Spelled(b, "") && |Encode(Spelled(b, ""))| <= MAX_CT_BYTES
    ensures Substitute(Spelled(a, ""), item, parse) == Success(Spelled(b, ""))
  {
    hide Encode, Count, Replace, Spelled, AllBuilt, CountInSpans, SpansOf, AllFieldContents, Texts;
    GuardCountsRead(parse, Encode(Spelled(a, "")), Encode(item.pat));
  }

  lemma AllOfOne(text: string, item: Item, parse: Parser)
    requires Faithful(parse)
    ensures SubstituteAll(text, [item], parse) == Substitute(text, item, parse)
  {
    hide Substitute;
    assert [item][1..] == [];
    if Substitute(text, item, parse).Success? {
      assert SubstituteAll(Substitute(text, item, parse).value, [], parse) == Substitute(text, item, parse);
    }
  }

  lemma DeriveOne(a: seq<Markup>, b: seq<Markup>, item: Item, parse: Parser, reading: Reading)
    requires Faithful(parse) && ReadAs(parse, a, b) && Spelled(a, "") != Spelled(b, "")
    requires Substitute(Spelled(a, ""), item, parse) == Success(Spelled(b, ""))
    requires Protected(AllBuilt(a), reading) == Protected(AllBuilt(b), reading)
    ensures Derived(Spelled(a, ""), [item], parse, reading) == Success(Spelled(b, ""))
  {
    hide Encode, Spelled, AllBuilt, Substitute, Protected;
    assert [item][1..] == [];
    AllOfOne(Spelled(a, ""), item, parse);
  }

  /** However the two tables are read, the substitution is let through, and so is the whole derivation. */
  lemma OverDerived(parse: Parser, reading: Reading)
    requires Faithful(parse) && ReadAs(parse, OverTable(""), OverTable(" "))
    ensures Substitute(Spelled(OverTable(""), ""), OVER_ITEM, parse) == Success(Spelled(OverTable(" "), ""))
    ensures Derived(Spelled(OverTable(""), ""), [OVER_ITEM], parse, reading) == Success(Spelled(OverTable(" "), ""))
  {
    hide Encode, Count, Replace, Spelled, AllBuilt, Protected, Faithful, AllFieldContents, Substitute, Derived, ReadAs;
    OverDifferent();
    OverSearched();
    OverContents("");
    OverBytes();
    CountOne(Encode(OVER), Encode(OVER));
    OverShort();
    OverTrees(reading);
    SubstituteOne(OverTable(""), OverTable(" "), OVER_ITEM, parse);
    DeriveOne(OverTable(""), OverTable(" "), OVER_ITEM, parse, reading);
  }

  /**
   A pattern that overlaps itself over a `>`: the guard lets `s>s` through for one occurrence in one field,
   and the replacement takes the end of the start tag instead. `<Address>` becomes `<Address >`, a byte
   outside every field, and the comparison of protected content does not see it.
   */
  lemma OverMisleads(parse: Parser, reading: Reading)
    requires Faithful(parse) && ReadAs(parse, OverTable(""), OverTable(" "))
    ensures Derived(Spelled(OverTable(""), ""), [OVER_ITEM], parse, reading) == Success(Spelled(OverTable(" "), ""))
    ensures AllWellFormed(AllBuilt(OverTable(""))) && AllFlat(AllBuilt(OverTable("")), false)
    ensures !OnlyFieldsChange(Encode(Spelled(OverTable(""), "")), Encode(Spelled(OverTable(" "), "")),
                              AllBuilt(OverTable("")), OVER_ITEM)
  {
    hide Encode, Spelled, AllBuilt, Faithful, Derived, ReadAs, OnlyFieldsChange, Count, Replace, AllFieldContents,
         AllFlat, AllWellFormed;
    OverDerived(parse, reading);
    PlainNames();
    OverPlain("");
    BuiltDocument(OverTable(""));
    OverContents("");
    OverBytes();
    var text, text', doc := Encode(Spelled(OverTable(""), "")), Encode(Spelled(OverTable(" "), "")),
        AllBuilt(OverTable(""));
    var x', y' := OverBytesCut();
    if OnlyFieldsChange(text, text', doc, OVER_ITEM) {
      var x, y := OneFieldChanged(text, text', doc, OVER_ITEM, Encode(OVER));
      OnePlace(text, text', x, y, x', y');
    }
  }

  lemma OverBytesCut() returns (x: seq<Byte>, y: seq<Byte>)
    ensures Encode(Spelled(OverTable(""), "")) == x + ([115, 62, 115] + y)
    ensures Encode(Spelled(OverTable(" "), "")) == x + ([115, 32, 62, 115] + y)
    ensures x != [] && x[|x| - 1] == 115
  {
    OverBytes();
    hide Encode, Spelled;
    var before, after := OverCut();
    x, y := Encode(before), Encode(after);
    EncodeConcat(before, OVER + after);
    EncodeConcat(before, SPACED + after);
    EncodeConcat(OVER, after);
    EncodeConcat(SPACED, after);
    EncodeEnd(before);
  }

  lemma EncodeEnd(s: string)
    requires s != "" && s[|s| - 1] == 's'
    ensures Encode(s) != [] && Encode(s)[|Encode(s)| - 1] == 115
  {
    var last := [s[|s| - 1]];
    assert s == s[..|s| - 1] + last && last[1..] == [];
    EncodeConcat(s[..|s| - 1], last);
    assert Encode(last) == [115];
  }

  lemma OverDifferent()
    ensures OVER != SPACED && OVER != "" && Spelled(OverTable(""), "") != Spelled(OverTable(" "), "")
  {
    var before, after := OverCut();
    assert OVER[1] == '>' && SPACED[1] == ' ';
    assert (before + (OVER + after))[|before| + 1] == '>' && (before + (SPACED + after))[|before| + 1] == ' ';
  }

  // ---------------------------------------------------------------- a field in a field

  /**
   The table `<!--x--><CheatTable><CheatEntries><CheatEntry><ID>7</ID><Address><CheatEntry><ID>8</ID>
   <Address>x</Address></CheatEntry></Address></CheatEntry>...` on one line, `x` being the word.
   */
  function NestedTable(note: string, word: string): seq<Markup> {
    [Words(note), Nest(Other, "CheatTable", "", [Nest(Other, "CheatEntries", "", [OuterEntry(word)])])]
  }

  function OuterEntry(word: string): Markup {
    Nest(CheatEntry, "CheatEntry", "", [Nest(Other, "ID", "", [Words("7")]), OuterField(word)])
  }

  function OuterField(word: string): Markup {
    Nest(Address, "Address", "", [InnerEntry(word)])
  }

  function InnerEntry(word: string): Markup {
    Nest(CheatEntry, "CheatEntry", "",
        [Nest(Other, "ID", "", [Words("8")]), Nest(Address, "Address", "", [Words(word)])])
  }

  const NOTE := "<!--x-->"
  const NEW_NOTE := "<!--y-->"
  const WORD_ITEM := Item("x", "y", 2)

  lemma Sevens()
    ensures forall s :: s in ["7", "8"] ==> Count(s, "x") == 0 && Replace(s, "x", "y") == s
    ensures Count("x", "x") == 1 && Replace("x", "x", "y") == "y"
    ensures Count("", "x") == 0 && Replace("", "x", "y") == ""
  {
    assert "7"[1..] == "" && "8"[1..] == "" && "x"[1..] == "" && "7"[0] == '7' && "8"[0] == '8' && "x"[0] == 'x';
    assert "x" <= "x" && "x"[|"x"|..] == "" && "y" + "" == "y";
  }

  lemma NoteSearched()
    ensures Count(NOTE, "x") == 1 && Replace(NOTE, "x", "y") == NEW_NOTE
  {
    var before, after := "<!--", "-->";
    assert NOTE == before + ("x" + after) && NEW_NOTE == before + ("y" + after);
    Sevens();
    assert "x" == ['x'];
    LetterAbsent(before, 'x', "y");
    LetterAbsent(after, 'x', "y");
    LetterSplits(before, "x" + after, 'x', "y");
    LetterSplits("x", after, 'x', "y");
  }

  /** With every `c` in its words replaced, and there are `n` of those, the one table is the other. */
  ghost predicate Becomes(ms: seq<Markup>, ms': seq<Markup>, c: char, sub: string, n: nat) {
    TagsWithout(ms, c) && WordsCount(ms, c) == n && Reworded(ms, c, sub) == ms'
  }

  lemma BecomesWords(s: string, s': string, c: char, sub: string, n: nat)
    requires Count(s, [c]) == n && Replace(s, [c], sub) == s'
    ensures Becomes([Words(s)], [Words(s')], c, sub, n)
  {
    assert [Words(s)][1..] == [];
  }

  lemma BecomesNest(local: Local, name: string, kids: seq<Markup>, kids': seq<Markup>, c: char, sub: string, n: nat)
    requires Becomes(kids, kids', c, sub, n) && c !in name
    ensures Becomes([Nest(local, name, "", kids)], [Nest(local, name, "", kids')], c, sub, n)
  {
    assert [Nest(local, name, "", kids)][1..] == [];
  }

  lemma BecomesTwo(m: Markup, m': Markup, n: nat, k: Markup, k': Markup, l: nat, c: char, sub: string)
    requires Becomes([m], [m'], c, sub, n) && Becomes([k], [k'], c, sub, l)
    ensures Becomes([m, k], [m', k'], c, sub, n + l)
  {
    assert [m, k][1..] == [k] && [m][1..] == [];
    assert Reworded([m], c, sub) == [m'] && WordsCount([m][1..], c) == 0;
    assert WordsCount([m, k], c) == WordsCount([m], c) + WordsCount([k], c);
    assert [m'] + [k'] == [m', k'];
  }

  lemma NamesWithout()
    ensures 'x' !in "ID" && 'x' !in "Address" && 'x' !in "CheatEntry" && 'x' !in "CheatEntries" && 'x' !in "CheatTable"
    ensures 'x' !in "</>"
  {
  }

  lemma EntryBecomes(id: string, field: seq<Markup>, field': seq<Markup>, c: char, sub: string, n: nat)
    requires c !in "ID" && c !in "Address" && c !in "CheatEntry"
    requires Count(id, [c]) == 0 && Replace(id, [c], sub) == id && Becomes(field, field', c, sub, n)
    ensures Becomes([Nest(CheatEntry, "CheatEntry", "",
        [Nest(Other, "ID", "", [Words(id)]), Nest(Address, "Address", "", field)])],
                    [Nest(CheatEntry, "CheatEntry", "",
                        [Nest(Other, "ID", "", [Words(id)]), Nest(Address, "Address", "", field')])], c, sub, n)
  {
    hide Becomes, Count, Replace;
    var m := Nest(Other, "ID", "", [Words(id)]);
    var k, k' := Nest(Address, "Address", "", field), Nest(Address, "Address", "", field');
    BecomesWords(id, id, c, sub, 0);
    BecomesNest(Other, "ID", [Words(id)], [Words(id)], c, sub, 0);
    BecomesNest(Address, "Address", field, field', c, sub, n);
    BecomesTwo(m, m, 0, k, k', n, c, sub);
    BecomesNest(CheatEntry, "CheatEntry", [m, k], [m, k'], c, sub, n);
  }

  lemma TableBecomes()
    ensures Becomes([InnerEntry("x")], [InnerEntry("y")], 'x', "y", 1)
    ensures Becomes(NestedTable(NOTE, "x"), NestedTable(NEW_NOTE, "y"), 'x', "y", 2)
  {
    hide Becomes, Count, Replace;
    Sevens();
    NoteSearched();
    NamesWithout();
    assert "7" in ["7", "8"] && "8" in ["7", "8"] && "x" == ['x'];
    BecomesWords("x", "y", 'x', "y", 1);
    BecomesWords(NOTE, NEW_NOTE, 'x', "y", 1);
    EntryBecomes("8", [Words("x")], [Words("y")], 'x', "y", 1);
    EntryBecomes("7", [InnerEntry("x")], [InnerEntry("y")], 'x', "y", 1);
    BecomesNest(Other, "CheatEntries", [OuterEntry("x")], [OuterEntry("y")], 'x', "y", 1);
    BecomesNest(Other, "CheatTable", NestedTable(NOTE, "x")[1].kids, NestedTable(NEW_NOTE, "y")[1].kids, 'x', "y", 1);
    BecomesTwo(Words(NOTE), Words(NEW_NOTE), 1, NestedTable(NOTE, "x")[1], NestedTable(NEW_NOTE, "y")[1], 1, 'x', "y");
  }

  lemma BecomesSpelled(ms: seq<Markup>, ms': seq<Markup>, c: char, sub: string, n: nat)
    requires Becomes(ms, ms', c, sub, n) && c !in "</>"
    ensures Count(Spelled(ms, ""), [c]) == n && Replace(Spelled(ms, ""), [c], sub) == Spelled(ms', "")
  {
    LetterAbsent("", c, sub);
    hide Count, Replace, Spelled;
    LetterInWords(ms, "", c, sub);
  }

  /** The guard counts the inner field twice: once for itself and once in the field around it. */
  lemma NestedCounted()
    ensures CountAll(AllFieldContents(AllBuilt(NestedTable(NOTE, "x")), false), Encode("x")) == 2
  {
    hide Encode, Count, AllFieldContents, FieldContents, Flat, AllFlat, AllBuilt, Built, Spelled, Becomes, CountAll;
    NestedContents();
    TableBecomes();
    NamesWithout();
    assert "x" == ['x'];
    BecomesSpelled([InnerEntry("x")], [InnerEntry("y")], 'x', "y", 1);
    BuiltSpelled([InnerEntry("x")], "");
    assert Texts(AllBuilt([InnerEntry("x")])) + [] == Texts(AllBuilt([InnerEntry("x")]));
    Sevens();
    SearchInBytes("x", "x", "y");
    SearchInBytes(Spelled([InnerEntry("x")], ""), "x", "y");
    CountTwo(Encode("x"), Texts(AllBuilt([InnerEntry("x")])), Encode("x"));
  }

  lemma CountTwo(a: seq<Byte>, b: seq<Byte>, pat: seq<Byte>)
    requires pat != []
    ensures CountAll([a, b], pat) == Count(a, pat) + Count(b, pat)
  {
    assert [a, b][1..] == [b];
    CountOne(b, pat);
  }

  lemma NestedContents()
    ensures AllFieldContents(AllBuilt(NestedTable(NOTE, "x")), false)
        == [Encode("x"), Texts(AllBuilt([InnerEntry("x")]))]
  {
    hide Encode, AllFieldContents, FieldContents, Flat, AllFlat, AllBuilt, Built, Texts;
    var table := NestedTable(NOTE, "x")[1];
    var entries := table.kids[0];
    NoFieldInWords(NOTE);
    OuterContents();
    BuiltOne(OuterEntry("x"));
    NotAField(entries, false);
    BuiltOne(entries);
    NotAField(table, false);
    BuiltTwo(Words(NOTE), table);
    assert [] + [Encode("x"), Texts(AllBuilt([InnerEntry("x")]))] == [Encode("x"), Texts(AllBuilt([InnerEntry("x")]))];
  }

  lemma OuterContents()
    ensures FieldContents(Built(OuterEntry("x")), false) == [Encode("x"), Texts(AllBuilt([InnerEntry("x")]))]
  {
    hide Encode, AllFieldContents, FieldContents, Flat, AllFlat, AllBuilt, Built, Texts;
    var id7, id8, field := Nest(Other, "ID", "", [Words("7")]), Nest(Other, "ID", "", [Words("8")]),
                           Nest(Address, "Address", "", [Words("x")]);
    NoFieldInWords("7");
    NoFieldInWords("8");
    NoFieldInWords("x");
    BuiltOne(Words("7"));
    BuiltOne(Words("8"));
    BuiltOne(Words("x"));
    NotAField(id7, true);
    NotAField(id8, true);
    WordsBytes("x");
    IsAField(field);
    BuiltTwo(id8, field);
    NotAField(InnerEntry("x"), false);
    BuiltOne(InnerEntry("x"));
    NestBytes(InnerEntry("x"));
    IsAField(OuterField("x"));
    BuiltTwo(id7, OuterField("x"));
    NotAField(OuterEntry("x"), false);
    assert [] + [Encode("x")] == [Encode("x")];
    assert [] + ([Encode("x")] + [Texts(AllBuilt([InnerEntry("x")]))])
        == [Encode("x"), Texts(AllBuilt([InnerEntry("x")]))];
  }

  lemma WordsBytes(s: string)
    ensures Texts(AllBuilt([Words(s)])) == Encode(s) && (s != "" ==> Texts(AllBuilt([Words(s)])) != [])
  {
    BuiltOne(Words(s));
  }

  lemma NestBytes(m: Markup)
    requires m.Nest?
    ensures Texts(AllBuilt([m])) != []
  {
    BuiltOne(m);
  }

  lemma IsAField(m: Markup)
    requires m.Nest? && IsField(m.local) && Texts(AllBuilt(m.kids)) != []
    ensures FieldContents(Built(m), true) == AllFieldContents(AllBuilt(m.kids), false) + [Texts(AllBuilt(m.kids))]
  {
  }

  lemma TreesAfterWords(s: string, m: Markup, r: Reading)
    ensures Trees(AllBuilt([Words(s), m]), false, r) == Trees(AllBuilt([m]), false, r)
  {
    hide Encode;
    BuiltTwo(Words(s), m);
    BuiltOne(m);
    assert [Built(Words(s)), Built(m)][1..] == [Built(m)];
  }

  /** Neither the comment nor any text in a field is part of the tree. */
  lemma NestedTrees(r: Reading)
    ensures Protected(AllBuilt(NestedTable(NOTE, "x")), r) == Protected(AllBuilt(NestedTable(NEW_NOTE, "y")), r)
  {
    hide Encode, Trees, Leading, AllBuilt;
    OuterTrees("x", r);
    OuterTrees("y", r);
    forall note, word
      ensures Trees(AllBuilt(NestedTable(note, word)), false, r)
           == [Tree(r.tag(Encode("CheatTable"), []), "", [Tree(r.tag(Encode("CheatEntries"), []), "",
                Trees(AllBuilt([OuterEntry(word)]), false, r), "")], "")]
    {
      var table := NestedTable(note, word)[1];
      TreesOne(table, false, r);
      TreesOne(table.kids[0], false, r);
      TreesOne(OuterEntry(word), false, r);
      TreesAfterWords(note, table, r);
    }
  }

  lemma OuterTrees(word: string, r: Reading)
    ensures Trees(AllBuilt([OuterEntry(word)]), false, r) == Trees(AllBuilt([OuterEntry("")]), false, r)
  {
    InnerTrees(word, r);
    InnerTrees("", r);
    hide Encode, Trees, Leading, AllBuilt;
    var id := Nest(Other, "ID", "", [Words("7")]);
    forall w
      ensures Trees(AllBuilt([OuterEntry(w)]), false, r)
           == [Tree(r.tag(Encode("CheatEntry"), []), "", Trees(AllBuilt([id]), true, r)
                + [Tree(r.tag(Encode("Address"), []), "", Trees(AllBuilt([InnerEntry(w)]), false, r), "")], "")]
    {
      TreesOne(OuterField(w), true, r);
      TreesTwo(id, OuterField(w), true, r);
      TreesOne(OuterEntry(w), false, r);
    }
  }

  lemma InnerTrees(word: string, r: Reading)
    ensures Trees(AllBuilt([InnerEntry(word)]), false, r) == Trees(AllBuilt([InnerEntry("")]), false, r)
  {
    hide Encode, Leading;
    var id := Nest(Other, "ID", "", [Words("8")]);
    forall w
      ensures Trees(AllBuilt([Words(w)]), false, r) == []
    {
      BuiltOne(Words(w));
      assert [Built(Words(w))][1..] == [];
    }
    hide Trees, AllBuilt;
    forall w
      ensures Trees(AllBuilt([InnerEntry(w)]), false, r)
           == [Tree(r.tag(Encode("CheatEntry"), []), "", Trees(AllBuilt([id]), true, r)
                + [Tree(r.tag(Encode("Address"), []), "", [], "")], "")]
    {
      TreesOne(Nest(Address, "Address", "", [Words(w)]), true, r);
      TreesTwo(id, Nest(Address, "Address", "", [Words(w)]), true, r);
      TreesOne(InnerEntry(w), false, r);
    }
  }

  lemma NestedPlain(note: string, word: string)
    ensures PlainMarkup(NestedTable(note, word))
  {
    hide PlainMarkup, PlainText;
    PlainNames();
    PlainWords(word);
    EntryPlain("8", [Words(word)]);
    EntryPlain("7", [InnerEntry(word)]);
    PlainNest(Other, "CheatEntries", "", [OuterEntry(word)]);
    PlainNest(Other, "CheatTable", "", NestedTable(note, word)[1].kids);
    PlainWords(note);
    PlainTwo(Words(note), NestedTable(note, word)[1]);
  }

  lemma EntryPlain(id: string, field: seq<Markup>)
    requires PlainMarkup(field)
    ensures PlainMarkup([Nest(CheatEntry, "CheatEntry", "",
        [Nest(Other, "ID", "", [Words(id)]), Nest(Address, "Address", "", field)])])
  {
    hide PlainMarkup, PlainText;
    PlainNames();
    PlainWords(id);
    PlainNest(Other, "ID", "", [Words(id)]);
    PlainNest(Address, "Address", "", field);
    PlainTwo(Nest(Other, "ID", "", [Words(id)]), Nest(Address, "Address", "", field));
    PlainNest(CheatEntry, "CheatEntry", "", [Nest(Other, "ID", "", [Words(id)]), Nest(Address, "Address", "", field)]);
  }

  /** Every span of a document that begins with words comes after them. */
  lemma SpansAfterWords(s: string, m: Markup)
    requires AllWellFormed(AllBuilt([Words(s), m]))
    ensures forall x :: x in SpansOf(AllBuilt([Words(s), m])) ==> |Encode(s)| < x.0
  {
    hide Encode;
    var doc := AllBuilt([Words(s), m]);
    ScanDocument(doc);
    SortedKeeps(AllFieldSpans(doc, false, 0));
    BuiltTwo(Words(s), m);
    assert doc[1..] == [Built(m)];
    AllSpansWithin(doc[1..], false, |Encode(s)|);
    assert AllFieldSpans(doc, false, 0) == [] + AllFieldSpans(doc[1..], false, |Encode(s)|);
    forall x | x in SpansOf(doc)
      ensures x in AllFieldSpans(doc, false, 0)
    {
      assert x in multiset(SpansOf(doc));
    }
  }

  /**
   A field in a field: the guard counts the inner `x` twice and lets the replacement through for two, one
   of which is in the comment before the root element. The comment changes, and the comparison of protected
   content does not see it.
   */
  lemma NestedMisleads(parse: Parser, reading: Reading)
    requires Faithful(parse) && ReadAs(parse, NestedTable(NOTE, "x"), NestedTable(NEW_NOTE, "y"))
    ensures Derived(Spelled(NestedTable(NOTE, "x"), ""), [WORD_ITEM], parse, reading)
         == Success(Spelled(NestedTable(NEW_NOTE, "y"), ""))
    ensures var doc := AllBuilt(NestedTable(NOTE, "x"));
      AllWellFormed(doc) && forall s :: s in SpansOf(doc) ==> |Encode(NOTE)| < s.0
    ensures NOTE <= Spelled(NestedTable(NOTE, "x"), "") && NEW_NOTE <= Spelled(NestedTable(NEW_NOTE, "y"), "")
  {
    hide Encode, Count, Replace, Spelled, AllBuilt, Protected, Faithful, AllFieldContents, Substitute, Derived, ReadAs,
         Becomes, AllWellFormed, SpansOf, PlainMarkup;
    NestedStarts(NOTE, "x");
    NestedStarts(NEW_NOTE, "y");
    NestedPlain(NOTE, "x");
    BuiltDocument(NestedTable(NOTE, "x"));
    SpansAfterWords(NOTE, NestedTable(NOTE, "x")[1]);
    TableBecomes();
    NamesWithout();
    assert "x" == ['x'];
    BecomesSpelled(NestedTable(NOTE, "x"), NestedTable(NEW_NOTE, "y"), 'x', "y", 2);
    NestedCounted();
    NestedShort();
    NestedTrees(reading);
    SubstituteOne(NestedTable(NOTE, "x"), NestedTable(NEW_NOTE, "y"), WORD_ITEM, parse);
    DeriveOne(NestedTable(NOTE, "x"), NestedTable(NEW_NOTE, "y"), WORD_ITEM, parse, reading);
  }

  lemma NestedStarts(note: string, word: string)
    ensures note <= Spelled(NestedTable(note, word), "")
    ensures Spelled(NestedTable(NOTE, "x"), "") != Spelled(NestedTable(NEW_NOTE, "y"), "")
  {
    hide Spelled;
    var t, t' := NestedTable(NOTE, "x")[1], NestedTable(NEW_NOTE, "y")[1];
    SpelledTwo(Words(note), NestedTable(note, word)[1], "");
    SpelledOne(Words(note), Spelled([NestedTable(note, word)[1]], ""));
    SpelledTwo(Words(NOTE), t, "");
    SpelledOne(Words(NOTE), Spelled([t], ""));
    SpelledTwo(Words(NEW_NOTE), t', "");
    SpelledOne(Words(NEW_NOTE), Spelled([t'], ""));
    assert NOTE[4] == 'x' && NEW_NOTE[4] == 'y';
    assert (NOTE + Spelled([t], ""))[4] == 'x' && (NEW_NOTE + Spelled([t'], ""))[4] == 'y';
  }

  lemma NestedShort()
    ensures |Encode(Spelled(NestedTable(NEW_NOTE, "y"), ""))| <= MAX_CT_BYTES
  {
    hide Encode, Spelled;
    SpelledLength(NestedTable(NEW_NOTE, "y"), "");
    EncodeLength(Spelled(NestedTable(NEW_NOTE, "y"), ""));
    NestedSize();
  }

  /** The length of a table's text. */
  function Size(ms: seq<Markup>): nat {
    if ms == [] then 0
    else (if ms[0].Words? then |ms[0].s| else 2 * |ms[0].name| + |ms[0].trail| + 5 + Size(ms[0].kids)) + Size(ms[1..])
  }

  lemma {:induction false} SpelledLength(ms: seq<Markup>, rest: string)
    ensures |Spelled(ms, rest)| == Size(ms) + |rest|
    decreases ms
  {
    if ms != [] {
      SpelledLength(ms[1..], rest);
      if ms[0].Nest? { SpelledLength(ms[0].kids, "</" + ms[0].name + ">" + Spelled(ms[1..], rest)); }
    }
  }

  lemma SizeOne(m: Markup)
    ensures Size([m]) == if m.Words? then |m.s| else 2 * |m.name| + |m.trail| + 5 + Size(m.kids)
  {
    assert [m][1..] == [];
  }

  lemma SizeTwo(m: Markup, m': Markup)
    ensures Size([m, m']) == Size([m]) + Size([m'])
  {
    assert [m, m'][1..] == [m'] && [m][1..] == [];
  }

  lemma NestedSize()
    ensures Size(NestedTable(NEW_NOTE, "y")) <= 1000
  {
    hide Size;
    var id7, id8, field := Nest(Other, "ID", "", [Words("7")]), Nest(Other, "ID", "", [Words("8")]),
                           Nest(Address, "Address", "", [Words("y")]);
    var table := NestedTable(NEW_NOTE, "y")[1];
    SizeOne(Words("7"));
    SizeOne(Words("8"));
    SizeOne(Words("y"));
    SizeOne(id7);
    SizeOne(id8);
    SizeOne(field);
    SizeTwo(id8, field);
    SizeOne(InnerEntry("y"));
    SizeOne(OuterField("y"));
    SizeTwo(id7, OuterField("y"));
    SizeOne(OuterEntry("y"));
    SizeOne(table.kids[0]);
    SizeOne(table);
    SizeOne(Words(NEW_NOTE));
    SizeTwo(Words(NEW_NOTE), table);
  }

  /** There is a faithful parser for each of the two examples. */
  lemma ExamplesAreRead()
    ensures exists parse: Parser :: Faithful(parse) && ReadAs(parse, OverTable(""), OverTable(" "))
    ensures exists parse: Parser :: Faithful(parse) && ReadAs(parse, NestedTable(NOTE, "x"), NestedTable(NEW_NOTE, "y"))
  {
    hide Encode, Spelled, AllBuilt, Texts, AllWellFormed, PlainMarkup, Faithful, ReadAs, ReadsBoth;
    PlainNames();
    SpacePlain();
    OverPlain("");
    OverPlain(" ");
    OverDifferent();
    BothRead(OverTable(""), OverTable(" "));
    NestedPlain(NOTE, "x");
    NestedPlain(NEW_NOTE, "y");
    NestedStarts(NOTE, "x");
    BothRead(NestedTable(NOTE, "x"), NestedTable(NEW_NOTE, "y"));
  }

  lemma SpacePlain()
    ensures PlainText(" ")
  {
  }

  lemma BothRead(a: seq<Markup>, b: seq<Markup>)
    requires PlainMarkup(a) && PlainMarkup(b) && Spelled(a, "") != Spelled(b, "")
    ensures var parse := ReadsBoth(AllBuilt(a), AllBuilt(b)); Faithful(parse) && ReadAs(parse, a, b)
  {
    hide Encode, Spelled, AllBuilt, Texts, AllWellFormed, PlainMarkup, Faithful, ReadAs, ReadsBoth;
    BuiltDocument(a);
    BuiltDocument(b);
    ReadsBothFaithfully(a, b);
    if Texts(AllBuilt(a)) == Texts(AllBuilt(b)) { EncodeInjective(Spelled(a, ""), Spelled(b, "")); }
  }
}
