/**
 A table on which the guard counts right and the derivation is refused all the same: the substitution
 puts an element into a field.
 */
module AddedElement {
  import opened Sequences
  import opened Substitution
  import opened TableSpans
  import opened TableRepair
  import opened FieldCounts
  import opened RepairExamples
  import opened ProtectedTree
  import opened Utf8
  import opened Wrappers

  /** The table `<CheatTable><CheatEntries><CheatEntry><ID>7</ID><Address>...</Address></CheatEntry>...`. */
  function FieldTable(word: string): seq<Markup> {
    [Nest(Other, "CheatTable", "", [Nest(Other, "CheatEntries", "", [FieldEntry(word)])])]
  }

  function FieldEntry(word: string): Markup {
    Nest(CheatEntry, "CheatEntry", "", [Nest(Other, "ID", "", [Words("7")]), WordField(word)])
  }

  function WordField(word: string): Markup {
    Nest(Address, "Address", "", [Words(word)])
  }

  function Wrap(local: Local, name: string, kids: seq<Node>): Node {
    Element(Tag(local, Encode(name), [], [], false), kids, [])
  }

  /** The same table with any content in its field. */
  function FieldDocument(field: seq<Node>): Document {
    [Wrap(Other, "CheatTable", [Wrap(Other, "CheatEntries", [Wrap(CheatEntry, "CheatEntry",
      [Wrap(Other, "ID", [Raw(Encode("7"))]), Wrap(Address, "Address", field)])])])]
  }

  /** The element `<x/>`. */
  const EMPTY_X := Element(Tag(Other, Encode("x"), [], [], true), [], [])

  const ADDING := Item("q", "<x/>", 1)

  // ---------------------------------------------------------------- what the two texts are read as

  lemma WrapBuilt(local: Local, name: string, kids: seq<Markup>)
    ensures Built(Nest(local, name, "", kids)) == Wrap(local, name, AllBuilt(kids))
  {
  }

  lemma FieldBuilt(word: string)
    ensures AllBuilt(FieldTable(word)) == FieldDocument([Raw(Encode(word))])
  {
    hide Encode, AllBuilt;
    var id, entries := Nest(Other, "ID", "", [Words("7")]), Nest(Other, "CheatEntries", "", [FieldEntry(word)]);
    BuiltOne(Words("7"));
    BuiltOne(Words(word));
    WrapBuilt(Other, "ID", [Words("7")]);
    WrapBuilt(Address, "Address", [Words(word)]);
    BuiltTwo(id, WordField(word));
    WrapBuilt(CheatEntry, "CheatEntry", FieldEntry(word).kids);
    BuiltOne(FieldEntry(word));
    WrapBuilt(Other, "CheatEntries", [FieldEntry(word)]);
    BuiltOne(entries);
    WrapBuilt(Other, "CheatTable", [entries]);
    BuiltOne(FieldTable(word)[0]);
  }

  lemma FieldPlain(word: string)
    requires PlainText(word)
    ensures PlainMarkup(FieldTable(word))
  {
    hide PlainMarkup, PlainText;
    PlainNames();
    PlainWords(word);
    EntryPlain("7", [Words(word)]);
    PlainNest(Other, "CheatEntries", "", [FieldEntry(word)]);
    PlainNest(Other, "CheatTable", "", FieldTable(word)[0].kids);
  }

  lemma TextsOne(n: Node)
    ensures Texts([n]) == Text(n) && (AllWellFormed([n]) <==> WellFormed(n))
  {
    assert [n][1..] == [] && Text(n) + [] == Text(n);
  }

  lemma TextsTwo(m: Node, n: Node)
    ensures Texts([m, n]) == Text(m) + Text(n) && (AllWellFormed([m, n]) <==> WellFormed(m) && WellFormed(n))
  {
    assert [m, n][1..] == [n];
    TextsOne(n);
  }

  /** Two wrapped contents with one text have one text wrapped. */
  lemma WrapText(local: Local, name: string, kids: seq<Node>, others: seq<Node>)
    requires Texts(kids) == Texts(others)
    ensures Text(Wrap(local, name, kids)) == Text(Wrap(local, name, others))
    ensures Texts([Wrap(local, name, kids)]) == Texts([Wrap(local, name, others)])
  {
    TextsOne(Wrap(local, name, kids));
    TextsOne(Wrap(local, name, others));
  }

  lemma WrapWellFormed(local: Local, name: string, kids: seq<Node>)
    requires name != "" && PlainText(name) && AllWellFormed(kids)
    ensures WellFormed(Wrap(local, name, kids)) && AllWellFormed([Wrap(local, name, kids)])
  {
    hide Encode;
    PlainEncoded(name);
    NameEncoded(name);
    TextsOne(Wrap(local, name, kids));
  }

  lemma NameEncoded(name: string)
    requires name != ""
    ensures Encode(name) != []
  {
  }

  /** A document spelled as another with the same text in its field is spelled alike. */
  lemma FieldText(field: seq<Node>, other: seq<Node>)
    requires Texts(field) == Texts(other)
    ensures Texts(FieldDocument(field)) == Texts(FieldDocument(other))
  {
    hide Encode, Text, Texts, Wrap;
    var id := Wrap(Other, "ID", [Raw(Encode("7"))]);
    var f, g := Wrap(Address, "Address", field), Wrap(Address, "Address", other);
    WrapText(Address, "Address", field, other);
    TextsTwo(id, f);
    TextsTwo(id, g);
    var e, h := Wrap(CheatEntry, "CheatEntry", [id, f]), Wrap(CheatEntry, "CheatEntry", [id, g]);
    WrapText(CheatEntry, "CheatEntry", [id, f], [id, g]);
    WrapText(Other, "CheatEntries", [e], [h]);
    WrapText(Other, "CheatTable", [Wrap(Other, "CheatEntries", [e])], [Wrap(Other, "CheatEntries", [h])]);
  }

  lemma FieldWellFormed(field: seq<Node>)
    requires AllWellFormed(field)
    ensures AllWellFormed(FieldDocument(field))
  {
    hide Encode, WellFormed, AllWellFormed, Wrap, PlainText;
    PlainNames();
    var id, f := Wrap(Other, "ID", [Raw(Encode("7"))]), Wrap(Address, "Address", field);
    RawWellFormed(Encode("7"));
    WrapWellFormed(Other, "ID", [Raw(Encode("7"))]);
    WrapWellFormed(Address, "Address", field);
    TextsTwo(id, f);
    WrapWellFormed(CheatEntry, "CheatEntry", [id, f]);
    WrapWellFormed(Other, "CheatEntries", [Wrap(CheatEntry, "CheatEntry", [id, f])]);
    WrapWellFormed(Other, "CheatTable", [Wrap(Other, "CheatEntries", [Wrap(CheatEntry, "CheatEntry", [id, f])])]);
  }

  lemma RawWellFormed(bytes: seq<Byte>)
    ensures AllWellFormed([Raw(bytes)])
  {
  }

  /** The element is spelled by the four characters put in. */
  lemma EmptyX()
    ensures Texts([EMPTY_X]) == Encode("<x/>") && AllWellFormed([EMPTY_X])
    ensures Texts([Raw(Encode("<x/>"))]) == Encode("<x/>")
  {
    TextsOne(EMPTY_X);
    TextsOne(Raw(Encode("<x/>")));
    var s := "<x/>";
    assert s[1..] == "x/>" && s[1..][1..] == "/>" && s[1..][1..][1..] == ">" && s[1..][1..][1..][1..] == "";
    assert "x"[1..] == "" && Encode("x") == [120];
    assert Encode(s) == [60, 120, 47, 62];
    assert TagText(EMPTY_X.tag) == [60, 120, 47, 62];
  }

  /** The text after the substitution spells the table with the element in its field. */
  lemma AddedText()
    ensures Encode(Spelled(FieldTable("<x/>"), "")) == Texts(FieldDocument([EMPTY_X]))
    ensures AllWellFormed(FieldDocument([EMPTY_X]))
  {
    hide Encode, Spelled, AllBuilt, Texts, FieldDocument, AllWellFormed;
    BuiltSpelled(FieldTable("<x/>"), "");
    EncodeNothing();
    assert Texts(AllBuilt(FieldTable("<x/>"))) + [] == Texts(AllBuilt(FieldTable("<x/>")));
    FieldBuilt("<x/>");
    EmptyX();
    FieldText([Raw(Encode("<x/>"))], [EMPTY_X]);
    FieldWellFormed([EMPTY_X]);
  }

  lemma EncodeNothing()
    ensures Encode("") == []
  {
  }

  // ---------------------------------------------------------------- the guard lets it through

  lemma NoQ()
    ensures 'q' !in "ID" && 'q' !in "Address" && 'q' !in "CheatEntry" && 'q' !in "CheatEntries" && 'q' !in "CheatTable"
    ensures 'q' !in "</>"
    ensures Count("7", ['q']) == 0 && Replace("7", ['q'], "<x/>") == "7"
    ensures Count("q", ['q']) == 1 && Replace("q", ['q'], "<x/>") == "<x/>"
    ensures Count("", ['q']) == 0 && Replace("", ['q'], "<x/>") == ""
  {
    assert "7"[1..] == "" && "q"[1..] == "" && "7"[0] == '7' && "q"[0] == 'q';
    assert ['q'] <= "q" && "q"[1..] == "" && "<x/>" + "" == "<x/>";
  }

  lemma FieldBecomes()
    ensures Becomes(FieldTable("q"), FieldTable("<x/>"), 'q', "<x/>", 1)
  {
    hide Becomes, Count, Replace;
    NoQ();
    BecomesWords("q", "<x/>", 'q', "<x/>", 1);
    EntryBecomes("7", [Words("q")], [Words("<x/>")], 'q', "<x/>", 1);
    BecomesNest(Other, "CheatEntries", [FieldEntry("q")], [FieldEntry("<x/>")], 'q', "<x/>", 1);
    BecomesNest(Other, "CheatTable", FieldTable("q")[0].kids, FieldTable("<x/>")[0].kids, 'q', "<x/>", 1);
  }

  lemma Searched()
    ensures Count(Spelled(FieldTable("q"), ""), "q") == 1
    ensures Replace(Spelled(FieldTable("q"), ""), "q", "<x/>") == Spelled(FieldTable("<x/>"), "")
  {
    hide Count, Replace, Spelled, Becomes;
    NoQ();
    FieldBecomes();
    assert "q" == ['q'];
    BecomesSpelled(FieldTable("q"), FieldTable("<x/>"), 'q', "<x/>", 1);
  }

  lemma FieldCounted()
    ensures CountAll(AllFieldContents(AllBuilt(FieldTable("q")), false), Encode("q")) == 1
  {
    hide Encode, AllFieldContents, FieldContents, Flat, AllFlat, AllBuilt, Built, Count, Texts, CountAll;
    var id, entries := Nest(Other, "ID", "", [Words("7")]), Nest(Other, "CheatEntries", "", [FieldEntry("q")]);
    NoFieldInWords("7");
    NoFieldInWords("q");
    BuiltOne(Words("7"));
    BuiltOne(Words("q"));
    NotAField(id, true);
    WordsBytes("q");
    IsAField(WordField("q"));
    assert [] + [Encode("q")] == [Encode("q")];
    BuiltTwo(id, WordField("q"));
    NotAField(FieldEntry("q"), false);
    BuiltOne(FieldEntry("q"));
    NotAField(entries, false);
    BuiltOne(entries);
    NotAField(FieldTable("q")[0], false);
    BuiltOne(FieldTable("q")[0]);
    CountOne(Encode("q"), Encode("q"));
    NoQ();
    assert "q" == ['q'];
    SearchInBytes("q", "q", "<x/>");
  }

  lemma AddedShort()
    ensures |Encode(Spelled(FieldTable("<x/>"), ""))| <= MAX_CT_BYTES
  {
    hide Encode, Spelled, Size;
    SpelledLength(FieldTable("<x/>"), "");
    EncodeLength(Spelled(FieldTable("<x/>"), ""));
    WordSize("<x/>");
  }

  lemma AddedPassesGuard(parse: Parser)
    requires Faithful(parse)
    requires parse(Encode(Spelled(FieldTable("q"), ""))) == Some(AllBuilt(FieldTable("q")))
    ensures Substitute(Spelled(FieldTable("q"), ""), ADDING, parse) == Success(Spelled(FieldTable("<x/>"), ""))
  {
    hide Encode, Count, Replace, Spelled, AllBuilt, CountInSpans, SpansOf, AllFieldContents, Texts, CountAll;
    Searched();
    FieldCounted();
    AddedShort();
    assert "q"[0] == 'q' && "<x/>"[0] == '<';
    GuardCountsRead(parse, Encode(Spelled(FieldTable("q"), "")), Encode("q"));
  }

  // ---------------------------------------------------------------- the comparison does not

  lemma AlikeOne(x: Node, y: Node, xIn: bool, yIn: bool, r: Reading)
    requires x.Element? && y.Element?
    ensures Alike([x], [y], xIn, yIn, r) ==> AlikeElement(x, y, xIn, yIn, r)
  {
    hide AlikeElement;
    assert [x][0] == x && [y][0] == y;
  }

  lemma AlikeTwo(m: Node, x: Node, y: Node, xIn: bool, yIn: bool, r: Reading)
    requires m.Element? && x.Element? && y.Element?
    ensures Alike([m, x], [m, y], xIn, yIn, r) ==> AlikeElement(x, y, xIn, yIn, r)
  {
    hide AlikeElement;
    assert [m, x][1..] == [x] && [m, y][1..] == [y];
    AlikeOne(x, y, xIn, yIn, r);
  }

  lemma AlikeWithin(local: Local, name: string, a: seq<Node>, b: seq<Node>, inEntry: bool, r: Reading)
    ensures AlikeElement(Wrap(local, name, a), Wrap(local, name, b), inEntry, inEntry, r)
            ==> Alike(a, b, local == CheatEntry, local == CheatEntry, r)
  {
  }

  /** Two tables are alike only if what their fields hold is. */
  lemma FieldsAlike(a: seq<Node>, b: seq<Node>, r: Reading)
    ensures Protected(FieldDocument(a), r) == Protected(FieldDocument(b), r) ==> Alike(a, b, false, false, r)
  {
    hide Encode, Alike, AlikeElement, Protected, Wrap;
    var id := Wrap(Other, "ID", [Raw(Encode("7"))]);
    var f, g := Wrap(Address, "Address", a), Wrap(Address, "Address", b);
    var e, h := Wrap(CheatEntry, "CheatEntry", [id, f]), Wrap(CheatEntry, "CheatEntry", [id, g]);
    var s, t := Wrap(Other, "CheatEntries", [e]), Wrap(Other, "CheatEntries", [h]);
    forall local, name, kids
      ensures Wrap(local, name, kids).Element?
    {
      WrapIsElement(local, name, kids);
    }
    ProtectedExactly(FieldDocument(a), FieldDocument(b), 0, 0, r);
    AlikeWithin(Other, "CheatTable", [s], [t], false, r);
    AlikeOne(s, t, false, false, r);
    AlikeWithin(Other, "CheatEntries", [e], [h], false, r);
    AlikeOne(e, h, false, false, r);
    AlikeWithin(CheatEntry, "CheatEntry", [id, f], [id, g], false, r);
    AlikeTwo(id, f, g, true, true, r);
    AlikeWithin(Address, "Address", a, b, true, r);
  }

  lemma WrapIsElement(local: Local, name: string, kids: seq<Node>)
    ensures Wrap(local, name, kids).Element?
  {
  }

  /** Character data is not alike an element. */
  lemma DataIsNoElement(bytes: seq<Byte>, x: Node, r: Reading)
    requires x.Element?
    ensures !Alike([Raw(bytes)], [x], false, false, r)
  {
    assert [Raw(bytes)][1..] == [];
  }

  /**
   A substitution that puts `<x/>` where a field held `q`, counted right: the guard lets it through, and the
   derivation is refused because the result has an element its source has not.
   */
  lemma AddedElementRefused(parse: Parser, reading: Reading)
    requires Faithful(parse)
    requires parse(Encode(Spelled(FieldTable("q"), ""))) == Some(AllBuilt(FieldTable("q")))
    requires parse(Encode(Spelled(FieldTable("<x/>"), ""))) == Some(FieldDocument([EMPTY_X]))
    ensures Substitute(Spelled(FieldTable("q"), ""), ADDING, parse) == Success(Spelled(FieldTable("<x/>"), ""))
    ensures Derived(Spelled(FieldTable("q"), ""), [ADDING], parse, reading) == Failure(Altered)
  {
    hide Encode, Spelled, AllBuilt, Substitute, Protected, FieldDocument, Faithful;
    AddedPassesGuard(parse);
    assert [ADDING][1..] == [];
    AllOfOne(Spelled(FieldTable("q"), ""), ADDING, parse);
    FieldBuilt("q");
    FieldsAlike([Raw(Encode("q"))], [EMPTY_X], reading);
    DataIsNoElement(Encode("q"), EMPTY_X, reading);
  }

  /** There is a faithful parser that reads the two texts so. */
  lemma AddedIsRead()
    ensures exists parse: Parser ::
              && Faithful(parse)
              && parse(Encode(Spelled(FieldTable("q"), ""))) == Some(AllBuilt(FieldTable("q")))
              && parse(Encode(Spelled(FieldTable("<x/>"), ""))) == Some(FieldDocument([EMPTY_X]))
  {
    hide Encode, Spelled, AllBuilt, Texts, AllWellFormed, PlainMarkup, Faithful, FieldDocument;
    assert PlainText("q");
    FieldPlain("q");
    BuiltDocument(FieldTable("q"));
    AddedText();
    var a, b := AllBuilt(FieldTable("q")), FieldDocument([EMPTY_X]);
    ReadsFaithfully(a, b);
    var parse := ReadsBoth(a, b);
    if Texts(a) == Texts(b) {
      EncodeInjective(Spelled(FieldTable("q"), ""), Spelled(FieldTable("<x/>"), ""));
      TextsDiffer();
    }
    assert Faithful(parse);
  }

  lemma TextsDiffer()
    ensures Spelled(FieldTable("q"), "") != Spelled(FieldTable("<x/>"), "")
  {
    hide Spelled, Size;
    WordSize("q");
    WordSize("<x/>");
    SpelledLength(FieldTable("q"), "");
    SpelledLength(FieldTable("<x/>"), "");
  }

  lemma WordSize(word: string)
    ensures Size(FieldTable(word)) == |word| + 108
  {
    hide Size;
    SizeOne(Words("7"));
    SizeOne(Words(word));
    SizeOne(Nest(Other, "ID", "", [Words("7")]));
    SizeOne(WordField(word));
    SizeTwo(Nest(Other, "ID", "", [Words("7")]), WordField(word));
    SizeOne(FieldEntry(word));
    SizeOne(FieldTable(word)[0].kids[0]);
    SizeOne(FieldTable(word)[0]);
  }

  lemma ReadsFaithfully(a: Document, b: Document)
    requires AllWellFormed(a) && AllWellFormed(b)
    ensures Faithful(ReadsBoth(a, b))
  {
    hide AllWellFormed, Texts;
  }
}
