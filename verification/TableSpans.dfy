/**
 The byte intervals of a cheat table that a derivation may edit: the content of the `Address` and
 `AssemblerScript` elements directly inside a record.

 A document is modelled as a tree whose start tags are spelled out byte for byte, because the scanner
 looks for the end of a start tag itself. What the XML parser contributes is the order of element
 starts and ends and the byte offset of each.
 */
module TableSpans {
  import opened Sequences
  import opened Substitution
  import opened Utf8
  import opened Wrappers

  const LT: Byte := 60
  const GT: Byte := 62
  const SLASH: Byte := 47
  const DOUBLE: Byte := 34
  const SINGLE: Byte := 39

  /** An element's name once its namespace is dropped, as far as the scanner tells names apart. */
  datatype Local = CheatEntry | Address | AssemblerScript | Other

  datatype Attribute = Attribute(lead: seq<Byte>, quote: Byte, value: seq<Byte>)

  /** A start tag: the raw name, the attributes, whatever follows the last one, and whether it closes itself. */
  datatype Tag = Tag(local: Local, name: seq<Byte>, attributes: seq<Attribute>, trail: seq<Byte>, closed: bool)

  /** An element, or anything else a document holds: text, comments, CDATA, processing instructions. */
  datatype Node =
    | Element(tag: Tag, children: seq<Node>, endTrail: seq<Byte>)
    | Raw(bytes: seq<Byte>)

  /** A whole document: what stands before the root element, the root, and what follows it. */
  type Document = seq<Node>

  /** Bytes that neither open a quoted value nor close a tag. */
  predicate Plain(x: seq<Byte>) {
    DOUBLE !in x && SINGLE !in x && GT !in x
  }

  /** The start-tag grammar of XML 1.0 section 3.1, as far as quotes, `/` and `>` go. */
  predicate WellFormedTag(t: Tag) {
    && t.name != [] && Plain(t.name) && SLASH !in t.name
    && WellFormedAttributes(t.attributes)
    && Plain(t.trail) && SLASH !in t.trail
  }

  predicate WellFormedAttribute(a: Attribute) {
    a.lead != [] && Plain(a.lead) && (a.quote == DOUBLE || a.quote == SINGLE) && a.quote !in a.value
  }

  predicate WellFormedAttributes(attributes: seq<Attribute>) {
    forall a :: a in attributes ==> WellFormedAttribute(a)
  }

  predicate WellFormed(n: Node) {
    match n
    case Raw(_) => true
    case Element(t, children, _) => WellFormedTag(t) && (t.closed ==> children == []) && AllWellFormed(children)
  }

  predicate AllWellFormed(ns: seq<Node>) {
    ns == [] || (WellFormed(ns[0]) && AllWellFormed(ns[1..]))
  }

  function AttributeText(a: Attribute): seq<Byte> {
    a.lead + ([a.quote] + (a.value + [a.quote]))
  }

  function AttributesText(attributes: seq<Attribute>): seq<Byte> {
    if attributes == [] then [] else AttributeText(attributes[0]) + AttributesText(attributes[1..])
  }

  /** What follows a tag's last attribute, up to the `>` that ends it. */
  function Closing(t: Tag): seq<Byte> {
    t.trail + if t.closed then [SLASH] else []
  }

  function TagText(t: Tag): seq<Byte> {
    ([LT] + t.name) + (AttributesText(t.attributes) + (Closing(t) + [GT]))
  }

  function EndText(t: Tag, endTrail: seq<Byte>): seq<Byte> {
    [LT, SLASH] + t.name + endTrail + [GT]
  }

  function Text(n: Node): seq<Byte> {
    match n
    case Raw(bytes) => bytes
    case Element(t, children, endTrail) =>
      if t.closed then TagText(t) else TagText(t) + Texts(children) + EndText(t, endTrail)
  }

  function Texts(ns: seq<Node>): seq<Byte> {
    if ns == [] then [] else Text(ns[0]) + Texts(ns[1..])
  }

  // ---------------------------------------------------------------- the start-tag scan

  /** Where the scan from `pos` finds the `>` that ends the tag, `quote` being the quote it is inside. */
  function TagEnd(blob: seq<Byte>, pos: nat, quote: Option<Byte>): (r: Option<nat>)
    ensures r.Some? ==> pos <= r.value < |blob| && blob[r.value] == GT
    decreases |blob| - pos
  {
    if pos >= |blob| then None
    else if quote.Some? then TagEnd(blob, pos + 1, if blob[pos] == quote.value then None else quote)
    else if blob[pos] == DOUBLE || blob[pos] == SINGLE then TagEnd(blob, pos + 1, Some(blob[pos]))
    else if blob[pos] == GT then Some(pos)
    else TagEnd(blob, pos + 1, None)
  }

  /** Where an element's content begins, unless its tag closes itself or never ends. */
  function ContentStart(blob: seq<Byte>, pos: nat): (r: Option<nat>)
    requires pos < |blob| && blob[pos] == LT
    ensures r.Some? ==> pos < r.value <= |blob|
  {
    match TagEnd(blob, pos, None)
    case Some(p) => if blob[p - 1] != SLASH then Some(p + 1) else None
    case None => None
  }

  method ScanStartTag(blob: seq<Byte>, at: nat) returns (begin: Option<nat>)
    requires at < |blob| && blob[at] == LT
    ensures begin == ContentStart(blob, at)
  {
    begin := None;
    var pos, quote: Option<Byte> := at, None;
    while pos < |blob|
      invariant at <= pos <= |blob|
      invariant pos == at ==> quote == None
      invariant begin == None
      invariant TagEnd(blob, at, None) == TagEnd(blob, pos, quote)
    {
      var b := blob[pos];
      if quote.Some? {
        if b == quote.value { quote := None; }
      } else if b == DOUBLE || b == SINGLE {
        quote := Some(b);
      } else if b == GT {
        if blob[pos - 1] != SLASH { begin := Some(pos + 1); }
        break;
      }
      pos := pos + 1;
    }
  }

  /** `x` stands in `blob` at `pos`. */
  predicate StandsAt(blob: seq<Byte>, pos: nat, x: seq<Byte>) {
    pos + |x| <= |blob| && blob[pos..pos + |x|] == x
  }

  lemma StandsApart(blob: seq<Byte>, pos: nat, x: seq<Byte>, y: seq<Byte>)
    requires StandsAt(blob, pos, x + y)
    ensures StandsAt(blob, pos, x) && StandsAt(blob, pos + |x|, y)
  {
    assert x == (x + y)[..|x|] == blob[pos..pos + |x|];
    assert y == (x + y)[|x|..] == blob[pos + |x|..pos + |x| + |y|];
  }

  lemma StandsFirst(blob: seq<Byte>, pos: nat, b: Byte)
    requires StandsAt(blob, pos, [b])
    ensures blob[pos] == b
  {
    assert blob[pos..pos + 1][0] == b;
  }

  /** The scan passes over bytes that neither quote nor close. */
  lemma {:induction false} ScanPlain(blob: seq<Byte>, pos: nat, x: seq<Byte>)
    requires StandsAt(blob, pos, x)
    requires Plain(x)
    ensures TagEnd(blob, pos, None) == TagEnd(blob, pos + |x|, None)
    decreases |x|
  {
    if x != [] {
      assert x == [x[0]] + x[1..];
      StandsApart(blob, pos, [x[0]], x[1..]);
      StandsFirst(blob, pos, x[0]);
      ScanPlain(blob, pos + 1, x[1..]);
    }
  }

  /** Inside quotes the scan passes over everything up to the closing quote, `>` included. */
  lemma {:induction false} ScanQuoted(blob: seq<Byte>, pos: nat, x: seq<Byte>, quote: Byte)
    requires StandsAt(blob, pos, x + [quote])
    requires quote !in x
    ensures TagEnd(blob, pos, Some(quote)) == TagEnd(blob, pos + |x| + 1, None)
    decreases |x|
  {
    if x == [] {
      StandsFirst(blob, pos, quote);
    } else {
      assert x + [quote] == [x[0]] + (x[1..] + [quote]);
      StandsApart(blob, pos, [x[0]], x[1..] + [quote]);
      StandsFirst(blob, pos, x[0]);
      ScanQuoted(blob, pos + 1, x[1..], quote);
    }
  }

  lemma ScanAttribute(blob: seq<Byte>, pos: nat, a: Attribute)
    requires StandsAt(blob, pos, AttributeText(a))
    requires WellFormedAttribute(a)
    ensures TagEnd(blob, pos, None) == TagEnd(blob, pos + |AttributeText(a)|, None)
  {
    hide Plain, TagEnd;
    var p := pos + |a.lead|;
    StandsApart(blob, pos, a.lead, [a.quote] + (a.value + [a.quote]));
    StandsApart(blob, p, [a.quote], a.value + [a.quote]);
    ScanPlain(blob, pos, a.lead);
    StandsFirst(blob, p, a.quote);
    ScanOpens(blob, p, a.quote);
    ScanQuoted(blob, p + 1, a.value, a.quote);
  }

  lemma ScanOpens(blob: seq<Byte>, pos: nat, quote: Byte)
    requires pos < |blob| && blob[pos] == quote && (quote == DOUBLE || quote == SINGLE)
    ensures TagEnd(blob, pos, None) == TagEnd(blob, pos + 1, Some(quote))
  {
  }

  lemma {:induction false} ScanAttributes(blob: seq<Byte>, pos: nat, attributes: seq<Attribute>)
    requires StandsAt(blob, pos, AttributesText(attributes))
    requires WellFormedAttributes(attributes)
    ensures TagEnd(blob, pos, None) == TagEnd(blob, pos + |AttributesText(attributes)|, None)
    decreases attributes
  {
    hide TagEnd, AttributeText, WellFormedAttribute;
    if attributes != [] {
      var here := AttributeText(attributes[0]);
      assert attributes[0] in attributes;
      StandsApart(blob, pos, here, AttributesText(attributes[1..]));
      ScanAttribute(blob, pos, attributes[0]);
      ScanAttributes(blob, pos + |here|, attributes[1..]);
    }
  }

  lemma ScanParts(blob: seq<Byte>, pos: nat, open: seq<Byte>, attributes: seq<Attribute>, close: seq<Byte>)
    requires Plain(open) && WellFormedAttributes(attributes) && Plain(close)
    requires StandsAt(blob, pos, open + (AttributesText(attributes) + (close + [GT])))
    ensures TagEnd(blob, pos, None) == Some(pos + |open| + |AttributesText(attributes)| + |close|)
  {
    hide TagEnd, AttributesText, WellFormedAttributes;
    var middle := AttributesText(attributes);
    var p := pos + |open|;
    var q := p + |middle|;
    StandsApart(blob, pos, open, middle + (close + [GT]));
    StandsApart(blob, p, middle, close + [GT]);
    StandsApart(blob, q, close, [GT]);
    ScanPlain(blob, pos, open);
    ScanAttributes(blob, p, attributes);
    ScanPlain(blob, q, close);
    ScanStops(blob, q + |close|);
  }

  lemma ScanStops(blob: seq<Byte>, pos: nat)
    requires StandsAt(blob, pos, [GT])
    ensures TagEnd(blob, pos, None) == Some(pos)
  {
    StandsFirst(blob, pos, GT);
  }

  lemma ScanFindsEnd(blob: seq<Byte>, pos: nat, t: Tag)
    requires WellFormedTag(t)
    requires StandsAt(blob, pos, TagText(t))
    ensures TagEnd(blob, pos, None) == Some(pos + |TagText(t)| - 1)
  {
    ScanParts(blob, pos, [LT] + t.name, t.attributes, Closing(t));
  }

  /**
   The scan finds the end of every well-formed start tag, whatever its attribute values hold, and
   reports content exactly when the tag does not close itself.
   */
  lemma ScanFindsContent(blob: seq<Byte>, pos: nat, t: Tag)
    requires WellFormedTag(t)
    requires StandsAt(blob, pos, TagText(t))
    ensures pos < |blob| && blob[pos] == LT
    ensures ContentStart(blob, pos) == if t.closed then None else Some(pos + |TagText(t)|)
  {
    hide TagEnd, WellFormedTag;
    StandsApart(blob, pos, [LT] + t.name, AttributesText(t.attributes) + (Closing(t) + [GT]));
    StandsApart(blob, pos, [LT], t.name);
    StandsFirst(blob, pos, LT);
    ScanFindsEnd(blob, pos, t);
    LastByte(t);
    assert blob[pos + |TagText(t)| - 2] == TagText(t)[|TagText(t)| - 2];
  }

  /** A tag's last byte before its `>` is `/` exactly when it closes itself. */
  lemma LastByte(t: Tag)
    requires WellFormedTag(t)
    ensures TagText(t)[|TagText(t)| - 2] == SLASH <==> t.closed
  {
    var head := [LT] + t.name;
    var attributes, close := AttributesText(t.attributes), Closing(t);
    AttributesEnd(t.attributes);
    if close != [] {
      assert TagText(t)[|TagText(t)| - 2] == close[|close| - 1];
    } else if attributes != [] {
      assert TagText(t)[|TagText(t)| - 2] == attributes[|attributes| - 1];
    } else {
      assert TagText(t)[|TagText(t)| - 2] == t.name[|t.name| - 1];
    }
  }

  lemma {:induction false} AttributesEnd(attributes: seq<Attribute>)
    requires WellFormedAttributes(attributes)
    ensures var x := AttributesText(attributes); x != [] ==> x[|x| - 1] == DOUBLE || x[|x| - 1] == SINGLE
  {
    if attributes != [] {
      assert attributes[0] in attributes;
      AttributesEnd(attributes[1..]);
    }
  }

  // ---------------------------------------------------------------- the element stack

  /** What the parser reports: an element's start tag begins, or an element ends, at a byte offset. */
  datatype Event = Start(local: Local, at: nat) | End(at: nat)

  datatype Frame = Frame(local: Local, begin: Option<nat>)

  datatype Scan = Scan(stack: seq<Frame>, spans: seq<Span>)

  predicate IsField(l: Local) {
    l == Address || l == AssemblerScript
  }

  /** Events a parser can report: start tags begin with `<`, and only an open element ends. */
  predicate Playable(blob: seq<Byte>, events: seq<Event>, depth: nat) {
    events == [] ||
    match events[0]
    case Start(_, at) => at < |blob| && blob[at] == LT && Playable(blob, events[1..], depth + 1)
    case End(_) => depth > 0 && Playable(blob, events[1..], depth - 1)
  }

  predicate InEntry(stack: seq<Frame>) {
    stack != [] && stack[|stack| - 1].local == CheatEntry
  }

  function Step(blob: seq<Byte>, s: Scan, e: Event): Scan
    requires Playable(blob, [e], |s.stack|)
  {
    match e
    case Start(local, at) =>
      var begin := if InEntry(s.stack) && IsField(local) then ContentStart(blob, at) else None;
      Scan(s.stack + [Frame(local, begin)], s.spans)
    case End(at) =>
      var begin := s.stack[|s.stack| - 1].begin;
      Scan(s.stack[..|s.stack| - 1],
           if begin.Some? && at > begin.value then s.spans + [(begin.value, at)] else s.spans)
  }

  function Run(blob: seq<Byte>, s: Scan, events: seq<Event>): Scan
    requires Playable(blob, events, |s.stack|)
    decreases events
  {
    if events == [] then s else Run(blob, Step(blob, s, events[0]), events[1..])
  }

  /** Spans in order of where they begin. */
  function Insert(span: Span, spans: seq<Span>): seq<Span> {
    if spans == [] || span.0 < spans[0].0 || (span.0 == spans[0].0 && span.1 <= spans[0].1)
    then [span] + spans else [spans[0]] + Insert(span, spans[1..])
  }

  function Sorted(spans: seq<Span>): seq<Span> {
    if spans == [] then [] else Insert(spans[0], Sorted(spans[1..]))
  }

  method EditableSpans(blob: seq<Byte>, events: seq<Event>) returns (r: seq<Span>)
    requires Playable(blob, events, 0)
    ensures r == Sorted(Run(blob, Scan([], []), events).spans)
  {
    var stack: seq<Frame>, spans: seq<Span> := [], [];
    var i := 0;
    while i < |events|
      invariant 0 <= i <= |events|
      invariant Playable(blob, events[i..], |stack|)
      invariant Run(blob, Scan([], []), events) == Run(blob, Scan(stack, spans), events[i..])
    {
      assert events[i..][1..] == events[i + 1..];
      match events[i] {
        case Start(local, at) =>
          var begin: Option<nat> := None;
          if stack != [] && stack[|stack| - 1].local == CheatEntry && IsField(local) {
            begin := ScanStartTag(blob, at);
          }
          stack := stack + [Frame(local, begin)];
        case End(at) =>
          var begin := stack[|stack| - 1].begin;
          stack := stack[..|stack| - 1];
          if begin.Some? && at > begin.value {
            spans := spans + [(begin.value, at)];
          }
      }
      i := i + 1;
    }
    assert events[i..] == [];
    r := Sorted(spans);
  }

  // ---------------------------------------------------------------- what the spans are

  /** The events of a document whose text begins at `at`. An element that closes itself ends where its tag ends. */
  function Events(n: Node, at: nat): seq<Event> {
    match n
    case Raw(_) => []
    case Element(t, children, _) =>
      var inner := at + |TagText(t)|;
      if t.closed then [Start(t.local, at), End(inner)]
      else [Start(t.local, at)] + (AllEvents(children, inner) + [End(inner + |Texts(children)|)])
  }

  function AllEvents(ns: seq<Node>, at: nat): seq<Event> {
    if ns == [] then [] else Events(ns[0], at) + AllEvents(ns[1..], at + |Text(ns[0])|)
  }

  /** The content of every non-empty field that sits directly in a record, inner ones first. */
  function FieldSpans(n: Node, inEntry: bool, at: nat): seq<Span> {
    match n
    case Raw(_) => []
    case Element(t, children, _) =>
      var inner := at + |TagText(t)|;
      if t.closed then []
      else
        AllFieldSpans(children, t.local == CheatEntry, inner) +
        if inEntry && IsField(t.local) && Texts(children) != [] then [(inner, inner + |Texts(children)|)] else []
  }

  function AllFieldSpans(ns: seq<Node>, inEntry: bool, at: nat): seq<Span> {
    if ns == [] then [] else FieldSpans(ns[0], inEntry, at) + AllFieldSpans(ns[1..], inEntry, at + |Text(ns[0])|)
  }

  lemma RunFirst(blob: seq<Byte>, s: Scan, e: Event, rest: seq<Event>)
    requires Playable(blob, [e], |s.stack|)
    requires Playable(blob, rest, |Step(blob, s, e).stack|)
    ensures Playable(blob, [e] + rest, |s.stack|)
    ensures Run(blob, s, [e] + rest) == Run(blob, Step(blob, s, e), rest)
  {
    assert ([e] + rest)[1..] == rest;
  }

  lemma StepStart(blob: seq<Byte>, at: nat, t: Tag, s: Scan) returns (begin: Option<nat>)
    requires WellFormedTag(t) && StandsAt(blob, at, TagText(t))
    ensures Playable(blob, [Start(t.local, at)], |s.stack|)
    ensures Step(blob, s, Start(t.local, at)) == Scan(s.stack + [Frame(t.local, begin)], s.spans)
    ensures begin == if InEntry(s.stack) && IsField(t.local) && !t.closed then Some(at + |TagText(t)|) else None
  {
    ScanFindsContent(blob, at, t);
    assert [Start(t.local, at)][1..] == [];
    begin := if InEntry(s.stack) && IsField(t.local) then ContentStart(blob, at) else None;
  }

  lemma StepEnd(blob: seq<Byte>, s: Scan, f: Frame, at: nat)
    ensures var s1 := Scan(s.stack + [f], s.spans);
      && Playable(blob, [End(at)], |s1.stack|)
      && Step(blob, s1, End(at)) == Scan(s.stack,
           s.spans + if f.begin.Some? && at > f.begin.value then [(f.begin.value, at)] else [])
  {
    assert [End(at)][1..] == [];
    assert (s.stack + [f])[..|s.stack|] == s.stack;
    assert s.spans + [] == s.spans;
  }

  /** Running the stack over the events of an element adds its field spans and leaves the stack as it was. */
  lemma {:induction false} RunNode(blob: seq<Byte>, n: Node, at: nat, s: Scan, rest: seq<Event>)
    requires WellFormed(n)
    requires StandsAt(blob, at, Text(n))
    requires Playable(blob, rest, |s.stack|)
    ensures Playable(blob, Events(n, at) + rest, |s.stack|)
    ensures Run(blob, s, Events(n, at) + rest)
         == Run(blob, Scan(s.stack, s.spans + FieldSpans(n, InEntry(s.stack), at)), rest)
    decreases n, 1
  {
    hide Run, Playable;
    match n
    case Raw(_) =>
      assert Events(n, at) + rest == rest;
      assert s.spans + [] == s.spans;
    case Element(t, children, endTrail) =>
      if t.closed {
        RunClosed(blob, t, at, s, rest);
        assert Events(n, at) == [Start(t.local, at)] + [End(at + |TagText(t)|)];
        assert s.spans + [] == s.spans;
      } else {
        OpenShape(n, InEntry(s.stack), at);
        StandsApart(blob, at, TagText(t) + Texts(children), EndText(t, endTrail));
        RunOpen(blob, t, children, at, s, rest);
      }
  }

  lemma RunClosed(blob: seq<Byte>, t: Tag, at: nat, s: Scan, rest: seq<Event>)
    requires WellFormedTag(t) && t.closed && StandsAt(blob, at, TagText(t))
    requires Playable(blob, rest, |s.stack|)
    ensures var events := ([Start(t.local, at)] + [End(at + |TagText(t)|)]) + rest;
      Playable(blob, events, |s.stack|) && Run(blob, s, events) == Run(blob, s, rest)
  {
    var first, last := Start(t.local, at), End(at + |TagText(t)|);
    var begin := StepStart(blob, at, t, s);
    StepEnd(blob, s, Frame(t.local, begin), at + |TagText(t)|);
    assert s.spans + [] == s.spans;
    RunFirst(blob, Step(blob, s, first), last, rest);
    RunFirst(blob, s, first, [last] + rest);
    ConcatAssociates([first], [last], rest);
  }

  lemma OpenShape(n: Node, inEntry: bool, at: nat)
    requires n.Element? && !n.tag.closed
    ensures var inner := at + |TagText(n.tag)|; var ends := inner + |Texts(n.children)|;
      && Events(n, at) == [Start(n.tag.local, at)] + (AllEvents(n.children, inner) + [End(ends)])
      && FieldSpans(n, inEntry, at) == AllFieldSpans(n.children, n.tag.local == CheatEntry, inner)
           + if inEntry && IsField(n.tag.local) && Texts(n.children) != [] then [(inner, ends)] else []
  {
  }

  lemma {:induction false} RunOpen(blob: seq<Byte>, t: Tag, children: seq<Node>, at: nat, s: Scan, rest: seq<Event>)
    requires WellFormedTag(t) && !t.closed && AllWellFormed(children)
    requires StandsAt(blob, at, TagText(t) + Texts(children))
    requires Playable(blob, rest, |s.stack|)
    ensures var inner := at + |TagText(t)|; var ends := inner + |Texts(children)|;
      var events := ([Start(t.local, at)] + (AllEvents(children, inner) + [End(ends)])) + rest;
      var own := if InEntry(s.stack) && IsField(t.local) && Texts(children) != [] then [(inner, ends)] else [];
      && Playable(blob, events, |s.stack|)
      && Run(blob, s, events)
      == Run(blob, Scan(s.stack, s.spans + (AllFieldSpans(children, t.local == CheatEntry, inner) + own)), rest)
    decreases children, 2
  {
    hide Run, Playable;
    var inner := at + |TagText(t)|;
    StandsApart(blob, at, TagText(t), Texts(children));
    var first, body, last := Start(t.local, at), AllEvents(children, inner), End(inner + |Texts(children)|);
    var begin := StepStart(blob, at, t, s);
    RunContent(blob, children, inner, s, Frame(t.local, begin), rest);
    RunFirst(blob, s, first, (body + [last]) + rest);
    ConcatAssociates([first], body + [last], rest);
  }

  /** Running the stack over what an open element holds, and its end. */
  lemma {:induction false} RunContent(blob: seq<Byte>, children: seq<Node>, inner: nat, s: Scan, f: Frame,
      rest: seq<Event>)
    requires AllWellFormed(children) && StandsAt(blob, inner, Texts(children))
    requires Playable(blob, rest, |s.stack|)
    requires f.begin.Some? ==> f.begin.value == inner
    ensures var s1, ends := Scan(s.stack + [f], s.spans), inner + |Texts(children)|;
      var events := (AllEvents(children, inner) + [End(ends)]) + rest;
      var own := if f.begin.Some? && Texts(children) != [] then [(inner, ends)] else [];
      && Playable(blob, events, |s1.stack|)
      && Run(blob, s1, events)
      == Run(blob, Scan(s.stack, s.spans + (AllFieldSpans(children, f.local == CheatEntry, inner) + own)), rest)
    decreases children, 1
  {
    hide Run, Playable;
    var s1, ends := Scan(s.stack + [f], s.spans), inner + |Texts(children)|;
    var within := AllFieldSpans(children, f.local == CheatEntry, inner);
    var own := if f.begin.Some? && Texts(children) != [] then [(inner, ends)] else [];
    StepEnd(blob, Scan(s.stack, s.spans + within), f, ends);
    ConcatAssociates(s.spans, within, own);
    RunFirst(blob, Scan(s1.stack, s.spans + within), End(ends), rest);
    RunNodes(blob, children, inner, s1, [End(ends)] + rest);
    ConcatAssociates(AllEvents(children, inner), [End(ends)], rest);
  }

  /** Runs over two stretches of events compose. */
  lemma RunBoth(blob: seq<Byte>, e: seq<Event>, e': seq<Event>, s: Scan, here: seq<Span>, after: seq<Span>,
      rest: seq<Event>)
    requires Playable(blob, rest, |s.stack|) && Playable(blob, e' + rest, |s.stack|)
        && Playable(blob, e + (e' + rest), |s.stack|)
    requires Run(blob, s, e + (e' + rest)) == Run(blob, Scan(s.stack, s.spans + here), e' + rest)
    requires Run(blob, Scan(s.stack, s.spans + here), e' + rest)
        == Run(blob, Scan(s.stack, (s.spans + here) + after), rest)
    ensures Playable(blob, (e + e') + rest, |s.stack|)
    ensures Run(blob, s, (e + e') + rest) == Run(blob, Scan(s.stack, s.spans + (here + after)), rest)
  {
    hide Run, Playable;
    ConcatAssociates(e, e', rest);
    ConcatAssociates(s.spans, here, after);
  }

  lemma {:induction false} RunNodes(blob: seq<Byte>, ns: seq<Node>, at: nat, s: Scan, rest: seq<Event>)
    requires AllWellFormed(ns)
    requires StandsAt(blob, at, Texts(ns))
    requires Playable(blob, rest, |s.stack|)
    ensures Playable(blob, AllEvents(ns, at) + rest, |s.stack|)
    ensures Run(blob, s, AllEvents(ns, at) + rest)
         == Run(blob, Scan(s.stack, s.spans + AllFieldSpans(ns, InEntry(s.stack), at)), rest)
    decreases ns, 0
  {
    hide Run, Playable;
    if ns == [] {
      assert AllEvents(ns, at) + rest == rest;
      assert s.spans + [] == s.spans;
    } else {
      var next, inEntry := at + |Text(ns[0])|, InEntry(s.stack);
      StandsApart(blob, at, Text(ns[0]), Texts(ns[1..]));
      var here, after := FieldSpans(ns[0], inEntry, at), AllFieldSpans(ns[1..], inEntry, next);
      var tail := AllEvents(ns[1..], next);
      RunNodes(blob, ns[1..], next, Scan(s.stack, s.spans + here), rest);
      RunNode(blob, ns[0], at, s, tail + rest);
      RunBoth(blob, Events(ns[0], at), tail, s, here, after, rest);
    }
  }

  /** For a parsed document the scan yields its field contents, in order of where they begin. */
  lemma ScanDocument(doc: Document)
    requires AllWellFormed(doc)
    ensures Playable(Texts(doc), AllEvents(doc, 0), 0)
    ensures Run(Texts(doc), Scan([], []), AllEvents(doc, 0)).spans == AllFieldSpans(doc, false, 0)
  {
    RunNodes(Texts(doc), doc, 0, Scan([], []), []);
    assert AllEvents(doc, 0) + [] == AllEvents(doc, 0);
  }

  // ---------------------------------------------------------------- when the spans are disjoint

  /** No non-empty field anywhere in these nodes. */
  predicate NoFields(ns: seq<Node>, inEntry: bool) {
    ns == [] || (
      && (match ns[0]
          case Raw(_) => true
          case Element(t, children, _) =>
            t.closed || (!IsOwnField(ns[0], inEntry) && NoFields(children, t.local == CheatEntry)))
      && NoFields(ns[1..], inEntry))
  }

  predicate IsOwnField(n: Node, inEntry: bool) {
    n.Element? && !n.tag.closed && inEntry && IsField(n.tag.local) && Texts(n.children) != []
  }

  /** No field in the node lies inside another field. */
  predicate Flat(n: Node, inEntry: bool) {
    match n
    case Raw(_) => true
    case Element(t, children, _) =>
      t.closed || (
        && AllFlat(children, t.local == CheatEntry)
        && (IsOwnField(n, inEntry) ==> NoFields(children, t.local == CheatEntry)))
  }

  predicate AllFlat(ns: seq<Node>, inEntry: bool) {
    ns == [] || (Flat(ns[0], inEntry) && AllFlat(ns[1..], inEntry))
  }

  lemma {:induction false} NoFieldsNoSpans(ns: seq<Node>, inEntry: bool, at: nat)
    ensures NoFields(ns, inEntry) <==> AllFieldSpans(ns, inEntry, at) == []
    decreases ns
  {
    if ns != [] {
      NoFieldsNoSpans(ns[1..], inEntry, at + |Text(ns[0])|);
      match ns[0]
      case Raw(_) =>
      case Element(t, children, _) =>
        if !t.closed {
          NoFieldsNoSpans(children, t.local == CheatEntry, at + |TagText(t)|);
        }
    }
  }

  lemma {:induction false} DisjointJoin(a: seq<Span>, b: seq<Span>, at: nat, m: nat, n: nat)
    requires Disjoint(a, at, m) && Disjoint(b, m, n)
    ensures Disjoint(a + b, at, n)
  {
    if a == [] {
      assert a + b == b;
      DisjointWiden(b, at, m, n, n);
    } else {
      assert (a + b)[1..] == a[1..] + b;
      DisjointJoin(a[1..], b, a[0].1, m, n);
    }
  }

  lemma {:induction false} DisjointWiden(a: seq<Span>, at: nat, m: nat, k: nat, n: nat)
    requires Disjoint(a, m, k) && at <= m && k <= n
    ensures Disjoint(a, at, n)
  {
    DisjointFits(a, m, k);
    if a != [] {
      DisjointWiden(a[1..], a[0].1, a[0].1, k, n);
    }
  }

  lemma DisjointOne(begin: nat, end: nat, at: nat, n: nat)
    requires at <= begin <= end <= n
    ensures Disjoint([(begin, end)], at, n)
  {
    assert [(begin, end)][1..] == [];
  }

  /** Fields that do not nest give spans that follow each other without overlapping. */
  lemma {:induction false} FlatDisjoint(n: Node, inEntry: bool, at: nat)
    requires Flat(n, inEntry)
    ensures Disjoint(FieldSpans(n, inEntry, at), at, at + |Text(n)|)
    decreases n, 1
  {
    match n
    case Raw(_) =>
    case Element(t, children, endTrail) =>
      if !t.closed {
        var inner := at + |TagText(t)|;
        var ends := inner + |Texts(children)|;
        AllFlatDisjoint(children, t.local == CheatEntry, inner);
        var within := AllFieldSpans(children, t.local == CheatEntry, inner);
        NoFieldsNoSpans(children, t.local == CheatEntry, inner);
        if IsOwnField(n, inEntry) {
          assert FieldSpans(n, inEntry, at) == [(inner, ends)];
          DisjointOne(inner, ends, at, at + |Text(n)|);
        } else {
          assert FieldSpans(n, inEntry, at) == within;
          DisjointWiden(within, at, inner, ends, at + |Text(n)|);
        }
      }
  }

  lemma {:induction false} AllFlatDisjoint(ns: seq<Node>, inEntry: bool, at: nat)
    requires AllFlat(ns, inEntry)
    ensures Disjoint(AllFieldSpans(ns, inEntry, at), at, at + |Texts(ns)|)
    decreases ns, 0
  {
    if ns != [] {
      var next := at + |Text(ns[0])|;
      FlatDisjoint(ns[0], inEntry, at);
      AllFlatDisjoint(ns[1..], inEntry, next);
      DisjointJoin(FieldSpans(ns[0], inEntry, at), AllFieldSpans(ns[1..], inEntry, next), at, next, at + |Texts(ns)|);
    }
  }

  /** One span inside another. */
  predicate Nested(spans: seq<Span>, i: int, j: int) {
    0 <= i < |spans| && 0 <= j < |spans| && i != j && spans[j].0 <= spans[i].0 < spans[i].1 <= spans[j].1
  }

  /** Field spans lie inside the text they come from and are not empty. */
  lemma {:induction false} SpansWithin(n: Node, inEntry: bool, at: nat)
    ensures forall s :: s in FieldSpans(n, inEntry, at) ==> at < s.0 < s.1 < at + |Text(n)|
    decreases n, 1
  {
    match n
    case Raw(_) =>
    case Element(t, children, _) =>
      if !t.closed {
        AllSpansWithin(children, t.local == CheatEntry, at + |TagText(t)|);
      }
  }

  lemma {:induction false} AllSpansWithin(ns: seq<Node>, inEntry: bool, at: nat)
    ensures forall s :: s in AllFieldSpans(ns, inEntry, at) ==> at < s.0 < s.1 < at + |Texts(ns)|
    decreases ns, 0
  {
    if ns != [] {
      SpansWithin(ns[0], inEntry, at);
      AllSpansWithin(ns[1..], inEntry, at + |Text(ns[0])|);
    }
  }

  lemma {:induction false} NestedFieldsOverlap(n: Node, inEntry: bool, at: nat) returns (i: int, j: int)
    requires !Flat(n, inEntry)
    ensures Nested(FieldSpans(n, inEntry, at), i, j)
    decreases n, 1
  {
    var Element(t, children, endTrail) := n;
    var inner := at + |TagText(t)|;
    var within := AllFieldSpans(children, t.local == CheatEntry, inner);
    if AllFlat(children, t.local == CheatEntry) {
      NoFieldsNoSpans(children, t.local == CheatEntry, inner);
      AllSpansWithin(children, t.local == CheatEntry, inner);
      assert within[0] in within;
      i, j := 0, |within|;
    } else {
      i, j := AllNestedFieldsOverlap(children, t.local == CheatEntry, inner);
    }
  }

  /** No two spans meet: something stands between each and the next. */
  predicate Apart(spans: seq<Span>) {
    forall i, j :: 0 <= i < j < |spans| ==> spans[i].1 < spans[j].0
  }

  lemma ApartRest(spans: seq<Span>)
    requires Apart(spans) && spans != []
    ensures Apart(spans[1..]) && (|spans| > 1 ==> spans[0].1 < spans[1..][0].0)
  {
  }

  lemma ApartJoin(a: seq<Span>, b: seq<Span>, m: nat)
    requires Apart(a) && Apart(b)
    requires (forall s :: s in a ==> s.1 < m) && forall s :: s in b ==> m < s.0
    ensures Apart(a + b)
  {
    forall i, j | 0 <= i < j < |a + b|
      ensures (a + b)[i].1 < (a + b)[j].0
    {
      if i < |a| <= j { assert a[i] in a && b[j - |a|] in b; }
    }
  }

  lemma {:induction false} FlatApart(n: Node, inEntry: bool, at: nat)
    requires Flat(n, inEntry)
    ensures Apart(FieldSpans(n, inEntry, at))
    decreases n, 1
  {
    match n
    case Raw(_) =>
    case Element(t, children, endTrail) =>
      if !t.closed {
        AllFlatApart(children, t.local == CheatEntry, at + |TagText(t)|);
        NoFieldsNoSpans(children, t.local == CheatEntry, at + |TagText(t)|);
        OpenShape(n, inEntry, at);
      }
  }

  /** Fields that do not nest have a tag between them at least. */
  lemma {:induction false} AllFlatApart(ns: seq<Node>, inEntry: bool, at: nat)
    requires AllFlat(ns, inEntry)
    ensures Apart(AllFieldSpans(ns, inEntry, at))
    decreases ns, 0
  {
    if ns != [] {
      var next := at + |Text(ns[0])|;
      FlatApart(ns[0], inEntry, at);
      AllFlatApart(ns[1..], inEntry, next);
      SpansWithin(ns[0], inEntry, at);
      AllSpansWithin(ns[1..], inEntry, next);
      ApartJoin(FieldSpans(ns[0], inEntry, at), AllFieldSpans(ns[1..], inEntry, next), next);
    }
  }

  /** A field inside a field gives one span inside another. */
  lemma {:induction false} AllNestedFieldsOverlap(ns: seq<Node>, inEntry: bool, at: nat) returns (i: int, j: int)
    requires !AllFlat(ns, inEntry)
    ensures Nested(AllFieldSpans(ns, inEntry, at), i, j)
    decreases ns, 0
  {
    if Flat(ns[0], inEntry) {
      i, j := AllNestedFieldsOverlap(ns[1..], inEntry, at + |Text(ns[0])|);
      i, j := i + |FieldSpans(ns[0], inEntry, at)|, j + |FieldSpans(ns[0], inEntry, at)|;
    } else {
      i, j := NestedFieldsOverlap(ns[0], inEntry, at);
    }
  }

  lemma {:induction false} DisjointNotNested(spans: seq<Span>, at: nat, n: nat, i: int, j: int)
    requires Disjoint(spans, at, n)
    ensures !Nested(spans, i, j)
    ensures 0 <= j < |spans| ==> at <= spans[j].0
  {
    if spans != [] && 0 <= j < |spans| {
      if j > 0 && i > 0 {
        DisjointNotNested(spans[1..], spans[0].1, n, i - 1, j - 1);
      } else if j > 0 {
        DisjointNotNested(spans[1..], spans[0].1, n, i, j - 1);
      } else if 0 < i < |spans| {
        DisjointNotNested(spans[1..], spans[0].1, n, j, i - 1);
      }
    }
  }

  /** The spans the guard sums over are disjoint exactly when no field lies inside a field. */
  lemma FlatExactly(doc: Document)
    ensures AllFlat(doc, false) <==> Disjoint(AllFieldSpans(doc, false, 0), 0, |Texts(doc)|)
  {
    if AllFlat(doc, false) {
      AllFlatDisjoint(doc, false, 0);
    } else {
      var i, j := AllNestedFieldsOverlap(doc, false, 0);
      if Disjoint(AllFieldSpans(doc, false, 0), 0, |Texts(doc)|) {
        DisjointNotNested(AllFieldSpans(doc, false, 0), 0, |Texts(doc)|, i, j);
      }
    }
  }

  /** Sorting leaves disjoint spans as they are. */
  lemma {:induction false} SortedAlready(spans: seq<Span>, at: nat, n: nat)
    requires Disjoint(spans, at, n)
    requires forall s :: s in spans ==> s.0 < s.1
    ensures Sorted(spans) == spans
  {
    if spans != [] {
      assert spans[0] in spans;
      SortedAlready(spans[1..], spans[0].1, n);
      assert spans == [spans[0]] + spans[1..];
    }
  }

  /** Every span of a document has `>` before it and `<` after it. */
  predicate Angled(blob: seq<Byte>, s: Span) {
    0 < s.0 <= s.1 < |blob| && blob[s.0 - 1] == GT && blob[s.1] == LT
  }

  lemma {:induction false} SpansAngled(blob: seq<Byte>, n: Node, inEntry: bool, at: nat)
    requires WellFormed(n) && StandsAt(blob, at, Text(n))
    ensures forall s :: s in FieldSpans(n, inEntry, at) ==> Angled(blob, s)
    decreases n, 1
  {
    match n
    case Raw(_) =>
    case Element(t, children, endTrail) =>
      if !t.closed {
        var inner := at + |TagText(t)|;
        StandsApart(blob, at, TagText(t) + Texts(children), EndText(t, endTrail));
        StandsApart(blob, at, TagText(t), Texts(children));
        assert blob[inner - 1] == TagText(t)[|TagText(t)| - 1] == GT;
        assert blob[inner + |Texts(children)|] == EndText(t, endTrail)[0] == LT;
        AllSpansAngled(blob, children, t.local == CheatEntry, inner);
      }
  }

  lemma {:induction false} AllSpansAngled(blob: seq<Byte>, ns: seq<Node>, inEntry: bool, at: nat)
    requires AllWellFormed(ns) && StandsAt(blob, at, Texts(ns))
    ensures forall s :: s in AllFieldSpans(ns, inEntry, at) ==> Angled(blob, s)
    decreases ns, 0
  {
    if ns != [] {
      StandsApart(blob, at, Text(ns[0]), Texts(ns[1..]));
      SpansAngled(blob, ns[0], inEntry, at);
      AllSpansAngled(blob, ns[1..], inEntry, at + |Text(ns[0])|);
    }
  }
}
