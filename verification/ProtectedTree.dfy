/**
 What the repair tool compares before it publishes a derivation: the tree of elements with the text of
 every script and address left out. Comments, processing instructions and how a tag is spaced are no
 part of the tree.
 */
module ProtectedTree {
  import opened TableSpans
  import opened Utf8

  /** How the XML reader takes a name with its attributes, and the character data in a raw stretch. */
  datatype Reading = Reading(tag: (seq<Byte>, seq<Attribute>) -> string, chars: seq<Byte> -> string)

  datatype Tree = Tree(tag: string, text: string, children: seq<Tree>, tail: string)

  /** The character data before the first element. */
  function Leading(ns: seq<Node>, r: Reading): string {
    if ns == [] || ns[0].Element? then "" else r.chars(ns[0].bytes) + Leading(ns[1..], r)
  }

  /** The elements, each without its text if it is a field directly in a record. */
  function Trees(ns: seq<Node>, inEntry: bool, r: Reading): seq<Tree> {
    if ns == [] then []
    else
      match ns[0]
      case Raw(_) => Trees(ns[1..], inEntry, r)
      case Element(t, children, _) =>
        var text := if inEntry && IsField(t.local) then "" else Leading(children, r);
        [Tree(r.tag(t.name, t.attributes), text, Trees(children, t.local == CheatEntry, r), Leading(ns[1..], r))]
        + Trees(ns[1..], inEntry, r)
  }

  /** The protected content of a document; nothing outside its root is part of it. */
  function Protected(doc: Document, r: Reading): seq<Tree> {
    Untailed(Trees(doc, false, r))
  }

  function Untailed(trees: seq<Tree>): seq<Tree> {
    if trees == [] then [] else [trees[0].(tail := "")] + Untailed(trees[1..])
  }

  // ---------------------------------------------------------------- what two documents share, node by node

  /** Where the first element is, or how many nodes there are if there is none. */
  function NextElement(ns: seq<Node>): (i: nat)
    ensures i <= |ns| && (i < |ns| ==> ns[i].Element?)
    ensures forall k :: 0 <= k < i ==> ns[k].Raw?
  {
    if ns == [] || ns[0].Element? then 0 else 1 + NextElement(ns[1..])
  }

  /** The character data of some nodes that are no elements. */
  function Chars(ns: seq<Node>, r: Reading): string
    requires forall n :: n in ns ==> n.Raw?
  {
    if ns == [] then "" else r.chars(ns[0].bytes) + Chars(ns[1..], r)
  }

  /** The character data up to the next element. */
  function Data(ns: seq<Node>, r: Reading): string {
    Chars(ns[..NextElement(ns)], r)
  }

  /** The data right after an element's start tag, which the comparison passes over in a field directly in a record. */
  function OwnText(x: Node, inEntry: bool, r: Reading): string
    requires x.Element?
  {
    if inEntry && (x.tag.local == Address || x.tag.local == AssemblerScript) then "" else Data(x.children, r)
  }

  /** Two elements with the same name and attributes as read, the same own text and like content. */
  ghost predicate AlikeElement(x: Node, y: Node, xIn: bool, yIn: bool, r: Reading)
    requires x.Element? && y.Element?
    decreases x, 0
  {
    && r.tag(x.tag.name, x.tag.attributes) == r.tag(y.tag.name, y.tag.attributes)
    && OwnText(x, xIn, r) == OwnText(y, yIn, r)
    && Alike(x.children, y.children, x.tag.local == CheatEntry, y.tag.local == CheatEntry, r)
  }

  /** The same number of elements, like one by one, with the same data after each. */
  ghost predicate Alike(a: seq<Node>, b: seq<Node>, aIn: bool, bIn: bool, r: Reading)
    decreases a, 1
  {
    var i, j := NextElement(a), NextElement(b);
    if i == |a| || j == |b| then i == |a| && j == |b|
    else
      && AlikeElement(a[i], b[j], aIn, bIn, r)
      && Data(a[i + 1..], r) == Data(b[j + 1..], r)
      && Alike(a[i + 1..], b[j + 1..], aIn, bIn, r)
  }

  /** A document whose one element is the node at `i`. */
  ghost predicate RootAt(doc: Document, i: nat) {
    && i < |doc| && doc[i].Element?
    && forall k :: 0 <= k < |doc| && k != i ==> doc[k].Raw?
  }

  lemma {:induction false} LeadingIsData(ns: seq<Node>, r: Reading)
    ensures Leading(ns, r) == Data(ns, r)
  {
    if ns != [] && ns[0].Raw? {
      LeadingIsData(ns[1..], r);
      var i := NextElement(ns);
      assert ns[..i][1..] == ns[1..][..i - 1];
    }
  }

  function TreeOf(x: Node, inEntry: bool, tail: string, r: Reading): Tree
    requires x.Element?
  {
    Tree(r.tag(x.tag.name, x.tag.attributes), OwnText(x, inEntry, r),
         Trees(x.children, x.tag.local == CheatEntry, r), tail)
  }

  lemma {:induction false} TreesNext(ns: seq<Node>, inEntry: bool, r: Reading)
    ensures var i := NextElement(ns);
      Trees(ns, inEntry, r)
      == if i == |ns| then []
         else [TreeOf(ns[i], inEntry, Data(ns[i + 1..], r), r)] + Trees(ns[i + 1..], inEntry, r)
    decreases ns
  {
    hide Leading, Data, Chars;
    if ns != [] {
      if ns[0].Raw? {
        TreesNext(ns[1..], inEntry, r);
        var i := NextElement(ns);
        if i < |ns| {
          assert ns[1..][i - 1] == ns[i] && ns[1..][i..] == ns[i + 1..];
        }
      } else {
        LeadingIsData(ns[0].children, r);
        LeadingIsData(ns[1..], r);
      }
    }
  }

  lemma {:induction false} AlikeElementExactly(x: Node, y: Node, xIn: bool, yIn: bool, t: string, u: string, r: Reading)
    requires x.Element? && y.Element?
    ensures TreeOf(x, xIn, t, r) == TreeOf(y, yIn, u, r) <==> AlikeElement(x, y, xIn, yIn, r) && t == u
    decreases x, 0
  {
    hide Trees, OwnText;
    AlikeExactly(x.children, y.children, x.tag.local == CheatEntry, y.tag.local == CheatEntry, r);
  }

  lemma {:induction false} AlikeExactly(a: seq<Node>, b: seq<Node>, aIn: bool, bIn: bool, r: Reading)
    ensures Trees(a, aIn, r) == Trees(b, bIn, r) <==> Alike(a, b, aIn, bIn, r)
    decreases a, 1
  {
    hide Trees, TreeOf, OwnText, Data;
    var i, j := NextElement(a), NextElement(b);
    TreesNext(a, aIn, r);
    TreesNext(b, bIn, r);
    if i < |a| && j < |b| {
      var t, u := Data(a[i + 1..], r), Data(b[j + 1..], r);
      AlikeElementExactly(a[i], b[j], aIn, bIn, t, u, r);
      AlikeExactly(a[i + 1..], b[j + 1..], aIn, bIn, r);
      var here, there := TreeOf(a[i], aIn, t, r), TreeOf(b[j], bIn, u, r);
      var rest, others := Trees(a[i + 1..], aIn, r), Trees(b[j + 1..], bIn, r);
      assert ([here] + rest)[0] == here && ([there] + others)[0] == there;
      assert ([here] + rest)[1..] == rest && ([there] + others)[1..] == others;
    }
  }

  /**
   Two documents with one root each have the same protected content exactly when their roots are alike:
   element by element the same names and attributes as read, nesting and character data, but for the own
   text of fields directly in a record. What stands before and after a root is no part of it.
   */
  lemma ProtectedExactly(a: Document, b: Document, i: nat, j: nat, r: Reading)
    requires RootAt(a, i) && RootAt(b, j)
    ensures Protected(a, r) == Protected(b, r) <==> AlikeElement(a[i], b[j], false, false, r)
  {
    hide AlikeElement, TreeOf;
    RootTree(a, i, r);
    RootTree(b, j, r);
    AlikeElementExactly(a[i], b[j], false, false, "", "", r);
  }

  lemma OneUntailed(t: Tree)
    ensures Untailed([t]) == [t.(tail := "")]
  {
    assert [t][1..] == [];
  }

  lemma RootTree(doc: Document, i: nat, r: Reading)
    requires RootAt(doc, i)
    ensures Protected(doc, r) == [TreeOf(doc[i], false, "", r)]
  {
    hide Trees, OwnText, Data;
    TreesNext(doc, false, r);
    assert NextElement(doc) == i;
    TreesNext(doc[i + 1..], false, r);
    var t := TreeOf(doc[i], false, Data(doc[i + 1..], r), r);
    var after := doc[i + 1..];
    assert forall k :: 0 <= k < |after| ==> after[k] == doc[k + (i + 1)];
    assert Trees(after, false, r) == [];
    assert Trees(doc, false, r) == [t];
    OneUntailed(t);
    assert t.(tail := "") == TreeOf(doc[i], false, "", r);
  }
}
