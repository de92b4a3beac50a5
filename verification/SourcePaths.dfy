/**
 The order in which a Python program and the bundler's JavaScript configuration list the same source
 files. Python compares paths component by component; the bundler compares the UTF-8 bytes of the
 joined paths.
 */
module SourcePaths {
  import opened Sequences
  import opened Utf8

  /** A path below the repository root, by components. */
  type Path = seq<string>

  datatype File = File(path: Path, data: seq<Byte>)

  predicate Named(files: seq<File>) {
    forall f :: f in files ==> f.path != []
  }

  predicate ValidPath(p: Path) {
    p != [] && forall c :: c in p ==> c != "" && '/' !in c
  }

  /** The path as one text, with `/` between components. */
  function Name(p: Path): (r: string)
    requires p != []
  {
    if |p| == 1 then p[0] else p[0] + "/" + Name(p[1..])
  }

  // ---------------------------------------------------------------- the two orders

  /** Python compares paths component by component, each by code points. */
  predicate ByComponents(p: Path, q: Path) {
    if q == [] then false
    else if p == [] then true
    else LexLess(Codes(p[0]), Codes(q[0])) || (p[0] == q[0] && ByComponents(p[1..], q[1..]))
  }

  /** The bundler compares the UTF-8 bytes of the joined paths. */
  predicate ByBytes(p: Path, q: Path)
    requires p != [] && q != []
  {
    LexLess(Encode(Name(p)), Encode(Name(q)))
  }

  /**
   At the first component on which the two paths differ, `p` has a directory whose name is the
   beginning of `q`'s name there, and `q`'s name goes on with a character that sorts before `/`.
   */
  predicate Clash(p: Path, q: Path) {
    p != [] && q != [] &&
    if p[0] == q[0] then Clash(p[1..], q[1..])
    else |p| > 1 && p[0] < q[0] && q[0][|p[0]|] < '/'
  }

  /** The first place two texts differ, or that one of them ends. */
  lemma {:induction false} FirstDifference(a: string, b: string) returns (k: nat)
    ensures k <= |a| && k <= |b| && a[..k] == b[..k]
    ensures k < |a| && k < |b| ==> a[k] != b[k]
  {
    if a == [] || b == [] || a[0] != b[0] {
      k := 0;
    } else {
      var j := FirstDifference(a[1..], b[1..]);
      k := j + 1;
      assert a[..k] == [a[0]] + a[1..][..j] && b[..k] == [b[0]] + b[1..][..j];
    }
  }

  /** The order of two texts that differ at `k` is the order of the characters there. */
  lemma OrderAt(a: string, b: string, k: nat)
    requires k < |a| && k < |b| && a[..k] == b[..k] && a[k] != b[k]
    ensures LexLess(Codes(a), Codes(b)) <==> a[k] < b[k]
  {
    CodesAt(a, k);
    CodesAt(b, k);
    assert a == a[..k] + a[k..] && b == b[..k] + b[k..];
    CodesConcat(a[..k], a[k..]);
    CodesConcat(b[..k], b[k..]);
    assert Codes(a)[..k] == Codes(a[..k]) && Codes(b)[..k] == Codes(b[..k]);
    LexLessAt(Codes(a), Codes(b), k);
  }

  /** A text comes before every longer text it begins, and not the other way round. */
  lemma OrderPrefix(a: string, b: string)
    requires a < b
    ensures LexLess(Codes(a), Codes(b)) && !LexLess(Codes(b), Codes(a))
  {
    assert b == a + b[|a|..];
    CodesConcat(a, b[|a|..]);
    assert Codes(a) == Codes(a) + [];
    LexLessCommon(Codes(a), [], Codes(b[|a|..]));
    LexLessCommon(Codes(a), Codes(b[|a|..]), []);
  }

  /** Python sorts absolute paths; what the common root is makes no difference to the order. */
  lemma {:induction false} CommonRoot(root: Path, p: Path, q: Path)
    ensures ByComponents(root + p, root + q) <==> ByComponents(p, q)
  {
    if root == [] {
      assert root + p == p && root + q == q;
    } else {
      LexLessIrreflexive(Codes(root[0]));
      assert (root + p)[1..] == root[1..] + p && (root + q)[1..] == root[1..] + q;
      CommonRoot(root[1..], p, q);
    }
  }

  /** A common first component decides neither order. */
  lemma CommonComponent(p: Path, q: Path)
    requires |p| > 1 && |q| > 1 && p[0] == q[0]
    ensures ByBytes(p, q) <==> ByBytes(p[1..], q[1..])
  {
    EncodeConcat(p[0] + "/", Name(p[1..]));
    EncodeConcat(q[0] + "/", Name(q[1..]));
    LexLessCommon(Encode(p[0] + "/"), Encode(Name(p[1..])), Encode(Name(q[1..])));
  }

  /** What a path's text holds right after its first component. */
  lemma NameHead(p: Path)
    requires p != []
    ensures p[0] <= Name(p)
    ensures |p| == 1 ==> Name(p) == p[0]
    ensures |p| > 1 ==> |Name(p)| > |p[0]| && Name(p)[|p[0]|] == '/'
  {
  }

  lemma ValidRest(p: Path)
    requires ValidPath(p) && |p| > 1
    ensures ValidPath(p[1..])
  {
    forall c | c in p[1..]
      ensures c in p
    {
    }
  }

  /** Paths that differ in their first component. */
  lemma FirstComponent(p: Path, q: Path)
    requires ValidPath(p) && ValidPath(q) && p[0] != q[0]
    ensures (ByComponents(p, q) <==> ByBytes(p, q)) <==> !(Clash(p, q) || Clash(q, p))
  {
    hide LexLess, Codes, Encode, Name;
    var a, b := p[0], q[0];
    var k := FirstDifference(a, b);
    if k < |a| && k < |b| {
      NameHead(p);
      NameHead(q);
      OrderAt(a, b, k);
      assert Name(p)[..|a|] == a && Name(q)[..|b|] == b;
      assert Name(p)[..k] == a[..k] && Name(q)[..k] == b[..k];
      EncodeOrder(Name(p), Name(q));
      OrderAt(Name(p), Name(q), k);
    } else if k == |a| {
      assert a < b;
      OneBegins(p, q);
    } else {
      assert b < a;
      OneBegins(q, p);
    }
  }

  lemma OneBegins(p: Path, q: Path)
    requires ValidPath(p) && ValidPath(q) && p[0] < q[0]
    ensures ByComponents(p, q) && !ByComponents(q, p)
    ensures ByBytes(p, q) <==> !Clash(p, q)
    ensures ByBytes(q, p) <==> Clash(p, q)
    ensures !Clash(q, p)
  {
    hide LexLess, Codes, Encode, Name;
    var k := |p[0]|;
    assert q[0] in q;
    OrderPrefix(p[0], q[0]);
    NameHead(p);
    NameHead(q);
    EncodeOrder(Name(p), Name(q));
    EncodeOrder(Name(q), Name(p));
    assert Name(q)[..k] == q[0][..k] == p[0] == Name(p)[..k];
    assert Name(q)[k] == q[0][k];
    if |p| == 1 {
      assert Name(p) < Name(q);
      OrderPrefix(Name(p), Name(q));
    } else {
      OrderAt(Name(p), Name(q), k);
      OrderAt(Name(q), Name(p), k);
    }
  }

  /** The two programs put two paths in the same order exactly when the paths do not clash. */
  lemma {:induction false} OrdersAgreeExactly(p: Path, q: Path)
    requires ValidPath(p) && ValidPath(q)
    ensures (ByComponents(p, q) <==> ByBytes(p, q)) <==> !(Clash(p, q) || Clash(q, p))
  {
    if p[0] != q[0] {
      FirstComponent(p, q);
    } else {
      LexLessIrreflexive(Codes(p[0]));
      if |p| > 1 && |q| > 1 {
        CommonComponent(p, q);
        ValidRest(p);
        ValidRest(q);
        OrdersAgreeExactly(p[1..], q[1..]);
      } else {
        NameHead(p);
        NameHead(q);
        EncodeOrder(Name(p), Name(q));
        assert p[1..] == [] || q[1..] == [];
        if |p| == 1 && |q| > 1 {
          OrderPrefix(Name(p), Name(q));
        } else if |p| > 1 {
          OrderPrefix(Name(q), Name(p));
        } else {
          LexLessIrreflexive(Codes(Name(p)));
        }
      }
    }
  }

  // ---------------------------------------------------------------- sorting the files

  datatype Order = Components | Bytes

  predicate Less(o: Order, p: Path, q: Path)
    requires p != [] && q != []
  {
    match o
    case Components => ByComponents(p, q)
    case Bytes => ByBytes(p, q)
  }

  lemma {:induction false} ComponentsTotal(p: Path, q: Path)
    ensures p == q || ByComponents(p, q) || ByComponents(q, p)
  {
    if p != [] && q != [] {
      LexLessTotal(Codes(p[0]), Codes(q[0]));
      if Codes(p[0]) == Codes(q[0]) {
        CodesInjective(p[0], q[0]);
        ComponentsTotal(p[1..], q[1..]);
        assert p == [p[0]] + p[1..] && q == [q[0]] + q[1..];
      }
    }
  }

  lemma {:induction false} ComponentsTransitive(p: Path, q: Path, r: Path)
    requires ByComponents(p, q) && ByComponents(q, r)
    ensures ByComponents(p, r)
  {
    if p != [] {
      if p[0] == q[0] && q[0] == r[0] {
        if LexLess(Codes(p[0]), Codes(p[0])) { LexLessIrreflexive(Codes(p[0])); }
        ComponentsTransitive(p[1..], q[1..], r[1..]);
      } else if LexLess(Codes(p[0]), Codes(q[0])) && LexLess(Codes(q[0]), Codes(r[0])) {
        LexLessTransitive(Codes(p[0]), Codes(q[0]), Codes(r[0]));
      }
    }
  }

  lemma {:induction false} ComponentsIrreflexive(p: Path)
    ensures !ByComponents(p, p)
  {
    if p != [] {
      LexLessIrreflexive(Codes(p[0]));
      ComponentsIrreflexive(p[1..]);
    }
  }

  /** Different paths have different texts. */
  lemma NameInjective(p: Path, q: Path)
    requires ValidPath(p) && ValidPath(q) && Name(p) == Name(q)
    ensures p == q
  {
    OrdersAgreeExactly(p, q);
    OrdersAgreeExactly(q, p);
    ComponentsTotal(p, q);
    LexLessIrreflexive(Encode(Name(p)));
    if ByComponents(p, q) && ByComponents(q, p) {
      ComponentsTransitive(p, q, p);
      ComponentsIrreflexive(p);
    }
  }

  lemma LessTotal(o: Order, p: Path, q: Path)
    requires ValidPath(p) && ValidPath(q)
    ensures p == q || Less(o, p, q) || Less(o, q, p)
  {
    match o
    case Components => ComponentsTotal(p, q);
    case Bytes =>
      LexLessTotal(Encode(Name(p)), Encode(Name(q)));
      if Encode(Name(p)) == Encode(Name(q)) {
        EncodeInjective(Name(p), Name(q));
        NameInjective(p, q);
      }
  }

  lemma LessTransitive(o: Order, p: Path, q: Path, r: Path)
    requires p != [] && q != [] && r != []
    requires Less(o, p, q) && Less(o, q, r)
    ensures Less(o, p, r)
  {
    match o
    case Components => ComponentsTransitive(p, q, r);
    case Bytes => LexLessTransitive(Encode(Name(p)), Encode(Name(q)), Encode(Name(r)));
  }

  lemma LessIrreflexive(o: Order, p: Path)
    requires p != []
    ensures !Less(o, p, p)
  {
    match o
    case Components => ComponentsIrreflexive(p);
    case Bytes => LexLessIrreflexive(Encode(Name(p)));
  }

  /** A listing of files: every path valid, and no path twice. */
  predicate Listing(files: seq<File>) {
    && (forall f :: f in files ==> ValidPath(f.path))
    && forall i, j :: 0 <= i < j < |files| ==> files[i].path != files[j].path
  }

  predicate SortedBy(o: Order, files: seq<File>)
    requires Named(files)
  {
    forall i, j :: 0 <= i < j < |files| ==> Less(o, files[i].path, files[j].path)
  }

  function Insert(o: Order, f: File, files: seq<File>): (r: seq<File>)
    requires f.path != [] && Named(files)
    ensures multiset(r) == multiset(files) + multiset{f}
    ensures forall g :: g in r <==> g == f || g in files
    ensures Named(r)
  {
    if files == [] then [f]
    else if Less(o, f.path, files[0].path) then [f] + files
    else
      assert files == [files[0]] + files[1..];
      [files[0]] + Insert(o, f, files[1..])
  }

  function Sort(o: Order, files: seq<File>): (r: seq<File>)
    requires Named(files)
    ensures multiset(r) == multiset(files)
    ensures forall f :: f in r <==> f in files
    ensures Named(r)
  {
    if files == [] then []
    else
      assert files == [files[0]] + files[1..];
      Insert(o, files[0], Sort(o, files[1..]))
  }

  lemma {:induction false} InsertSorts(o: Order, f: File, files: seq<File>)
    requires ValidPath(f.path) && Named(files)
    requires forall g :: g in files ==> ValidPath(g.path) && g.path != f.path
    requires SortedBy(o, files)
    ensures SortedBy(o, Insert(o, f, files))
  {
    hide ByBytes, ByComponents;
    if files != [] {
      var g := files[0];
      assert g in files;
      LessTotal(o, f.path, g.path);
      if Less(o, f.path, g.path) {
        forall h | h in files
          ensures Less(o, f.path, h.path)
        {
          if h != g { LessTransitive(o, f.path, g.path, h.path); }
        }
      } else {
        InsertSorts(o, f, files[1..]);
        var rest := Insert(o, f, files[1..]);
        assert forall h :: h in rest ==> Less(o, g.path, h.path);
      }
    }
  }

  lemma {:induction false} SortSorts(o: Order, files: seq<File>)
    requires Listing(files)
    ensures SortedBy(o, Sort(o, files))
  {
    if files != [] {
      SortSorts(o, files[1..]);
      InsertSorts(o, files[0], Sort(o, files[1..]));
    }
  }

  /** A set of files has one sorted listing. */
  lemma {:induction false} SortedUnique(o: Order, a: seq<File>, b: seq<File>)
    requires Named(a) && Named(b)
    requires multiset(a) == multiset(b)
    requires SortedBy(o, a) && SortedBy(o, b)
    ensures a == b
  {
    SameMembers(a, b);
    if a == [] {
      assert |multiset(b)| == 0;
    } else {
      assert |multiset(b)| == |a|;
      SameFirst(o, a, b);
      MembersAfter(a);
      MembersAfter(b);
      assert a == [a[0]] + a[1..] && b == [b[0]] + b[1..];
      SortedUnique(o, a[1..], b[1..]);
    }
  }

  lemma MembersAfter(a: seq<File>)
    requires a != []
    ensures multiset(a[1..]) == multiset(a) - multiset{a[0]}
  {
    assert a == [a[0]] + a[1..];
  }

  lemma SameFirst(o: Order, a: seq<File>, b: seq<File>)
    requires Named(a) && Named(b) && a != [] && b != []
    requires SortedBy(o, a) && SortedBy(o, b)
    requires a[0] in b && b[0] in a
    ensures a[0] == b[0]
  {
    if a[0] != b[0] {
      LessTransitive(o, a[0].path, b[0].path, a[0].path);
      LessIrreflexive(o, a[0].path);
    }
  }

  lemma SameMembers(a: seq<File>, b: seq<File>)
    requires multiset(a) == multiset(b)
    ensures forall f :: f in a <==> f in b
  {
    forall f
      ensures f in a <==> f in b
    {
      assert f in multiset(a) <==> f in multiset(b);
    }
  }

  /** No two of the files clash. */
  predicate NoClash(files: seq<File>) {
    forall f, g :: f in files && g in files ==> !Clash(f.path, g.path)
  }

  /** A listing in Python's order is in the bundler's order exactly when no two of its paths clash. */
  lemma SortedBothExactly(files: seq<File>)
    requires Named(files) && forall f :: f in files ==> ValidPath(f.path)
    requires SortedBy(Components, files)
    ensures SortedBy(Bytes, files) <==> NoClash(files)
  {
    if NoClash(files) {
      forall i, j | 0 <= i < j < |files|
        ensures Less(Bytes, files[i].path, files[j].path)
      {
        assert files[i] in files && files[j] in files;
        assert Less(Components, files[i].path, files[j].path);
        OrdersAgreeExactly(files[i].path, files[j].path);
      }
    } else {
      var f, g :| f in files && g in files && Clash(f.path, g.path);
      ClashUnsorts(files, f, g);
    }
  }

  lemma ClashUnsorts(files: seq<File>, f: File, g: File)
    requires Named(files) && SortedBy(Components, files)
    requires f in files && g in files && ValidPath(f.path) && ValidPath(g.path)
    requires Clash(f.path, g.path)
    ensures !SortedBy(Bytes, files)
  {
    var i :| 0 <= i < |files| && files[i] == f;
    var j :| 0 <= j < |files| && files[j] == g;
    OrdersAgreeExactly(f.path, g.path);
    OrdersAgreeExactly(g.path, f.path);
    NeverItself(f.path);
    if i < j {
      assert Less(Components, files[i].path, files[j].path) && !Less(Bytes, files[i].path, files[j].path);
    } else {
      assert Less(Components, files[j].path, files[i].path) && !Less(Bytes, files[j].path, files[i].path);
    }
  }

  lemma {:induction false} NeverItself(p: Path)
    ensures !Clash(p, p)
  {
    if p != [] {
      NeverItself(p[1..]);
    }
  }
}
