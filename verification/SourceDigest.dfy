/**
 The frontend source digest, computed by a Python program and by the bundler's JavaScript
 configuration over the same files. Both feed a hash the same framing; each sorts the files by its
 own order. The hash itself is a parameter.
 */
module SourceDigest {
  import opened Sequences
  import opened SourcePaths
  import opened Utf8
  import opened Wrappers

  // ---------------------------------------------------------------- the framing

  /** `n` in `k` bytes, most significant first. */
  function BigEndian(n: nat, k: nat): (r: seq<Byte>)
    ensures |r| == k
  {
    if k == 0 then [] else BigEndian(n / 256, k - 1) + [n % 256]
  }

  function FromBigEndian(b: seq<Byte>): nat {
    if b == [] then 0 else FromBigEndian(b[..|b| - 1]) * 256 + b[|b| - 1]
  }

  function Power256(k: nat): nat {
    if k == 0 then 1 else 256 * Power256(k - 1)
  }

  lemma {:induction false} BigEndianBack(n: nat, k: nat)
    requires n < Power256(k)
    ensures FromBigEndian(BigEndian(n, k)) == n
  {
    if k > 0 {
      BigEndianBack(n / 256, k - 1);
      assert BigEndian(n, k)[..k - 1] == BigEndian(n / 256, k - 1);
    }
  }

  /** What is hashed of one file: two lengths, each before what it measures. */
  function Frame(f: File): seq<Byte>
    requires f.path != []
  {
    var name := Encode(Name(f.path));
    BigEndian(|name|, 4) + (name + (BigEndian(|f.data|, 8) + f.data))
  }

  /** The lengths fit the bytes set aside for them; beyond that both programs raise. */
  predicate Fits(f: File)
    requires f.path != []
  {
    |Encode(Name(f.path))| < Power256(4) && |f.data| < Power256(8)
  }

  predicate AllFit(files: seq<File>) {
    forall f :: f in files ==> f.path != [] && Fits(f)
  }

  function Stream(files: seq<File>): seq<Byte>
    requires Named(files)
  {
    if files == [] then [] else Frame(files[0]) + Stream(files[1..])
  }

  /** A reader of the stream: names and contents, or nothing where the framing does not add up. */
  function Decode(stream: seq<Byte>): Option<seq<(seq<Byte>, seq<Byte>)>> {
    if stream == [] then Some([])
    else if |stream| < 4 then None
    else
      var n, rest := FromBigEndian(stream[..4]), stream[4..];
      if |rest| < n + 8 then None
      else
        var name, tail := rest[..n], rest[n..];
        var d, body := FromBigEndian(tail[..8]), tail[8..];
        if |body| < d then None
        else
          match Decode(body[d..])
          case None => None
          case Some(files) => Some([(name, body[..d])] + files)
  }

  function Contents(files: seq<File>): (r: seq<(seq<Byte>, seq<Byte>)>)
    requires Named(files)
    ensures |r| == |files|
    ensures forall i :: 0 <= i < |files| ==> r[i] == (Encode(Name(files[i].path)), files[i].data)
  {
    if files == [] then [] else [(Encode(Name(files[0].path)), files[0].data)] + Contents(files[1..])
  }

  lemma DecodeFrame(f: File, rest: seq<Byte>)
    requires f.path != [] && Fits(f)
    ensures var head := (Encode(Name(f.path)), f.data);
      Decode(Frame(f) + rest) == match Decode(rest) case None => None case Some(files) => Some([head] + files)
  {
    hide BigEndian, FromBigEndian, Encode, Name;
    var name := Encode(Name(f.path));
    var n, d := BigEndian(|name|, 4), BigEndian(|f.data|, 8);
    BigEndianBack(|name|, 4);
    BigEndianBack(|f.data|, 8);
    ConcatAssociates(n, name + (d + f.data), rest);
    ConcatAssociates(name, d + f.data, rest);
    ConcatAssociates(d, f.data, rest);
    TakeDrop(n, name + (d + (f.data + rest)));
    TakeDrop(name, d + (f.data + rest));
    TakeDrop(d, f.data + rest);
    TakeDrop(f.data, rest);
  }

  /** The reader gets back exactly the files that were fed. */
  lemma {:induction false} DecodeStream(files: seq<File>)
    requires AllFit(files)
    ensures Decode(Stream(files)) == Some(Contents(files))
  {
    if files != [] {
      DecodeFrame(files[0], Stream(files[1..]));
      DecodeStream(files[1..]);
    }
  }

  // ---------------------------------------------------------------- the digest

  /** The object a digest is fed into. */
  class Digest {
    var fed: seq<Byte>

    constructor ()
      ensures fed == []
    {
      fed := [];
    }

    method Update(data: seq<Byte>)
      modifies this
      ensures fed == old(fed) + data
    {
      fed := fed + data;
    }
  }

  datatype Error = LengthOverflow

  lemma {:induction false} StreamConcat(a: seq<File>, b: seq<File>)
    requires Named(a) && Named(b)
    ensures Named(a + b) && Stream(a + b) == Stream(a) + Stream(b)
  {
    if a == [] {
      assert a + b == b;
    } else {
      hide Frame;
      assert (a + b)[1..] == a[1..] + b;
      StreamConcat(a[1..], b);
      ConcatAssociates(Frame(a[0]), Stream(a[1..]), Stream(b));
    }
  }

  lemma StreamOne(f: File)
    requires f.path != []
    ensures Stream([f]) == Frame(f)
  {
    hide Frame;
    assert [f][1..] == [];
    assert Frame(f) + [] == Frame(f);
  }

  /** Feeds one file, unless one of its lengths does not fit. */
  method Feed(digest: Digest, f: File) returns (fits: bool)
    requires f.path != []
    modifies digest
    ensures fits <==> Fits(f)
    ensures fits ==> digest.fed == old(digest.fed) + Frame(f)
  {
    var name := Encode(Name(f.path));
    if |name| >= Power256(4) || |f.data| >= Power256(8) {
      return false;
    }
    hide BigEndian, Encode, Name;
    ghost var fed, n, d := digest.fed, BigEndian(|name|, 4), BigEndian(|f.data|, 8);
    digest.Update(BigEndian(|name|, 4));
    digest.Update(name);
    digest.Update(BigEndian(|f.data|, 8));
    digest.Update(f.data);
    ConcatAssociates(fed + n + name, d, f.data);
    ConcatAssociates(fed + n, name, d + f.data);
    ConcatAssociates(fed, n, name + (d + f.data));
    return true;
  }

  /** The loop of both programs: the control files, then the sources in the program's order. */
  method FrontendDigest(o: Order, control: seq<File>, sources: seq<File>, hash: seq<Byte> -> string)
    returns (r: Result<string, Error>)
    requires Named(control) && Named(sources)
    ensures r == if AllFit(control + sources) then Success(hash(Stream(control + Sort(o, sources))))
        else Failure(LengthOverflow)
  {
    hide Frame, Fits;
    var digest := new Digest();
    var files := control + Sort(o, sources);
    assert AllFit(files) <==> AllFit(control + sources) by {
      assert forall f :: f in files <==> f in control + sources;
    }
    for i := 0 to |files|
      invariant digest.fed == Stream(files[..i])
      invariant AllFit(files[..i])
    {
      assert files[i] in files;
      var fits := Feed(digest, files[i]);
      if !fits {
        return Failure(LengthOverflow);
      }
      assert files[..i + 1] == files[..i] + [files[i]];
      StreamConcat(files[..i], [files[i]]);
      StreamOne(files[i]);
    }
    assert files[..|files|] == files;
    r := Success(hash(digest.fed));
  }

  /** Equal streams come from equal listings. */
  lemma StreamInjective(a: seq<File>, b: seq<File>)
    requires AllFit(a) && AllFit(b)
    requires forall f :: f in a || f in b ==> ValidPath(f.path)
    requires Stream(a) == Stream(b)
    ensures a == b
  {
    DecodeStream(a);
    DecodeStream(b);
    assert Contents(a) == Contents(b);
    forall i | 0 <= i < |a|
      ensures a[i] == b[i]
    {
      assert Contents(a)[i] == Contents(b)[i];
      EncodeInjective(Name(a[i].path), Name(b[i].path));
      NameInjective(a[i].path, b[i].path);
    }
  }

  lemma SamePrefix(p: seq<File>, a: seq<File>, b: seq<File>)
    requires p + a == p + b
    ensures a == b
  {
    assert a == (p + a)[|p|..] && b == (p + b)[|p|..];
  }

  /**
   Given the same files in whatever order each program finds them, the two programs feed the hash
   the same bytes exactly when no two source paths clash.
   */
  lemma StreamsAgreeExactly(control: seq<File>, python: seq<File>, script: seq<File>)
    requires Listing(python) && Listing(script) && multiset(python) == multiset(script)
    requires AllFit(control) && AllFit(python) && forall f :: f in control ==> ValidPath(f.path)
    ensures Stream(control + Sort(Components, python)) == Stream(control + Sort(Bytes, script)) <==> NoClash(python)
  {
    SameMembers(python, script);
    var a, b := Sort(Components, python), Sort(Bytes, script);
    SortSorts(Components, python);
    SortSorts(Bytes, script);
    SortedBothExactly(a);
    assert NoClash(a) <==> NoClash(python);
    if NoClash(python) {
      SortedUnique(Bytes, a, b);
    }
    if Stream(control + a) == Stream(control + b) {
      StreamInjective(control + a, control + b);
      SamePrefix(control, a, b);
    }
  }

  /**
   A file in a directory beside one whose name goes on from the directory's with a character below `/`:
   two source files, and whatever they and the control files hold, the two programs hash different bytes.
   */
  lemma DirectoryBesideFile(control: seq<File>, inner: seq<Byte>, beside: seq<Byte>)
    requires AllFit(control) && forall f :: f in control ==> ValidPath(f.path)
    requires |inner| < Power256(8) && |beside| < Power256(8)
    ensures var files := [File(["src", "a", "x.ts"], inner), File(["src", "a-b.ts"], beside)];
      Stream(control + Sort(Components, files)) != Stream(control + Sort(Bytes, files))
  {
    var p, q := ["src", "a", "x.ts"], ["src", "a-b.ts"];
    NestedNames();
    SiblingNames();
    PathsClash();
    hide Encode, Name, Clash, Power256, Stream, Sort, ValidPath;
    ClashingDiffer(control, File(p, inner), File(q, beside));
  }

  lemma PathsClash()
    ensures Clash(["src", "a", "x.ts"], ["src", "a-b.ts"])
  {
    var p, q := ["a", "x.ts"], ["a-b.ts"];
    assert "a-b.ts"[1] == '-' && "a-b.ts"[..1] == "a";
    assert Clash(p, q);
    assert ["src", "a", "x.ts"][1..] == p && ["src", "a-b.ts"][1..] == q;
  }

  lemma ClashingDiffer(control: seq<File>, f: File, g: File)
    requires AllFit(control) && forall c :: c in control ==> ValidPath(c.path)
    requires ValidPath(f.path) && ValidPath(g.path) && Fits(f) && Fits(g) && f.path != g.path && Clash(f.path, g.path)
    ensures Named([f, g]) && Stream(control + Sort(Components, [f, g])) != Stream(control + Sort(Bytes, [f, g]))
  {
    var files := [f, g];
    TwoFit(f, g);
    hide Fits, AllFit, Clash, Stream, Sort, ValidPath, Name;
    assert f in files && g in files && !NoClash(files);
    StreamsAgreeExactly(control, files, files);
  }

  lemma TwoFit(f: File, g: File)
    requires f.path != [] && g.path != [] && Fits(f) && Fits(g)
    ensures AllFit([f, g])
  {
    hide Fits;
  }

  lemma NestedNames()
    ensures ValidPath(["src", "a", "x.ts"]) && |Encode(Name(["src", "a", "x.ts"]))| < Power256(4)
  {
    assert ["src", "a", "x.ts"][1..] == ["a", "x.ts"] && ["a", "x.ts"][1..] == ["x.ts"];
    hide Encode;
    EncodeLength(Name(["src", "a", "x.ts"]));
  }

  lemma SiblingNames()
    ensures ValidPath(["src", "a-b.ts"]) && |Encode(Name(["src", "a-b.ts"]))| < Power256(4)
  {
    assert ["src", "a-b.ts"][1..] == ["a-b.ts"];
    hide Encode;
    EncodeLength(Name(["src", "a-b.ts"]));
  }
}
