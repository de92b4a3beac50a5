/**
 UTF-8 (RFC 3629 section 3) as a function from characters to bytes, with the two facts the
 repository's programs lean on: the encoding is self-synchronising, so searching bytes is
 searching characters, and byte order is code-point order.
 */
module Utf8 {
  import opened Sequences

  type Byte = b: int | 0 <= b < 256

  /** What is left of `n` when its last `more` groups of six bits are dropped. */
  function Top(n: nat, more: nat): nat {
    if more == 0 then n else Top(n / 64, more - 1)
  }

  /** The bytes that spell `n` after a lead of base `lead` and `more` continuation bytes. */
  function Spell(n: nat, lead: nat, more: nat): (r: seq<int>)
    ensures |r| == more + 1
    ensures r[0] == lead + Top(n, more)
    ensures forall i :: 1 <= i < |r| ==> 0x80 <= r[i] < 0xC0
  {
    if more == 0 then [lead + n] else Spell(n / 64, lead, more - 1) + [0x80 + n % 64]
  }

  /** How many continuation bytes a character takes. */
  function Continuations(c: char): (k: nat)
    ensures k <= 3
  {
    var n := c as int;
    if n < 0x80 then 0 else if n < 0x800 then 1 else if n < 0x10000 then 2 else 3
  }

  /** The value a lead byte starts from, for a character of that length. */
  function Lead(c: char): nat {
    [0x00, 0xC0, 0xE0, 0xF0][Continuations(c)]
  }

  lemma TopFits(c: char)
    ensures Continuations(c) == 1 ==> 0 <= Top(c as int, 1) < 0x20
    ensures Continuations(c) == 2 ==> 0 <= Top(c as int, 2) < 0x10
    ensures Continuations(c) == 3 ==> 0 <= Top(c as int, 3) < 0x05
  {
    var n := c as int;
    assert Top(n, 1) == Top(n / 64, 0);
    assert Top(n, 2) == Top(n / 64, 1) == Top(n / 64 / 64, 0);
    assert Top(n, 3) == Top(n / 64, 2) == Top(n / 64 / 64, 1) == Top(n / 64 / 64 / 64, 0);
  }

  /** The bytes of one character. A Dafny character is a Unicode scalar value. */
  function EncodeChar(c: char): (r: seq<Byte>)
    ensures |r| == Continuations(c) + 1
    ensures Continuations(c) == ContinuationsOf(r[0])
    ensures !IsContinuation(r[0])
    ensures forall i :: 1 <= i < |r| ==> IsContinuation(r[i])
  {
    TopFits(c);
    Spell(c as int, Lead(c), Continuations(c))
  }

  /** How many continuation bytes a lead byte announces. */
  function ContinuationsOf(b: Byte): nat {
    if b < 0x80 then 0 else if b < 0xE0 then 1 else if b < 0xF0 then 2 else 3
  }

  function Encode(s: string): (r: seq<Byte>)
    ensures s == [] <==> r == []
  {
    if s == [] then [] else EncodeChar(s[0]) + Encode(s[1..])
  }

  /** A character takes four bytes at most. */
  lemma {:induction false} EncodeLength(s: string)
    ensures |Encode(s)| <= 4 * |s|
  {
    if s != "" { EncodeLength(s[1..]); }
  }

  /** A byte that continues a character rather than starting one. */
  predicate IsContinuation(b: Byte) {
    0x80 <= b < 0xC0
  }

  /** Comparing two numbers is comparing all but the last six bits, then those. */
  lemma SixBits(m: nat, n: nat)
    requires m < n
    ensures m / 64 < n / 64 || (m / 64 == n / 64 && m % 64 < n % 64)
  {
  }

  /** The smaller number has the smaller byte at the first place the spellings differ. */
  lemma {:induction false} SpellOrder(m: nat, n: nat, lead: nat, more: nat) returns (k: nat)
    requires m < n
    ensures k <= more
    ensures Spell(m, lead, more)[..k] == Spell(n, lead, more)[..k]
    ensures Spell(m, lead, more)[k] < Spell(n, lead, more)[k]
  {
    if more == 0 {
      k := 0;
    } else {
      SixBits(m, n);
      if m / 64 < n / 64 {
        k := SpellOrder(m / 64, n / 64, lead, more - 1);
        assert Spell(m, lead, more)[..k] == Spell(m / 64, lead, more - 1)[..k];
        assert Spell(n, lead, more)[..k] == Spell(n / 64, lead, more - 1)[..k];
      } else {
        k := more;
        assert Spell(m, lead, more)[..k] == Spell(m / 64, lead, more - 1);
        assert Spell(n, lead, more)[..k] == Spell(n / 64, lead, more - 1);
      }
    }
  }

  /** Where the encodings of two characters first differ, the smaller character has the smaller byte. */
  lemma CharOrder(c: char, d: char) returns (k: nat)
    requires c < d
    ensures k < |EncodeChar(c)| && k < |EncodeChar(d)|
    ensures EncodeChar(c)[..k] == EncodeChar(d)[..k]
    ensures EncodeChar(c)[k] < EncodeChar(d)[k]
  {
    var x, y := EncodeChar(c), EncodeChar(d);
    if |x| < |y| {
      k := 0;
    } else {
      k := SpellOrder(c as int, d as int, Lead(c), Continuations(c));
    }
  }

  /** A character's encoding starts another text's encoding only if the character starts the text. */
  lemma CharPrefix(c: char, d: char, rest: seq<Byte>)
    requires EncodeChar(c) <= EncodeChar(d) + rest
    ensures c == d
  {
    var x, y := EncodeChar(c), EncodeChar(d);
    assert x[0] == (y + rest)[0] == y[0];
    assert x == (y + rest)[..|x|] == y;
    if c < d {
      var k := CharOrder(c, d);
    } else if d < c {
      var k := CharOrder(d, c);
    }
  }

  lemma {:induction false} EncodeConcat(a: string, b: string)
    ensures Encode(a + b) == Encode(a) + Encode(b)
  {
    if a == [] {
      assert a + b == b;
    } else {
      assert (a + b)[1..] == a[1..] + b;
      EncodeConcat(a[1..], b);
    }
  }

  lemma PrefixEncoded(p: string, s: string)
    requires p <= s
    ensures Encode(p) <= Encode(s)
  {
    assert s == p + s[|p|..];
    EncodeConcat(p, s[|p|..]);
  }

  lemma {:induction false} PrefixDecoded(p: string, s: string)
    requires Encode(p) <= Encode(s)
    ensures p <= s
  {
    if p != [] {
      assert s != [];
      var x, rest := EncodeChar(p[0]), Encode(p[1..]);
      assert x == Encode(p)[..|x|];
      assert x <= Encode(s);
      CharPrefix(p[0], s[0], Encode(s[1..]));
      assert rest == Encode(p)[|x|..] && Encode(s[1..]) == Encode(s)[|x|..];
      assert Encode(s)[|x|..][..|rest|] == Encode(s)[..|x| + |rest|][|x|..] == rest;
      PrefixDecoded(p[1..], s[1..]);
    }
  }

  /** One encoding starts another exactly when one text starts the other. */
  lemma EncodePrefix(p: string, s: string)
    ensures Encode(p) <= Encode(s) <==> p <= s
  {
    if p <= s {
      PrefixEncoded(p, s);
    } else if Encode(p) <= Encode(s) {
      PrefixDecoded(p, s);
    }
  }

  lemma EncodeInjective(a: string, b: string)
    requires Encode(a) == Encode(b)
    ensures a == b
  {
    EncodePrefix(a, b);
    EncodePrefix(b, a);
  }

  /** Byte order is code-point order: the order of two encodings is the order of the texts. */
  lemma {:induction false} EncodeOrder(a: string, b: string)
    ensures LexLess(Encode(a), Encode(b)) <==> LexLess(Codes(a), Codes(b))
  {
    hide EncodeChar;
    if a != [] && b != [] {
      var x, y := Encode(a[1..]), Encode(b[1..]);
      if a[0] == b[0] {
        LexLessCommon(EncodeChar(a[0]), x, y);
        EncodeOrder(a[1..], b[1..]);
      } else if a[0] < b[0] {
        var k := CharOrder(a[0], b[0]);
        assert Encode(a)[..k] == EncodeChar(a[0])[..k] && Encode(b)[..k] == EncodeChar(b[0])[..k];
        LexLessAt(Encode(a), Encode(b), k);
      } else {
        var k := CharOrder(b[0], a[0]);
        assert Encode(a)[..k] == EncodeChar(a[0])[..k] && Encode(b)[..k] == EncodeChar(b[0])[..k];
        LexLessAt(Encode(a), Encode(b), k);
      }
    }
  }

  /** The code points of a text, which is what Python compares strings by. */
  function Codes(s: string): (r: seq<int>)
    ensures |r| == |s|
  {
    if s == [] then [] else [s[0] as int] + Codes(s[1..])
  }

  lemma {:induction false} CodesConcat(a: string, b: string)
    ensures Codes(a + b) == Codes(a) + Codes(b)
  {
    if a == [] {
      assert a + b == b;
    } else {
      assert (a + b)[1..] == a[1..] + b;
      CodesConcat(a[1..], b);
    }
  }

  lemma {:induction false} CodesAt(s: string, i: nat)
    requires i < |s|
    ensures Codes(s)[i] == s[i] as int
  {
    if i > 0 {
      CodesAt(s[1..], i - 1);
    }
  }

  lemma {:induction false} CodesInjective(a: string, b: string)
    requires Codes(a) == Codes(b)
    ensures a == b
  {
    forall i | 0 <= i < |a|
      ensures a[i] == b[i]
    {
      CodesAt(a, i);
      CodesAt(b, i);
    }
  }

  /** A byte that does not continue a character starts one: the text splits there. */
  lemma {:induction false} Boundary(s: string, k: nat) returns (i: nat)
    requires k < |Encode(s)| && !IsContinuation(Encode(s)[k])
    ensures i < |s|
    ensures Encode(s)[k..] == Encode(s[i..])
    ensures k > 0 ==> i > 0
  {
    var x := EncodeChar(s[0]);
    if k == 0 {
      i := 0;
    } else {
      assert k >= |x|;
      assert Encode(s)[k..] == Encode(s[1..])[k - |x|..];
      var j := Boundary(s[1..], k - |x|);
      assert s[1..][j..] == s[j + 1..];
      i := j + 1;
    }
  }

  /** Counting and replacing the bytes of `pat` is counting and replacing `pat`. */
  lemma {:induction false} SearchInBytes(s: string, pat: string, sub: string)
    requires pat != []
    ensures Count(Encode(s), Encode(pat)) == Count(s, pat)
    ensures Replace(Encode(s), Encode(pat), Encode(sub)) == Encode(Replace(s, pat, sub))
    decreases |s|
  {
    EncodePrefix(pat, s);
    if s == [] {
    } else if pat <= s {
      assert s == pat + s[|pat|..];
      EncodeConcat(pat, s[|pat|..]);
      assert Encode(s)[|Encode(pat)|..] == Encode(s[|pat|..]);
      SearchInBytes(s[|pat|..], pat, sub);
      EncodeConcat(sub, Replace(s[|pat|..], pat, sub));
    } else {
      var x, y := EncodeChar(s[0]), Encode(s[1..]);
      forall i | 0 <= i < |x|
        ensures !(Encode(pat) <= (x + y)[i..])
      {
        assert (x + y)[0..] == Encode(s);
        assert (x + y)[i..][0] == x[i];
        assert Encode(pat)[0] == EncodeChar(pat[0])[0];
      }
      SkipStretch(x, y, Encode(pat), Encode(sub));
      SearchInBytes(s[1..], pat, sub);
    }
  }
}
