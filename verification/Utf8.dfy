/** UTF-8 as far as cutting text needs it: which bytes start a rune, and where runes meet. */
module Utf8 {

  type byte = x: int | 0 <= x < 256

  const NEWLINE: byte := 10

  /** `utf8.RuneStart`: everything but a continuation byte. */
  predicate RuneStart(b: byte) {
    !(0x80 <= b < 0xC0)
  }

  /** One to four bytes, of which only the first starts a rune; a single byte is plain ASCII. */
  function EncodeRune(c: char): (r: seq<byte>)
    ensures 1 <= |r| <= 4 && RuneStart(r[0]) && forall i | 1 <= i < |r| :: !RuneStart(r[i])
    ensures |r| == 1 ==> r[0] == c as int
    ensures |r| > 1 ==> forall b <- r :: b >= 0x80
    ensures c < 128 as char <==> |r| == 1
  {
    var v := c as int;
    if v < 0x80 then [v]
    else if v < 0x800 then [0xC0 + v / 0x40, 0x80 + v % 0x40]
    else if v < 0x10000 then [0xE0 + v / 0x1000, 0x80 + v / 0x40 % 0x40, 0x80 + v % 0x40]
    else [0xF0 + v / 0x40000, 0x80 + v / 0x1000 % 0x40, 0x80 + v / 0x40 % 0x40, 0x80 + v % 0x40]
  }

  /** The code point that one rune's bytes stand for: the payload bits of section 3 of RFC 3629, put together. */
  function CodePoint(r: seq<int>): int
    requires 1 <= |r| <= 4
  {
    match |r|
    case 1 => r[0]
    case 2 => (r[0] - 0xC0) * 0x40 + (r[1] - 0x80)
    case 3 => (r[0] - 0xE0) * 0x1000 + (r[1] - 0x80) * 0x40 + (r[2] - 0x80)
    case _ => (r[0] - 0xF0) * 0x40000 + (r[1] - 0x80) * 0x1000 + (r[2] - 0x80) * 0x40 + (r[3] - 0x80)
  }

  /** The bytes of a rune say which rune it is, in the shortest form that can. */
  lemma RuneIsReadBack(c: char)
    ensures CodePoint(EncodeRune(c)) == c as int
    ensures |EncodeRune(c)| == if c as int < 0x80 then 1
            else if c as int < 0x800 then 2 else if c as int < 0x10000 then 3 else 4
  {
    var v := c as int;
    if v < 0x80 {
    } else if v < 0x800 {
      TwoParts(v, 0x40);
    } else if v < 0x10000 {
      TwoParts(v, 0x40);
      ThreeParts(v);
    } else {
      TwoParts(v, 0x40);
      ThreeParts(v);
      FourParts(v);
    }
  }

  lemma TwoParts(v: nat, n: nat)
    requires n > 0
    ensures v == v / n * n + v % n
  {
  }

  lemma ThreeParts(v: nat)
    ensures v / 0x40 == v / 0x1000 * 0x40 + v / 0x40 % 0x40
  {
  }

  lemma FourParts(v: nat)
    ensures v / 0x1000 == v / 0x40000 * 0x40 + v / 0x1000 % 0x40
  {
  }

  function Encode(s: string): seq<byte> {
    if s == "" then [] else EncodeRune(s[0]) + Encode(s[1..])
  }

  lemma {:induction false} EncodeConcat(a: string, b: string)
    ensures Encode(a + b) == Encode(a) + Encode(b)
  {
    if a == "" {
      assert a + b == b;
    } else {
      assert (a + b)[0] == a[0] && (a + b)[1..] == a[1..] + b;
      EncodeConcat(a[1..], b);
    }
  }

  /** Bytes that are the encoding of some text. */
  ghost predicate Whole(bytes: seq<byte>) {
    exists s :: Encode(s) == bytes
  }

  lemma WholeConcat(a: seq<byte>, b: seq<byte>)
    requires Whole(a) && Whole(b)
    ensures Whole(a + b)
  {
    var s :| Encode(s) == a;
    var t :| Encode(t) == b;
    EncodeConcat(s, t);
  }

  /** A cut just before a byte that starts a rune falls between runes. */
  lemma {:induction false} CutBetweenRunes(s: string, c: nat)
    requires c <= |Encode(s)| && (c < |Encode(s)| ==> RuneStart(Encode(s)[c]))
    ensures Whole(Encode(s)[..c]) && Whole(Encode(s)[c..])
  {
    var bytes := Encode(s);
    assert Encode("") == [];
    if c == 0 {
      assert bytes[..0] == [] && bytes[0..] == bytes;
    } else {
      var first, rest := EncodeRune(s[0]), Encode(s[1..]);
      CutBetweenRunes(s[1..], c - |first|);
      OneRune(s[0]);
      WholeConcat(first, rest[..c - |first|]);
      CutFurther(first, rest, c);
    }
  }

  lemma OneRune(c: char)
    ensures Encode([c]) == EncodeRune(c) && Whole(EncodeRune(c))
  {
    assert Encode([c]) == EncodeRune(c) + Encode("");
  }

  lemma CutFurther(first: seq<byte>, rest: seq<byte>, c: nat)
    requires |first| <= c <= |first| + |rest|
    ensures (first + rest)[..c] == first + rest[..c - |first|] && (first + rest)[c..] == rest[c - |first|..]
  {
  }

  /** So does a cut just behind an ASCII byte, such as a newline. */
  lemma {:induction false} AfterAsciiStartsRune(s: string, c: nat)
    requires 0 < c < |Encode(s)| && Encode(s)[c - 1] < 0x80
    ensures RuneStart(Encode(s)[c])
  {
    var first, rest := EncodeRune(s[0]), Encode(s[1..]);
    if c > |first| {
      AfterAsciiStartsRune(s[1..], c - |first|);
    } else if c == |first| {
      assert rest != [];
    }
  }
}
