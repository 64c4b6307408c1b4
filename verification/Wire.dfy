/**
 The byte-budget unit: the compact JSON of a hit (internal/search/service.go), with the string
 escapes of section 7 of RFC 8259 as `encoding/json` writes them.
 */
module Wire {
  import opened SearchHits
  import opened Utf8

  /** Field names, quotes, colons, commas and braces of a hit whose strings are empty. */
  const ENVELOPE := 54
  const TRUNCATED_MARKER := 17

  /** Bytes one rune takes inside a JSON string; HTML-sensitive runes and line separators are escaped too. */
  function EscapedLen(c: char): (n: nat)
    ensures 1 <= n <= 6
    ensures n <= 6 * |EncodeRune(c)|
  {
    if c == '"' || c == '\\' || c == '\n' || c == '\r' || c == '\t' || c as int == 8 || c as int == 12 then 2
    else if c as int < 0x20 || c == '<' || c == '>' || c == '&' || c as int == 0x2028 || c as int == 0x2029 then 6
    else |EncodeRune(c)|
  }

  function HexDigit(n: nat): byte
    requires n < 16
  {
    if n < 10 then 0x30 + n else 0x61 + (n - 10)
  }

  /** A rune inside a JSON string: short escapes, six-byte escapes, and everything else as it is. */
  function Escaped(c: char): seq<byte> {
    var v := c as int;
    if c == '"' then [0x5c, 0x22]
    else if c == '\\' then [0x5c, 0x5c]
    else if v == 8 then [0x5c, 0x62]
    else if v == 9 then [0x5c, 0x74]
    else if v == 10 then [0x5c, 0x6e]
    else if v == 12 then [0x5c, 0x66]
    else if v == 13 then [0x5c, 0x72]
    else if v < 0x20 || c == '<' || c == '>' || c == '&' || v == 0x2028 || v == 0x2029 then
      [0x5c, 0x75, HexDigit(v / 0x1000 % 16), HexDigit(v / 0x100 % 16), HexDigit(v / 0x10 % 16), HexDigit(v % 16)]
    else EncodeRune(c)
  }

  function JsonText(s: string): seq<byte> {
    if s == "" then [] else Escaped(s[0]) + JsonText(s[1..])
  }

  lemma EscapedIsLong(c: char)
    ensures |Escaped(c)| == EscapedLen(c)
  {
  }

  /** The length is that of the text. */
  lemma {:induction false} JsonLenIs(s: string)
    ensures |JsonText(s)| == JsonLen(s)
  {
    if s != "" {
      EscapedIsLong(s[0]);
      JsonLenIs(s[1..]);
    }
  }

  function HexValue(b: int): int {
    if b < 0x3a then b - 0x30 else b - 0x61 + 10
  }

  /** The code point an escaped rune stands for, by section 7 of RFC 8259. */
  function Unescaped(bytes: seq<int>): int
    requires bytes != [] && (bytes[0] == 0x5c ==> |bytes| >= 2 && (bytes[1] == 0x75 ==> |bytes| == 6))
    requires bytes[0] != 0x5c ==> |bytes| <= 4
  {
    if bytes[0] != 0x5c then CodePoint(bytes)
    else
      match bytes[1]
      case 0x62 => 8
      case 0x74 => 9
      case 0x6e => 10
      case 0x66 => 12
      case 0x72 => 13
      case 0x75 =>
        HexValue(bytes[2]) * 0x1000 + HexValue(bytes[3]) * 0x100 + HexValue(bytes[4]) * 0x10 + HexValue(bytes[5])
      case b => b
  }

  lemma HexReads(n: nat)
    requires n < 16
    ensures HexValue(HexDigit(n)) == n
  {
  }

  lemma FourDigits(v: nat)
    requires v < 0x10000
    ensures v == v / 0x1000 % 16 * 0x1000 + v / 0x100 % 16 * 0x100 + v / 0x10 % 16 * 0x10 + v % 16
  {
    assert v == v / 0x10 * 0x10 + v % 16;
    assert v / 0x10 == v / 0x100 * 0x10 + v / 0x10 % 16;
    assert v / 0x100 == v / 0x1000 * 0x10 + v / 0x100 % 16;
  }

  /** What is written for a rune is read as that rune, and no quote or control byte is written as it is. */
  lemma EscapedIsRead(c: char)
    ensures var bytes := Escaped(c);
            && bytes != [] && (bytes[0] == 0x5c ==> |bytes| >= 2 && (bytes[1] == 0x75 ==> |bytes| == 6))
            && (bytes[0] != 0x5c ==> |bytes| <= 4 && bytes[0] != 0x22 && bytes[0] >= 0x20)
            && Unescaped(bytes) == c as int
  {
    var v := c as int;
    RuneIsReadBack(c);
    if v < 0x10000 {
      FourDigits(v);
      HexReads(v / 0x1000 % 16);
      HexReads(v / 0x100 % 16);
      HexReads(v / 0x10 % 16);
      HexReads(v % 16);
    }
  }

  function JsonLen(s: string): nat {
    if s == "" then 0 else EscapedLen(s[0]) + JsonLen(s[1..])
  }

  function LayerLen(layer: MatchLayer): nat {
    match layer
    case Primary => 7
    case Trigram => 7
    case Document => 8
  }

  function WireSize(h: SearchHit): nat {
    ENVELOPE + LayerLen(h.layer) + JsonLen(h.title) + JsonLen(h.snippet) + JsonLen(h.source)
    + if h.truncated then TRUNCATED_MARKER else 0
  }

  // ----- The text behind the size

  function Ascii(s: string): seq<byte>
    requires forall i | 0 <= i < |s| :: s[i] as int < 0x80
  {
    seq(|s|, i requires 0 <= i < |s| => s[i] as int)
  }

  const TITLE_IS := "{\"title\":\""
  const SNIPPET_IS := "\",\"snippet\":\""
  const SOURCE_IS := "\",\"source\":\""
  const LAYER_IS := "\",\"match_layer\":\""
  const TRUNCATED_IS := "\",\"truncated\":true}"
  const END := "\"}"

  function LayerName(layer: MatchLayer): (name: string)
    ensures forall i | 0 <= i < |name| :: name[i] as int < 0x80
  {
    match layer
    case Primary => "primary"
    case Trigram => "trigram"
    case Document => "document"
  }

  /** The compact JSON of a hit; the marker of a truncated one is left out of all others. */
  function HitText(h: SearchHit): seq<byte> {
    Ascii(TITLE_IS) + JsonText(h.title) + Ascii(SNIPPET_IS) + JsonText(h.snippet) + Ascii(SOURCE_IS)
      + JsonText(h.source)
    + Ascii(LAYER_IS) + Ascii(LayerName(h.layer)) + Ascii(if h.truncated then TRUNCATED_IS else END)
  }

  lemma FixedParts()
    ensures |TITLE_IS| + |SNIPPET_IS| + |SOURCE_IS| + |LAYER_IS| + |END| == ENVELOPE
    ensures |TRUNCATED_IS| == |END| + TRUNCATED_MARKER
  {
  }

  lemma LayerNameIs(layer: MatchLayer)
    ensures |LayerName(layer)| == LayerLen(layer)
  {
  }

  /** The size of a hit is the length of its compact JSON. */
  lemma WireSizeIs(h: SearchHit)
    ensures |HitText(h)| == WireSize(h)
  {
    FixedParts();
    LayerNameIs(h.layer);
    JsonLenIs(h.title);
    JsonLenIs(h.snippet);
    JsonLenIs(h.source);
  }

  lemma {:induction false} JsonLenConcat(a: string, b: string)
    ensures JsonLen(a + b) == JsonLen(a) + JsonLen(b)
  {
    if a == "" {
      assert a + b == b;
    } else {
      assert (a + b)[1..] == a[1..] + b;
      JsonLenConcat(a[1..], b);
    }
  }

  /** Longer prefixes are strictly longer on the wire. */
  lemma PrefixesGrow(s: string, n: nat, m: nat)
    requires n <= m <= |s|
    ensures JsonLen(s[..n]) + (m - n) <= JsonLen(s[..m])
  {
    assert s[..m] == s[..n] + s[n..m];
    JsonLenConcat(s[..n], s[n..m]);
    JsonLenBounds(s[n..m]);
  }

  /** One to six bytes per rune, and at most six per byte of UTF-8. */
  lemma {:induction false} JsonLenBounds(s: string)
    ensures |s| <= JsonLen(s) <= 6 * |s|
    ensures JsonLen(s) <= 6 * |Encode(s)|
  {
    if s != "" {
      JsonLenBounds(s[1..]);
    }
  }
}
