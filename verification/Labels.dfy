/**
 Source labels (internal/adapter/extract/grammar.go, token.go, extract.go): how they are built,
 printed with sequence number and staleness token, and read back.

 Strings are byte strings: every char is one byte.
 */
module Labels {
  import opened Wrappers
  import opened Decimal

  const MAX_LABEL_LEN := 200
  const MAX_SEQ_SUFFIX := 13
  const TOKEN_LEN := 6

  // ----- Escaping

  predicate Reserved(c: char) {
    c == ':' || c == '#' || c == '@' || c == ' ' || c == '%' || c as int < 0x20 || c as int == 0x7f
  }

  function HexDigit(n: nat): (c: char)
    requires n < 16
    ensures '0' <= c <= '9' || 'A' <= c <= 'F'
  {
    if n < 10 then '0' + n as char else 'A' + (n - 10) as char
  }

  function EncChar(c: char): string {
    if Reserved(c) then ['%', HexDigit(c as int / 16), HexDigit(c as int % 16)] else [c]
  }

  function Enc(s: string): string {
    if s == "" then "" else EncChar(s[0]) + Enc(s[1..])
  }

  method Encode(s: string) returns (b: string)
    ensures b == Enc(s)
  {
    b := "";
    for i := 0 to |s|
      invariant b + Enc(s[i..]) == Enc(s)
    {
      var c := s[i];
      EncNext(b, s, i);
      if Reserved(c) {
        b := b + ['%', HexDigit(c as int / 16), HexDigit(c as int % 16)];
      } else {
        b := b + [c];
      }
    }
  }

  lemma EncNext(done: string, s: string, i: nat)
    requires i < |s|
    ensures done + Enc(s[i..]) == done + EncChar(s[i]) + Enc(s[i + 1..])
  {
    assert s[i..][1..] == s[i + 1..];
  }

  predicate Separator(c: char) {
    c == ':' || c == '#' || c == '@' || c == ' '
  }

  lemma {:induction false} EncIsClean(s: string)
    ensures forall i | 0 <= i < |Enc(s)| :: !Separator(Enc(s)[i])
  {
    if s != "" {
      EncIsClean(s[1..]);
    }
  }

  lemma HexDigitIsInjective(m: nat, n: nat)
    requires m < 16 && n < 16 && HexDigit(m) == HexDigit(n)
    ensures m == n
  {
  }

  /** Escaping loses nothing. */
  lemma {:induction false} EncIsInjective(a: string, b: string)
    requires Enc(a) == Enc(b)
    ensures a == b
  {
    if a != "" && b != "" {
      FirstEncoded(a, b);
      assert Enc(a)[|EncChar(a[0])|..] == Enc(a[1..]) && Enc(b)[|EncChar(b[0])|..] == Enc(b[1..]);
      EncIsInjective(a[1..], b[1..]);
      assert a == [a[0]] + a[1..] && b == [b[0]] + b[1..];
    }
  }

  lemma FirstEncoded(a: string, b: string)
    requires a != "" && b != "" && Enc(a) == Enc(b)
    ensures a[0] == b[0]
  {
    assert Enc(a)[0] == Enc(b)[0];
    assert Reserved(a[0]) == Reserved(b[0]);
    if Reserved(a[0]) {
      assert Enc(a)[1] == Enc(b)[1] && Enc(a)[2] == Enc(b)[2];
      HexDigitIsInjective(a[0] as int / 16, b[0] as int / 16);
      HexDigitIsInjective(a[0] as int % 16, b[0] as int % 16);
    }
  }

  // ----- Unescaping

  predicate IsHex(c: char) {
    '0' <= c <= '9' || 'A' <= c <= 'F'
  }

  function HexValue(c: char): nat
    requires IsHex(c)
  {
    if c <= '9' then c as int - '0' as int else c as int - 'A' as int + 10
  }

  /** Percent-decoding: an escape stands for the byte its two digits name. */
  function Unescaped(s: string): string {
    if s == "" then ""
    else if s[0] == '%' && |s| >= 3 && IsHex(s[1]) && IsHex(s[2]) then
      [(16 * HexValue(s[1]) + HexValue(s[2])) as char] + Unescaped(s[3..])
    else [s[0]] + Unescaped(s[1..])
  }

  lemma EscapeReads(c: char, rest: string)
    ensures Unescaped(EncChar(c) + rest) == [c] + Unescaped(rest)
  {
    var s := EncChar(c) + rest;
    if Reserved(c) {
      assert s[0] == '%' && s[3..] == rest;
    } else {
      assert s[0] == c && s[1..] == rest;
    }
  }

  /** Escapes are those of the standard: whatever decodes percent-escapes gets the segment back. */
  lemma {:induction false} UnescapingGivesBack(s: string)
    ensures Unescaped(Enc(s)) == s
  {
    if s != "" {
      EscapeReads(s[0], Enc(s[1..]));
      UnescapingGivesBack(s[1..]);
      assert s == [s[0]] + s[1..];
    }
  }

  /** No control byte is left, either. */
  lemma {:induction false} EncIsPrintable(s: string)
    ensures forall i | 0 <= i < |Enc(s)| :: Enc(s)[i] as int >= 0x20 && Enc(s)[i] as int != 0x7f
  {
    if s != "" {
      EncIsPrintable(s[1..]);
    }
  }

  // ----- Joining segments

  function Join(parts: seq<string>): string {
    if parts == [] then "" else if |parts| == 1 then parts[0] else parts[0] + ":" + Join(parts[1..])
  }

  function EncAll(parts: seq<string>): seq<string> {
    seq(|parts|, i requires 0 <= i < |parts| => Enc(parts[i]))
  }

  predicate ColonFree(s: string) {
    forall i | 0 <= i < |s| :: s[i] != ':'
  }

  /** Where the first colon of a join is: behind the first part. */
  lemma FirstColon(a: string, x: string, b: string, y: string)
    requires ColonFree(a) && ColonFree(b) && a + ":" + x == b + ":" + y
    ensures a == b && x == y
  {
    var s := a + ":" + x;
    assert s[|a|] == ':' && s[|b|] == ':';
    assert forall i | 0 <= i < |a| :: s[i] == a[i];
    assert forall i | 0 <= i < |b| :: s[i] == b[i];
    assert a == s[..|a|] && b == s[..|b|] && x == s[|a| + 1..] && y == s[|b| + 1..];
  }

  lemma JoinHasColon(p: seq<string>)
    requires |p| > 1
    ensures !ColonFree(Join(p))
  {
    assert Join(p)[|p[0]|] == ':';
  }

  lemma {:induction false} JoinIsInjective(p: seq<string>, q: seq<string>)
    requires p != [] && q != [] && Join(p) == Join(q)
    requires (forall s <- p :: ColonFree(s)) && (forall s <- q :: ColonFree(s))
    ensures p == q
  {
    if |p| == 1 && |q| == 1 {
    } else if |p| == 1 {
      JoinHasColon(q);
    } else if |q| == 1 {
      JoinHasColon(p);
    } else {
      FirstColon(p[0], Join(p[1..]), q[0], Join(q[1..]));
      JoinIsInjective(p[1..], q[1..]);
      assert p == [p[0]] + p[1..] && q == [q[0]] + q[1..];
    }
  }

  // ----- Building a base

  datatype LabelId = LabelId(domain: string, verb: string, context: seq<string>, ident: seq<string>)

  /** Sixteen hex digits of a digest. */
  type HashText = s: string | |s| == 16 && forall i | 0 <= i < |s| :: '0' <= s[i] <= '9' || 'a' <= s[i] <= 'f'
    witness ['0', '0', '0', '0', '0', '0', '0', '0', '0', '0', '0', '0', '0', '0', '0', '0']

  type Hash = string -> HashText

  function IfGiven(s: string): seq<string> {
    if s == "" then [] else [s]
  }

  /** Identity segments that say nothing are left out. */
  function Telling(ident: seq<string>): seq<string> {
    if ident == [] then []
    else
      var before, last := Telling(ident[..|ident| - 1]), ident[|ident| - 1];
      if last == "" || last == "." then before else before + [last]
  }

  lemma {:induction false} TellingConcat(a: seq<string>, b: seq<string>)
    ensures Telling(a + b) == Telling(a) + Telling(b)
  {
    if b == [] {
      assert a + b == a;
    } else {
      var n := |b| - 1;
      assert (a + b)[..|a + b| - 1] == a + b[..n];
      TellingConcat(a, b[..n]);
    }
  }

  /** What is left out is just the empty segments and the dots; everything else stays, in order. */
  lemma TellingIs(before: seq<string>, x: string, after: seq<string>)
    ensures Telling(before + [x] + after)
            == Telling(before) + (if x == "" || x == "." then [] else [x]) + Telling(after)
  {
    TellingConcat(before + [x], after);
    assert (before + [x])[..|before|] == before;
  }

  function Prefix(id: LabelId, workspace: string): seq<string> {
    ["calm", "v1", id.domain] + IfGiven(id.verb) + IfGiven(workspace) + id.context
  }

  function Segments(id: LabelId, workspace: string): seq<string> {
    Prefix(id, workspace) + Telling(id.ident)
  }

  function FullLabel(id: LabelId, workspace: string): string {
    Join(EncAll(Segments(id, workspace)))
  }

  method EncodePrefix(id: LabelId, workspace: string) returns (prefix: seq<string>)
    ensures prefix == EncAll(Prefix(id, workspace))
  {
    var domain := Encode(id.domain);
    prefix := ["calm", "v1", domain];
    if id.verb != "" {
      var verb := Encode(id.verb);
      prefix := prefix + [verb];
    }
    if workspace != "" {
      var ws := Encode(workspace);
      prefix := prefix + [ws];
    }
    HeadIs(id, workspace, prefix);
    ghost var head := ["calm", "v1", id.domain] + IfGiven(id.verb) + IfGiven(workspace);
    for i := 0 to |id.context|
      invariant prefix == EncAll(head + id.context[..i])
    {
      var ctx := Encode(id.context[i]);
      assert head + id.context[..i + 1] == head + id.context[..i] + [id.context[i]];
      EncAllSnoc(head + id.context[..i], id.context[i]);
      prefix := prefix + [ctx];
    }
    assert id.context[..|id.context|] == id.context;
  }

  lemma EncAllConcat(a: seq<string>, b: seq<string>)
    ensures EncAll(a + b) == EncAll(a) + EncAll(b)
  {
  }

  lemma EncAllSnoc(parts: seq<string>, last: string)
    ensures EncAll(parts + [last]) == EncAll(parts) + [Enc(last)]
  {
  }

  lemma HeadIs(id: LabelId, workspace: string, prefix: seq<string>)
    requires var p0 := ["calm", "v1", Enc(id.domain)];
             var p1 := if id.verb != "" then p0 + [Enc(id.verb)] else p0;
             prefix == if workspace != "" then p1 + [Enc(workspace)] else p1
    ensures prefix == EncAll(["calm", "v1", id.domain] + IfGiven(id.verb) + IfGiven(workspace))
  {
    var h0 := ["calm", "v1", id.domain];
    ProductIs(id.domain);
    EncAllIfGiven(h0, id.verb);
    EncAllIfGiven(h0 + IfGiven(id.verb), workspace);
  }

  lemma ProductIs(domain: string)
    ensures EncAll(["calm", "v1", domain]) == ["calm", "v1", Enc(domain)]
  {
    UnreservedIsKept("calm");
    UnreservedIsKept("v1");
  }

  lemma EncAllIfGiven(parts: seq<string>, s: string)
    ensures EncAll(parts + IfGiven(s)) == if s != "" then EncAll(parts) + [Enc(s)] else EncAll(parts)
  {
    EncAllConcat(parts, IfGiven(s));
    assert EncAll(IfGiven(s)) == if s != "" then [Enc(s)] else [];
  }

  lemma {:induction false} UnreservedIsKept(s: string)
    requires forall i | 0 <= i < |s| :: !Reserved(s[i])
    ensures Enc(s) == s
  {
    if s != "" {
      UnreservedIsKept(s[1..]);
      assert s == [s[0]] + s[1..];
    }
  }

  method BuildBase(id: LabelId, workspace: string, reserve: nat, hash: Hash) returns (base: string)
    requires reserve <= MAX_LABEL_LEN
    ensures base == Base(id, workspace, reserve, hash)
  {
    var limit := MAX_LABEL_LEN - reserve;
    var prefix := EncodePrefix(id, workspace);
    var ident := EncodeIdent(id.ident);
    var joined := Join(prefix + ident);
    EncAllConcat(Prefix(id, workspace), Telling(id.ident));
    base := Shorten(prefix, ident, joined, limit, hash);
  }

  method Shorten(prefix: seq<string>, ident: seq<string>, joined: string, limit: nat, hash: Hash) returns (base: string)
    ensures base == Shortened(joined, IdentHashed(prefix, ident, joined, hash), limit, hash)
  {
    base := joined;
    if |base| <= limit {
      return;
    }
    if |ident| > 0 {
      base := Join(prefix + ["h" + hash(Join(ident))]);
      if |base| <= limit {
        return;
      }
    }
    var digest := "h" + hash(joined);
    var budget := limit - |digest| - 1;
    if budget < 0 {
      budget := 0;
    }
    if |base| > budget {
      base := base[..budget];
    }
    base := base + ":" + digest;
  }

  method EncodeIdent(ident: seq<string>) returns (encoded: seq<string>)
    ensures encoded == EncAll(Telling(ident))
  {
    encoded := [];
    assert ident[..|ident|] == ident;
    for i := 0 to |ident|
      invariant encoded == EncAll(Telling(ident[..i]))
    {
      assert ident[..i + 1][..i] == ident[..i];
      var x := ident[i];
      if x == "" || x == "." {
        continue;
      }
      var e := Encode(x);
      encoded := encoded + [e];
    }
  }

  /** The label with its identity, if it has one, replaced by a digest. */
  function IdentHashed(prefix: seq<string>, ident: seq<string>, full: string, hash: Hash): string {
    if ident == [] then full else Join(prefix + ["h" + hash(Join(ident))])
  }

  /** What is kept of a label in front of a digest of all of it. */
  function Head(hashed: string, limit: nat): string {
    var budget := if limit < 18 then 0 else limit - 18;
    if |hashed| > budget then hashed[..budget] else hashed
  }

  /** The full label if it fits, else its identity hashed, else its head and a hash of all of it. */
  function Shortened(full: string, hashed: string, limit: nat, hash: Hash): string {
    if |full| <= limit then full
    else if |hashed| <= limit then hashed
    else Head(hashed, limit) + ":" + ("h" + hash(full))
  }

  function HashedLabel(id: LabelId, workspace: string, hash: Hash): string {
    IdentHashed(EncAll(Prefix(id, workspace)), EncAll(Telling(id.ident)), FullLabel(id, workspace), hash)
  }

  function Base(id: LabelId, workspace: string, reserve: nat, hash: Hash): string
    requires reserve <= MAX_LABEL_LEN
  {
    Shortened(FullLabel(id, workspace), HashedLabel(id, workspace, hash), MAX_LABEL_LEN - reserve, hash)
  }

  // ----- What bases are like

  /** Free of everything the suffixes are told by. */
  predicate Plain(s: string) {
    forall i | 0 <= i < |s| :: s[i] != '#' && s[i] != '@' && s[i] != ' '
  }

  predicate Clean(s: string) {
    forall i | 0 <= i < |s| :: !Separator(s[i])
  }

  lemma {:induction false} JoinIsPlain(parts: seq<string>)
    requires forall p <- parts :: Plain(p)
    ensures Plain(Join(parts))
  {
    if parts != [] {
      assert parts[0] in parts;
    }
    if |parts| > 1 {
      JoinIsPlain(parts[1..]);
    }
  }

  lemma EncAllIsClean(parts: seq<string>)
    ensures forall p <- EncAll(parts) :: Clean(p)
  {
    forall i | 0 <= i < |parts|
      ensures Clean(EncAll(parts)[i])
    {
      EncIsClean(parts[i]);
    }
  }

  lemma FullIsPlain(parts: seq<string>)
    ensures Plain(Join(EncAll(parts)))
  {
    EncAllIsClean(parts);
    JoinIsPlain(EncAll(parts));
  }

  lemma HashedIsPlain(id: LabelId, workspace: string, hash: Hash)
    ensures Plain(HashedLabel(id, workspace, hash))
  {
    FullIsPlain(Segments(id, workspace));
    EncAllIsClean(Prefix(id, workspace));
    JoinIsPlain(EncAll(Prefix(id, workspace)) + ["h" + hash(Join(EncAll(Telling(id.ident))))]);
  }

  lemma ShortenedIsPlainAndShort(full: string, hashed: string, limit: nat, hash: Hash)
    requires Plain(full) && Plain(hashed) && limit >= 18
    ensures Plain(Shortened(full, hashed, limit, hash)) && |Shortened(full, hashed, limit, hash)| <= limit
  {
  }

  /** A base never contains `#`, `@` or a space, and leaves the reserved room. */
  lemma BaseIsPlainAndShort(id: LabelId, workspace: string, reserve: nat, hash: Hash)
    requires reserve <= MAX_LABEL_LEN - 18
    ensures Plain(Base(id, workspace, reserve, hash)) && |Base(id, workspace, reserve, hash)| <= MAX_LABEL_LEN - reserve
  {
    FullIsPlain(Segments(id, workspace));
    HashedIsPlain(id, workspace, hash);
    ShortenedIsPlainAndShort(FullLabel(id, workspace), HashedLabel(id, workspace, hash), MAX_LABEL_LEN - reserve, hash);
  }

  /** A full label names its segments. */
  lemma FullLabelsAreFaithful(id: LabelId, workspace: string, id': LabelId, workspace': string)
    ensures FullLabel(id, workspace) == FullLabel(id', workspace')
            <==> Segments(id, workspace) == Segments(id', workspace')
  {
    var p, q := Segments(id, workspace), Segments(id', workspace');
    if FullLabel(id, workspace) == FullLabel(id', workspace') {
      EncAllIsClean(p);
      EncAllIsClean(q);
      JoinIsInjective(EncAll(p), EncAll(q));
      EncAllIsInjective(p, q);
    }
  }

  /** Whatever room is reserved for a suffix: two bases that fit unhashed are equal exactly when their segments are. */
  lemma UnhashedBasesAreFaithful(id: LabelId, workspace: string, reserve: nat,
                                 id': LabelId, workspace': string, reserve': nat, hash: Hash)
    requires reserve <= MAX_LABEL_LEN && reserve' <= MAX_LABEL_LEN
    requires |FullLabel(id, workspace)| <= MAX_LABEL_LEN - reserve
    requires |FullLabel(id', workspace')| <= MAX_LABEL_LEN - reserve'
    ensures Base(id, workspace, reserve, hash) == Base(id', workspace', reserve', hash)
            <==> Segments(id, workspace) == Segments(id', workspace')
  {
    FullLabelsAreFaithful(id, workspace, id', workspace');
  }

  /** Too long in full, and short enough once the identity is hashed. */
  predicate HasIdentityHashed(id: LabelId, workspace: string, reserve: nat, hash: Hash)
    requires reserve <= MAX_LABEL_LEN
  {
    |HashedLabel(id, workspace, hash)| <= MAX_LABEL_LEN - reserve < |FullLabel(id, workspace)|
  }

  /** Too long either way: the head is cut and a digest of everything is put behind it. */
  predicate IsCut(id: LabelId, workspace: string, reserve: nat, hash: Hash)
    requires reserve <= MAX_LABEL_LEN
  {
    |FullLabel(id, workspace)| > MAX_LABEL_LEN - reserve && |HashedLabel(id, workspace, hash)| > MAX_LABEL_LEN - reserve
  }

  lemma EndsInDigest(a: string, x: HashText, b: string, y: HashText)
    requires a + ":" + ("h" + x) == b + ":" + ("h" + y)
    ensures x == y
  {
    var s := a + ":" + ("h" + x);
    assert x == s[|s| - 16..] && y == s[|s| - 16..];
  }

  /** Cut bases of different segments are equal only if the digest fails to tell their full labels apart. */
  lemma CutBasesAreFaithful(id: LabelId, workspace: string, reserve: nat,
                            id': LabelId, workspace': string, reserve': nat, hash: Hash)
    requires reserve <= MAX_LABEL_LEN && reserve' <= MAX_LABEL_LEN
    requires IsCut(id, workspace, reserve, hash) && IsCut(id', workspace', reserve', hash)
    requires Base(id, workspace, reserve, hash) == Base(id', workspace', reserve', hash)
    ensures var full, full' := FullLabel(id, workspace), FullLabel(id', workspace');
            hash(full) == hash(full') && (full == full' <==> Segments(id, workspace) == Segments(id', workspace'))
  {
    var hashed, hashed' := HashedLabel(id, workspace, hash), HashedLabel(id', workspace', hash);
    EndsInDigest(Head(hashed, MAX_LABEL_LEN - reserve), hash(FullLabel(id, workspace)),
                 Head(hashed', MAX_LABEL_LEN - reserve'), hash(FullLabel(id', workspace')));
    FullLabelsAreFaithful(id, workspace, id', workspace');
  }

  /** A cut base wastes no room: as much of the label is kept as leaves place for the digest. */
  lemma CutBasesFillTheRoom(id: LabelId, workspace: string, reserve: nat, hash: Hash)
    requires reserve <= MAX_LABEL_LEN - 18 && IsCut(id, workspace, reserve, hash)
    ensures var base, kept := Base(id, workspace, reserve, hash), MAX_LABEL_LEN - reserve - 18;
            |base| == MAX_LABEL_LEN - reserve && base[..kept] == HashedLabel(id, workspace, hash)[..kept]
  {
  }

  /** Where a label's parts stand: product and version, domain, verb and workspace if given, context, identity. */
  lemma SegmentsStand(id: LabelId, workspace: string)
    ensures var s := Segments(id, workspace);
            var verbs := if id.verb == "" then 0 else 1;
            var context := 3 + verbs + if workspace == "" then 0 else 1;
            && |s| == context + |id.context| + |Telling(id.ident)|
            && s[0] == "calm" && s[1] == "v1" && s[2] == id.domain
            && (id.verb != "" ==> s[3] == id.verb) && (workspace != "" ==> s[3 + verbs] == workspace)
            && s[context..context + |id.context|] == id.context && s[context + |id.context|..] == Telling(id.ident)
  {
  }

  /** Identity-hashed bases are equal only for equal prefixes and identities with the same digest. */
  lemma HashedBasesAreFaithful(id: LabelId, workspace: string, reserve: nat,
                               id': LabelId, workspace': string, reserve': nat, hash: Hash)
    requires reserve <= MAX_LABEL_LEN && reserve' <= MAX_LABEL_LEN
    requires HasIdentityHashed(id, workspace, reserve, hash) && HasIdentityHashed(id', workspace', reserve', hash)
    requires Base(id, workspace, reserve, hash) == Base(id', workspace', reserve', hash)
    ensures Prefix(id, workspace) == Prefix(id', workspace')
    ensures var ident, ident' := Join(EncAll(Telling(id.ident))), Join(EncAll(Telling(id'.ident)));
            hash(ident) == hash(ident') && (ident == ident' <==> Telling(id.ident) == Telling(id'.ident))
  {
    var prefix, prefix' := EncAll(Prefix(id, workspace)), EncAll(Prefix(id', workspace'));
    var ident, ident' := EncAll(Telling(id.ident)), EncAll(Telling(id'.ident));
    HashedJoinsAreFaithful(prefix, hash(Join(ident)), prefix', hash(Join(ident')),
                           Prefix(id, workspace), Prefix(id', workspace'));
    IdentsAreFaithful(Telling(id.ident), Telling(id'.ident));
  }

  lemma HashedJoinsAreFaithful(p: seq<string>, x: HashText, q: seq<string>, y: HashText, a: seq<string>, b: seq<string>)
    requires p == EncAll(a) && q == EncAll(b)
    requires Join(p + ["h" + x]) == Join(q + ["h" + y])
    ensures a == b && x == y
  {
    EncAllIsClean(a);
    EncAllIsClean(b);
    JoinIsInjective(p + ["h" + x], q + ["h" + y]);
    LastAndRest(p, "h" + x, q, "h" + y);
    EncAllIsInjective(a, b);
    assert x == ("h" + x)[1..] && y == ("h" + y)[1..];
  }

  lemma LastAndRest(p: seq<string>, x: string, q: seq<string>, y: string)
    requires p + [x] == q + [y]
    ensures p == q && x == y
  {
    assert |p| == |q| && p == (p + [x])[..|p|] && q == (q + [y])[..|q|];
    assert (p + [x])[|p|] == x && (q + [y])[|q|] == y;
  }

  lemma IdentsAreFaithful(a: seq<string>, b: seq<string>)
    requires a != [] && b != []
    ensures Join(EncAll(a)) == Join(EncAll(b)) <==> a == b
  {
    if Join(EncAll(a)) == Join(EncAll(b)) {
      EncAllIsClean(a);
      EncAllIsClean(b);
      JoinIsInjective(EncAll(a), EncAll(b));
      EncAllIsInjective(a, b);
    }
  }

  lemma EncAllIsInjective(p: seq<string>, q: seq<string>)
    requires EncAll(p) == EncAll(q)
    ensures p == q
  {
    assert |p| == |EncAll(p)| && |q| == |EncAll(q)|;
    forall i | 0 <= i < |p|
      ensures p[i] == q[i]
    {
      assert EncAll(p)[i] == EncAll(q)[i];
      EncIsInjective(p[i], q[i]);
    }
  }

  // ----- Plans

  datatype Mode = Replace | Dual | Coexist

  datatype Plan = Plan(latest: string, history: string)

  function SeqSuffix(n: nat): string {
    "#" + Format(n)
  }

  method Assemble(mode: Mode, id: LabelId, workspace: string, seqNo: nat, hash: Hash) returns (plan: Plan)
    ensures plan == PlanFor(mode, id, workspace, seqNo, hash)
  {
    plan := Plan("", "");
    match mode {
      case Replace =>
        var base := BuildBase(id, workspace, 0, hash);
        plan := plan.(latest := base);
      case Dual =>
        var base := BuildBase(id, workspace, MAX_SEQ_SUFFIX, hash);
        plan := plan.(latest := base, history := base + SeqSuffix(seqNo));
      case Coexist =>
        var base := BuildBase(id, workspace, MAX_SEQ_SUFFIX, hash);
        plan := plan.(history := base + SeqSuffix(seqNo));
    }
  }

  function PlanFor(mode: Mode, id: LabelId, workspace: string, seqNo: nat, hash: Hash): Plan {
    var base := Base(id, workspace, MAX_SEQ_SUFFIX, hash);
    match mode
    case Replace => Plan(Base(id, workspace, 0, hash), "")
    case Dual => Plan(base, base + SeqSuffix(seqNo))
    case Coexist => Plan("", base + SeqSuffix(seqNo))
  }

  /**
   Labels fit as long as the sequence number has at most twelve digits; the latest label is the same
   for every invocation, and histories of different invocations differ.
   */
  lemma PlansFit(mode: Mode, id: LabelId, workspace: string, seqNo: nat, other: nat, hash: Hash)
    requires seqNo < Pow10(12)
    ensures var plan, plan' := PlanFor(mode, id, workspace, seqNo, hash), PlanFor(mode, id, workspace, other, hash);
            && |plan.latest| <= MAX_LABEL_LEN && |plan.history| <= MAX_LABEL_LEN
            && plan.latest == plan'.latest && Plain(plan.latest)
            && (!mode.Replace? ==> (plan.history == plan'.history <==> seqNo == other))
  {
    BaseIsPlainAndShort(id, workspace, 0, hash);
    BaseIsPlainAndShort(id, workspace, MAX_SEQ_SUFFIX, hash);
    FormatLength(seqNo, 12);
    HistoriesDiffer(Base(id, workspace, MAX_SEQ_SUFFIX, hash), seqNo, other);
  }

  lemma HistoriesDiffer(base: string, m: nat, n: nat)
    ensures base + SeqSuffix(m) == base + SeqSuffix(n) <==> m == n
  {
    if base + SeqSuffix(m) == base + SeqSuffix(n) {
      assert Format(m) == (base + SeqSuffix(m))[|base| + 1..];
      assert Format(n) == (base + SeqSuffix(n))[|base| + 1..];
      FormatIsInjective(m, n);
    }
  }

  // ----- Reading a label back

  predicate TokenChar(c: char) {
    'a' <= c <= 'z' || '2' <= c <= '7'
  }

  method IsValidToken(s: string) returns (valid: bool)
    ensures valid <==> ValidToken(s)
  {
    if |s| != TOKEN_LEN {
      return false;
    }
    for i := 0 to |s|
      invariant forall k | 0 <= k < i :: TokenChar(s[k])
    {
      if !TokenChar(s[i]) {
        return false;
      }
    }
    return true;
  }

  predicate ValidToken(s: string) {
    |s| == TOKEN_LEN && forall i | 0 <= i < |s| :: TokenChar(s[i])
  }

  function LastIndex(s: string, c: char): (at: int)
    ensures -1 <= at < |s|
    ensures at >= 0 ==> s[at] == c
  {
    if s == "" then -1 else if s[|s| - 1] == c then |s| - 1 else LastIndex(s[..|s| - 1], c)
  }

  /** `seqNo` is -1 and `token` empty when there is no such suffix. */
  datatype Source = Source(base: string, seqNo: int, token: string)

  function ParseToken(l: string): (string, string) {
    var i := LastIndex(l, '@');
    if i >= 0 && ValidToken(l[i + 1..]) then (l[..i], l[i + 1..]) else (l, "")
  }

  function ParseSeq(l: string): (string, int) {
    var i := LastIndex(l, '#');
    if i >= 0 && Parse(l[i + 1..]).Some? && Parse(l[i + 1..]).value >= 0 then (l[..i], Parse(l[i + 1..]).value)
      else (l, -1)
  }

  function ParseSource(l: string): Source {
    var (rest, token) := ParseToken(l);
    var (base, seqNo) := ParseSeq(rest);
    Source(base, seqNo, token)
  }

  function FuseSource(source: string, token: string): string {
    if token == "" then source else source + "@" + token
  }

  function Numbered(base: string, seqNo: int): string {
    if seqNo < 0 then base else base + SeqSuffix(seqNo)
  }

  function Printed(s: Source): string {
    FuseSource(Numbered(s.base, s.seqNo), s.token)
  }

  lemma {:induction false} LastIndexIs(a: string, c: char, b: string)
    requires forall i | 0 <= i < |b| :: b[i] != c
    ensures LastIndex(a + [c] + b, c) == |a|
  {
    var s := a + [c] + b;
    if b == "" {
      assert s[|s| - 1] == c;
    } else {
      var n := |b| - 1;
      LastIndexIs(a, c, b[..n]);
      assert s[..|s| - 1] == a + [c] + b[..n] && s[|s| - 1] == b[n];
    }
  }

  lemma {:induction false} NoLastIndex(s: string, c: char)
    requires forall i | 0 <= i < |s| :: s[i] != c
    ensures LastIndex(s, c) == -1
  {
    if s != "" {
      NoLastIndex(s[..|s| - 1], c);
    }
  }

  /** What is printed from its parts is read back as exactly those parts. */
  lemma PrintedIsParsed(s: Source)
    requires Plain(s.base) && -1 <= s.seqNo < INT64_LIMIT && (s.token == "" || ValidToken(s.token))
    ensures ParseSource(Printed(s)) == s
  {
    var source := Numbered(s.base, s.seqNo);
    if s.seqNo >= 0 {
      NumberedIsRead(s.base, s.seqNo);
    } else {
      NoLastIndex(s.base, '#');
    }
    if s.token == "" {
      NoTokenIsRead(source);
    } else {
      LastIndexIs(source, '@', s.token);
      assert source + "@" + s.token == source + ['@'] + s.token;
      assert Printed(s)[..|source|] == source && Printed(s)[|source| + 1..] == s.token;
    }
  }

  predicate NoAt(s: string) {
    forall i | 0 <= i < |s| :: s[i] != '@'
  }

  lemma NoTokenIsRead(source: string)
    requires NoAt(source)
    ensures ParseToken(source) == (source, "")
  {
    NoLastIndex(source, '@');
  }

  lemma NumberedIsRead(base: string, n: nat)
    requires Plain(base) && n < INT64_LIMIT
    ensures ParseSeq(base + SeqSuffix(n)) == (base, n as int) && NoAt(base + SeqSuffix(n))
  {
    ParseFormat(n);
    TextIsRead(base, Format(n), n);
    assert base + SeqSuffix(n) == base + "#" + Format(n);
  }

  /** The text between the base and the token of a label that carries a number. */
  function SeqText(l: string): string {
    var rest := ParseToken(l).0;
    rest[|ParseSeq(rest).0|..]
  }

  /** No byte of a label is lost in reading it; what can be lost is how its number was written. */
  lemma ParsingIsLossless(l: string)
    ensures var s := ParseSource(l);
            && l == FuseSource(s.base + SeqText(l), s.token)
            && (s.seqNo < 0 ==> SeqText(l) == "")
            && (s.seqNo >= 0 ==> SeqText(l) != "" && SeqText(l)[0] == '#' && Parse(SeqText(l)[1..]) == Some(s.seqNo))
  {
    var rest := ParseToken(l).0;
    TokenIsLossless(l);
    SeqIsLossless(rest);
    SplitPrefix(ParseSeq(rest).0, rest);
  }

  lemma SplitPrefix(base: string, rest: string)
    requires base <= rest
    ensures base + rest[|base|..] == rest
    ensures base < rest ==>
              && rest[|base|..] != "" && rest[|base|..][0] == rest[|base|]
              && rest[|base|..][1..] == rest[|base| + 1..]
  {
  }

  lemma TokenIsLossless(l: string)
    ensures l == FuseSource(ParseToken(l).0, ParseToken(l).1)
  {
    var i := LastIndex(l, '@');
    assert i >= 0 ==> l == l[..i] + "@" + l[i + 1..];
  }

  lemma SeqIsLossless(rest: string)
    ensures var (base, n) := ParseSeq(rest);
            && base <= rest && (n < 0 ==> base == rest)
            && (n >= 0 ==> base < rest && rest[|base|] == '#' && Parse(rest[|base| + 1..]) == Some(n))
  {
  }

  /**
   Printing what was read gives the label back exactly when it has no number, or one written with
   digits alone and without leading zeros.
   */
  lemma ReprintedIff(l: string)
    ensures Printed(ParseSource(l)) == l <==> ParseSource(l).seqNo < 0 || Canonical(SeqText(l)[1..])
  {
    ParsingIsLossless(l);
    var s := ParseSource(l);
    if s.seqNo >= 0 {
      var digits := SeqText(l)[1..];
      assert SeqText(l) == "#" + digits;
      PrintedIffCanonical(digits, s.seqNo);
      if Printed(s) == l {
        SameMiddle(s.base, SeqText(l), SeqSuffix(s.seqNo), s.token);
        SameDigits(digits, Format(s.seqNo));
      }
    }
  }

  lemma SameDigits(a: string, b: string)
    requires "#" + a == "#" + b
    ensures a == b
  {
    assert a == ("#" + a)[1..] && b == ("#" + b)[1..];
  }

  lemma SameMiddle(base: string, a: string, b: string, token: string)
    requires FuseSource(base + a, token) == FuseSource(base + b, token)
    ensures a == b
  {
    var l := FuseSource(base + a, token);
    assert |a| == |b|;
    assert a == l[|base|..|base| + |a|] && b == l[|base|..|base| + |b|];
  }

  /** A number with leading zeros is read, but not printed again as it was. */
  lemma LeadingZerosAreNotKept()
    ensures ParseSource("x#007") == Source("x", 7, "") && Printed(ParseSource("x#007")) == "x#7"
  {
    SevenIsRead();
    SevenIsWritten();
    PrintedCanonically("x", "007", 7);
  }

  lemma SevenIsWritten()
    ensures "x" + "#" + "007" == "x#007" && "x" + ("#" + "7") == "x#7"
    ensures NoAt("x" + "#" + "007") && (forall i | 0 <= i < |"007"| :: "007"[i] != '#')
  {
  }

  /** A numbered label without a token is printed with the canonical form of its number. */
  lemma PrintedCanonically(base: string, digits: string, n: nat)
    requires Parse(digits) == Some(n as int) && forall i | 0 <= i < |digits| :: digits[i] != '#'
    requires NoAt(base + "#" + digits)
    ensures ParseSource(base + "#" + digits) == Source(base, n, "")
    ensures Printed(Source(base, n, "")) == base + ("#" + Format(n))
  {
    NoTokenIsRead(base + "#" + digits);
    TextIsRead(base, digits, n);
  }

  /** Whatever digits follow the last `#` are read as the number they denote. */
  lemma TextIsRead(base: string, digits: string, n: nat)
    requires Parse(digits) == Some(n as int) && forall i | 0 <= i < |digits| :: digits[i] != '#'
    ensures ParseSeq(base + "#" + digits) == (base, n as int)
  {
    var l := base + "#" + digits;
    assert l == base + ['#'] + digits;
    LastIndexIs(base, '#', digits);
    assert l[..|base|] == base && l[|base| + 1..] == digits;
  }

  lemma SevenIsRead()
    ensures Parse("007") == Some(7) && Format(7) == "7"
  {
    var s := "007";
    assert s[..2] == "00" && s[..2][..1] == "0" && s[..2][..1][..0] == "";
    assert ValueOf("0") == 0 && ValueOf("00") == 0;
  }
}
