/**
 Bounded chunks (internal/ingest/chunk/chunk.go, text.go): every stored chunk fits the hard cap,
 nothing is lost, and lines are cut only when one of them alone is too long.
 */
module Chunking {
  import opened Utf8

  const CHUNK_MAX_BYTES := 4096

  type Bytes = seq<byte>

  function Concat(pieces: seq<Bytes>): Bytes {
    if pieces == [] then [] else pieces[0] + Concat(pieces[1..])
  }

  /** Combined length. */
  function Total(pieces: seq<Bytes>): nat {
    if pieces == [] then 0 else |pieces[0]| + Total(pieces[1..])
  }

  lemma {:induction false} TotalIsLength(pieces: seq<Bytes>)
    ensures Total(pieces) == |Concat(pieces)|
  {
    if pieces != [] {
      TotalIsLength(pieces[1..]);
    }
  }

  lemma {:induction false} ConcatAppend(a: seq<Bytes>, b: seq<Bytes>)
    ensures Concat(a + b) == Concat(a) + Concat(b)
  {
    if a == [] {
      assert a + b == b;
    } else {
      assert (a + b)[0] == a[0] && (a + b)[1..] == a[1..] + b;
      ConcatAppend(a[1..], b);
    }
  }

  // ----- Lines

  /** Just behind the line that covers position `i`, its newline included. */
  function LineEnd(s: Bytes, i: nat): (end: nat)
    requires i < |s|
    ensures i < end <= |s|
    decreases |s| - i
  {
    if s[i] == NEWLINE || i + 1 == |s| then i + 1 else LineEnd(s, i + 1)
  }

  /** Where the line before position `c` starts. */
  function LineStart(s: Bytes, c: nat): (start: nat)
    requires c <= |s|
    ensures start <= c
  {
    if c == 0 || s[c - 1] == NEWLINE then c else LineStart(s, c - 1)
  }

  lemma {:induction false} LineEndIs(s: Bytes, i: nat, end: nat)
    requires i < end <= |s| && (forall k | i <= k < end - 1 :: s[k] != NEWLINE) && (s[end - 1] == NEWLINE || end == |s|)
    ensures LineEnd(s, i) == end
    decreases end - i
  {
    if i + 1 < end {
      LineEndIs(s, i + 1, end);
    }
  }

  method IndexNewline(t: Bytes) returns (at: int)
    ensures at < 0 ==> forall k | 0 <= k < |t| :: t[k] != NEWLINE
    ensures at >= 0 ==> at < |t| && t[at] == NEWLINE && forall k | 0 <= k < at :: t[k] != NEWLINE
  {
    for i := 0 to |t|
      invariant forall k | 0 <= k < i :: t[k] != NEWLINE
    {
      if t[i] == NEWLINE {
        return i;
      }
    }
    return -1;
  }

  method LineEndFrom(s: Bytes, i: nat) returns (lineEnd: nat)
    requires i < |s|
    ensures lineEnd == LineEnd(s, i)
  {
    lineEnd := |s|;
    var nl := IndexNewline(s[i..]);
    if nl >= 0 {
      lineEnd := i + nl + 1;
    }
    assert forall k | i <= k < lineEnd - 1 :: s[k] == s[i..][k - i];
    LineEndIs(s, i, lineEnd);
  }

  // ----- Hard cuts

  function BoundaryBefore(s: Bytes, limit: nat): (i: nat)
    requires limit < |s|
    ensures i <= limit
  {
    if limit == 0 || RuneStart(s[limit]) then limit else BoundaryBefore(s, limit - 1)
  }

  lemma {:induction false} BoundaryIsLast(s: Bytes, limit: nat)
    requires limit < |s|
    ensures var i := BoundaryBefore(s, limit);
            (i > 0 ==> RuneStart(s[i])) && forall k | i < k <= limit :: !RuneStart(s[k])
  {
    if limit > 0 && !RuneStart(s[limit]) {
      BoundaryIsLast(s, limit - 1);
    }
  }

  /** The largest index up to the limit that starts a rune. */
  method RuneBoundaryBefore(s: Bytes, limit: nat) returns (i: nat)
    requires limit < |s|
    ensures i <= limit && (i > 0 ==> RuneStart(s[i])) && forall k | i < k <= limit :: !RuneStart(s[k])
    ensures i == BoundaryBefore(s, limit)
  {
    BoundaryIsLast(s, limit);
    i := limit;
    while i > 0 && !RuneStart(s[i])
      invariant i <= limit && BoundaryBefore(s, i) == BoundaryBefore(s, limit)
    {
      i := i - 1;
    }
  }

  function Cut(s: Bytes, maxBytes: nat): (cut: nat)
    requires 0 < maxBytes < |s|
    ensures 0 < cut <= maxBytes
  {
    if BoundaryBefore(s, maxBytes) == 0 then maxBytes else BoundaryBefore(s, maxBytes)
  }

  function RuneSplit(s: Bytes, maxBytes: nat): seq<Bytes>
    requires maxBytes > 0
  {
    if |s| <= maxBytes then [s] else [s[..Cut(s, maxBytes)]] + RuneSplit(s[Cut(s, maxBytes)..], maxBytes)
  }

  method SplitOnRuneBoundaries(s: Bytes, maxBytes: nat) returns (pieces: seq<Bytes>)
    requires maxBytes > 0
    ensures pieces == RuneSplit(s, maxBytes)
  {
    ghost var whole := RuneSplit(s, maxBytes);
    pieces := [];
    var rest := s;
    while |rest| > maxBytes
      invariant pieces + RuneSplit(rest, maxBytes) == whole
      decreases |rest|
    {
      var cut := RuneBoundaryBefore(rest, maxBytes);
      if cut <= 0 {
        cut := maxBytes;
      }
      CutsOff(pieces, rest, cut, maxBytes);
      pieces := pieces + [rest[..cut]];
      rest := rest[cut..];
    }
    pieces := pieces + [rest];
  }

  lemma CutsOff(pieces: seq<Bytes>, rest: Bytes, cut: nat, maxBytes: nat)
    requires 0 < maxBytes < |rest| && cut == Cut(rest, maxBytes)
    ensures pieces + RuneSplit(rest, maxBytes) == pieces + [rest[..cut]] + RuneSplit(rest[cut..], maxBytes)
  {
  }

  /**
   Within `s`, a piece from `a` to `c` reaches as far as it may: to the last rune start within the bound, or the bound.
   */
  predicate ReachesFar(s: Bytes, a: int, c: int, maxBytes: nat)
    requires 0 <= a < c < |s|
  {
    && (c == a + maxBytes || RuneStart(s[c]))
    && (RuneStart(s[c]) || forall k | a < k <= a + maxBytes && k < |s| :: !RuneStart(s[k]))
    && forall k | c < k <= a + maxBytes && k < |s| :: !RuneStart(s[k])
  }

  function Far(s: Bytes, maxBytes: nat): (int, int) -> bool {
    (a, c) => 0 <= a < c <= |s| && c - a <= maxBytes && (c < |s| ==> ReachesFar(s, a, c, maxBytes))
  }

  lemma CutReachesFar(s: Bytes, a: nat, maxBytes: nat)
    requires 0 < maxBytes < |s| - a
    ensures Far(s, maxBytes)(a, a + Cut(s[a..], maxBytes))
  {
    BoundaryIsLast(s[a..], maxBytes);
    var b := BoundaryBefore(s[a..], maxBytes);
    forall k | a + b < k <= a + maxBytes && k < |s|
      ensures !RuneStart(s[k])
    {
      assert s[a..][k - a] == s[k];
    }
    if b > 0 {
      assert s[a..][b] == s[a + b];
    }
  }

  /** Every piece of a line that is too long takes as many whole runes as the bound allows. */
  lemma {:induction false} RunePiecesReachFar(s: Bytes, a: nat, maxBytes: nat)
    requires maxBytes > 0 && a < |s|
    ensures Spanning(Far(s, maxBytes), a, RuneSplit(s[a..], maxBytes))
    decreases |s| - a
  {
    if |s| - a <= maxBytes {
      SpanningOne(Far(s, maxBytes), a, s[a..]);
    } else {
      var c := a + Cut(s[a..], maxBytes);
      CutReachesFar(s, a, maxBytes);
      RunePiecesReachFar(s, c, maxBytes);
      assert s[a..][c - a..] == s[c..];
      SpanningCons(Far(s, maxBytes), a, s[a..][..c - a], RuneSplit(s[c..], maxBytes));
    }
  }

  // ----- Packing lines

  function IfAny(piece: Bytes): seq<Bytes> {
    if piece == [] then [] else [piece]
  }

  /** What the line from `i` to `lineEnd` sends out; the pending piece started at `segStart`. */
  function Emitted(s: Bytes, segStart: nat, i: nat, lineEnd: nat, maxBytes: nat): seq<Bytes>
    requires maxBytes > 0 && segStart <= i <= lineEnd <= |s|
  {
    if lineEnd - i > maxBytes then IfAny(s[segStart..i]) + RuneSplit(s[i..lineEnd], maxBytes)
    else if i > segStart && lineEnd - segStart > maxBytes then [s[segStart..i]]
    else []
  }

  /** Where the pending piece starts after it. */
  function Pending(segStart: nat, i: nat, lineEnd: nat, maxBytes: nat): nat {
    if lineEnd - i > maxBytes then lineEnd else if i > segStart && lineEnd - segStart > maxBytes then i else segStart
  }

  lemma PendingInRange(segStart: nat, i: nat, lineEnd: nat, maxBytes: nat)
    requires segStart <= i <= lineEnd
    ensures segStart <= Pending(segStart, i, lineEnd, maxBytes) <= lineEnd
  {
  }

  /** Lines join the pending piece while they fit; one that never fits is cut by itself. */
  function Pack(s: Bytes, segStart: nat, i: nat, maxBytes: nat): seq<Bytes>
    requires maxBytes > 0 && segStart <= i <= |s|
    decreases |s| - i
  {
    if i == |s| then IfAny(s[segStart..])
    else
      var lineEnd := LineEnd(s, i);
      Emitted(s, segStart, i, lineEnd, maxBytes) + Pack(s, Pending(segStart, i, lineEnd, maxBytes), lineEnd, maxBytes)
  }

  lemma PacksOne(pieces: seq<Bytes>, s: Bytes, segStart: nat, i: nat, maxBytes: nat)
    requires maxBytes > 0 && segStart <= i < |s|
    ensures var lineEnd := LineEnd(s, i);
            pieces + Pack(s, segStart, i, maxBytes) ==
            pieces + Emitted(s, segStart, i, lineEnd, maxBytes)
              + Pack(s, Pending(segStart, i, lineEnd, maxBytes), lineEnd, maxBytes)
  {
  }

  lemma Regroup(done: seq<Bytes>, a: seq<Bytes>, b: seq<Bytes>)
    ensures done + a + b == done + (a + b)
  {
  }

  method PackLine(s: Bytes, segStart: nat, i: nat, lineEnd: nat, maxBytes: nat, before: seq<Bytes>)
    returns (pieces: seq<Bytes>, newStart: nat)
    requires maxBytes > 0 && segStart <= i < lineEnd <= |s|
    ensures pieces == before + Emitted(s, segStart, i, lineEnd, maxBytes)
            && newStart == Pending(segStart, i, lineEnd, maxBytes)
  {
    pieces, newStart := before, segStart;
    if lineEnd - i > maxBytes {
      if i > segStart {
        pieces := pieces + [s[segStart..i]];
      }
      assert pieces == before + IfAny(s[segStart..i]);
      var cuts := SplitOnRuneBoundaries(s[i..lineEnd], maxBytes);
      Regroup(before, IfAny(s[segStart..i]), cuts);
      pieces := pieces + cuts;
      newStart := lineEnd;
    } else if i > segStart && lineEnd - segStart > maxBytes {
      pieces := pieces + [s[segStart..i]];
      newStart := i;
    }
  }

  method SplitOnLineBoundaries(s: Bytes, maxBytes: nat) returns (pieces: seq<Bytes>)
    requires maxBytes > 0
    ensures pieces == Pack(s, 0, 0, maxBytes)
  {
    ghost var whole := Pack(s, 0, 0, maxBytes);
    pieces := [];
    var segStart, i := 0, 0;
    while i < |s|
      invariant 0 <= segStart <= i <= |s|
      invariant pieces + Pack(s, segStart, i, maxBytes) == whole
    {
      var lineEnd := LineEndFrom(s, i);
      PacksOne(pieces, s, segStart, i, maxBytes);
      PendingInRange(segStart, i, lineEnd, maxBytes);
      pieces, segStart := PackLine(s, segStart, i, lineEnd, maxBytes, pieces);
      i := lineEnd;
    }
    if segStart < |s| {
      pieces := pieces + [s[segStart..]];
    }
  }

  // ----- What the pieces are

  /** Non-empty and within the bound. */
  ghost predicate Bounded(pieces: seq<Bytes>, maxBytes: nat) {
    forall p <- pieces :: 0 < |p| <= maxBytes
  }

  lemma {:induction false} RuneSplitJoins(s: Bytes, maxBytes: nat)
    requires maxBytes > 0
    ensures Concat(RuneSplit(s, maxBytes)) == s
    decreases |s|
  {
    if |s| <= maxBytes {
      ConcatCons(s, []);
    } else {
      var cut := Cut(s, maxBytes);
      RuneSplitJoins(s[cut..], maxBytes);
      ConcatCons(s[..cut], RuneSplit(s[cut..], maxBytes));
    }
  }

  lemma {:induction false} RuneSplitBounded(s: Bytes, maxBytes: nat)
    requires maxBytes > 0 && s != []
    ensures Bounded(RuneSplit(s, maxBytes), maxBytes)
    decreases |s|
  {
    if |s| > maxBytes {
      var cut := Cut(s, maxBytes);
      RuneSplitBounded(s[cut..], maxBytes);
      BoundedCons(s[..cut], RuneSplit(s[cut..], maxBytes), maxBytes);
    }
  }

  lemma BoundedCons(piece: Bytes, rest: seq<Bytes>, maxBytes: nat)
    requires 0 < |piece| <= maxBytes && Bounded(rest, maxBytes)
    ensures Bounded([piece] + rest, maxBytes)
  {
  }

  lemma ConcatCons(piece: Bytes, rest: seq<Bytes>)
    ensures Concat([piece] + rest) == piece + Concat(rest)
  {
    assert ([piece] + rest)[1..] == rest;
  }

  lemma EmittedIs(s: Bytes, segStart: nat, i: nat, lineEnd: nat, maxBytes: nat)
    requires maxBytes > 0 && segStart <= i < lineEnd <= |s| && i - segStart <= maxBytes
    ensures var pending := Pending(segStart, i, lineEnd, maxBytes);
            && segStart <= pending <= lineEnd && lineEnd - pending <= maxBytes
            && Concat(Emitted(s, segStart, i, lineEnd, maxBytes)) == s[segStart..pending]
            && Bounded(Emitted(s, segStart, i, lineEnd, maxBytes), maxBytes)
  {
    if lineEnd - i > maxBytes {
      LongIs(s[segStart..i], s[i..lineEnd], maxBytes);
      assert s[segStart..i] + s[i..lineEnd] == s[segStart..lineEnd];
    } else if i > segStart && lineEnd - segStart > maxBytes {
      ConcatIfAny(s[segStart..i]);
    } else {
      assert s[segStart..segStart] == [];
    }
  }

  lemma LongIs(pending: Bytes, line: Bytes, maxBytes: nat)
    requires |pending| <= maxBytes < |line| && maxBytes > 0
    ensures Concat(IfAny(pending) + RuneSplit(line, maxBytes)) == pending + line
    ensures Bounded(IfAny(pending) + RuneSplit(line, maxBytes), maxBytes)
  {
    ConcatIfAny(pending);
    RuneSplitJoins(line, maxBytes);
    RuneSplitBounded(line, maxBytes);
    ConcatAppend(IfAny(pending), RuneSplit(line, maxBytes));
  }

  /** Nothing is lost, nothing is empty, nothing is too long. */
  lemma {:induction false} PackIs(s: Bytes, segStart: nat, i: nat, maxBytes: nat)
    requires maxBytes > 0 && segStart <= i <= |s| && i - segStart <= maxBytes
    ensures Concat(Pack(s, segStart, i, maxBytes)) == s[segStart..] && Bounded(Pack(s, segStart, i, maxBytes), maxBytes)
    decreases |s| - i
  {
    if i == |s| {
      ConcatIfAny(s[segStart..]);
    } else {
      var lineEnd := LineEnd(s, i);
      var pending := Pending(segStart, i, lineEnd, maxBytes);
      EmittedIs(s, segStart, i, lineEnd, maxBytes);
      PackIs(s, pending, lineEnd, maxBytes);
      JoinsUp(s, segStart, pending, Emitted(s, segStart, i, lineEnd, maxBytes), Pack(s, pending, lineEnd, maxBytes),
        maxBytes);
    }
  }

  lemma JoinsUp(s: Bytes, a: nat, b: nat, p: seq<Bytes>, q: seq<Bytes>, maxBytes: nat)
    requires a <= b <= |s| && Concat(p) == s[a..b] && Concat(q) == s[b..] && Bounded(p, maxBytes)
             && Bounded(q, maxBytes)
    ensures Concat(p + q) == s[a..] && Bounded(p + q, maxBytes)
  {
    ConcatAppend(p, q);
    Rejoined(s, a, b);
    BoundedAppend(p, q, maxBytes);
  }

  lemma Rejoined(s: Bytes, a: nat, b: nat)
    requires a <= b <= |s|
    ensures s[a..b] + s[b..] == s[a..]
  {
  }

  lemma BoundedAppend(p: seq<Bytes>, q: seq<Bytes>, maxBytes: nat)
    requires Bounded(p, maxBytes) && Bounded(q, maxBytes)
    ensures Bounded(p + q, maxBytes)
  {
  }

  lemma ConcatIfAny(piece: Bytes)
    ensures Concat(IfAny(piece)) == piece
  {
    if piece != [] {
      assert Concat([piece]) == piece + Concat([]);
    }
  }

  // ----- Where the cuts are

  /**
   A cut at `c`, behind a piece that starts at `a`: at a line end, where the next line would not
   have fitted or an over-long line has just ended, or else inside a line that alone is too long.
   */
  predicate CutIsFair(s: Bytes, a: nat, c: nat, maxBytes: nat)
    requires a < c < |s|
  {
    if s[c - 1] == NEWLINE then LineEnd(s, c) - a > maxBytes || c - LineStart(s, c - 1) > maxBytes
    else LineEnd(s, c) - LineStart(s, c) > maxBytes
  }

  /** Which stretches of `s` may be pieces. */
  function Fair(s: Bytes, maxBytes: nat): (int, int) -> bool {
    (a, c) => 0 <= a < c <= |s| && (c < |s| ==> CutIsFair(s, a, c, maxBytes))
  }

  /** Laid end to end from `a` on, every piece spans an allowed stretch. */
  ghost predicate Spanning(allowed: (int, int) -> bool, a: nat, pieces: seq<Bytes>)
    decreases |pieces|
  {
    pieces != [] ==> allowed(a, a + |pieces[0]|) && Spanning(allowed, a + |pieces[0]|, pieces[1..])
  }

  lemma {:induction false} SpanningAppend(allowed: (int, int) -> bool, a: nat, p: seq<Bytes>, q: seq<Bytes>)
    requires Spanning(allowed, a, p) && Spanning(allowed, a + Total(p), q)
    ensures Spanning(allowed, a, p + q)
    decreases |p|
  {
    if p == [] {
      assert p + q == q;
    } else {
      assert (p + q)[1..] == p[1..] + q;
      SpanningAppend(allowed, a + |p[0]|, p[1..], q);
    }
  }

  lemma SpanningOne(allowed: (int, int) -> bool, a: nat, piece: Bytes)
    requires allowed(a, a + |piece|)
    ensures Spanning(allowed, a, [piece])
  {
    assert [piece][1..] == [];
  }

  lemma SpanningCons(allowed: (int, int) -> bool, a: nat, piece: Bytes, rest: seq<Bytes>)
    requires allowed(a, a + |piece|) && Spanning(allowed, a + |piece|, rest)
    ensures Spanning(allowed, a, [piece] + rest)
  {
    assert ([piece] + rest)[1..] == rest;
  }

  lemma SpanningJoin(allowed: (int, int) -> bool, a: nat, b: nat, p: seq<Bytes>, q: seq<Bytes>)
    requires a <= b && |Concat(p)| == b - a && Spanning(allowed, a, p) && Spanning(allowed, b, q)
    ensures Spanning(allowed, a, p + q)
  {
    TotalIsLength(p);
    SpanningAppend(allowed, a, p, q);
  }

  predicate OnLineBreak(s: Bytes, x: nat)
    requires x <= |s|
  {
    x == 0 || x == |s| || s[x - 1] == NEWLINE
  }

  /** Every position inside a line sees the same line around it. */
  lemma {:induction false} InsideLine(s: Bytes, i: nat, c: nat)
    requires i < |s| && OnLineBreak(s, i) && i < c <= LineEnd(s, i)
    ensures c < LineEnd(s, i) ==> s[c - 1] != NEWLINE && LineEnd(s, c) == LineEnd(s, i) && LineStart(s, c) == i
    ensures LineStart(s, c - 1) == i
    ensures LineEnd(s, i) < |s| ==> s[LineEnd(s, i) - 1] == NEWLINE
  {
    if c > i + 1 {
      InsideLine(s, i, c - 1);
    } else if s[i] != NEWLINE && i + 1 < |s| {
      EndsAtBreak(s, i + 1);
    }
  }

  lemma {:induction false} EndsAtBreak(s: Bytes, i: nat)
    requires i < |s|
    ensures LineEnd(s, i) < |s| ==> s[LineEnd(s, i) - 1] == NEWLINE
    decreases |s| - i
  {
    if s[i] != NEWLINE && i + 1 < |s| {
      EndsAtBreak(s, i + 1);
    }
  }

  /** A cut inside an over-long line is fair, wherever the piece before it starts. */
  lemma CutInsideIsFair(s: Bytes, i: nat, x: nat, c: nat, maxBytes: nat)
    requires i < |s| && OnLineBreak(s, i) && i <= x < c <= LineEnd(s, i) && LineEnd(s, i) - i > maxBytes
    ensures Fair(s, maxBytes)(x, c)
  {
    InsideLine(s, i, c);
  }

  lemma RuneSplitOf(s: Bytes, x: nat, c: nat, lineEnd: nat, maxBytes: nat)
    requires 0 < maxBytes && x <= lineEnd <= |s| && lineEnd - x > maxBytes && c == x + Cut(s[x..lineEnd], maxBytes)
    ensures RuneSplit(s[x..lineEnd], maxBytes) == [s[x..c]] + RuneSplit(s[c..lineEnd], maxBytes)
  {
    var rest := s[x..lineEnd];
    assert rest[..c - x] == s[x..c] && rest[c - x..] == s[c..lineEnd];
  }

  lemma {:induction false} RuneSplitFair(s: Bytes, i: nat, x: nat, maxBytes: nat)
    requires maxBytes > 0 && i < |s| && OnLineBreak(s, i) && i <= x < LineEnd(s, i) && LineEnd(s, i) - i > maxBytes
    ensures Spanning(Fair(s, maxBytes), x, RuneSplit(s[x..LineEnd(s, i)], maxBytes))
    decreases |s| - x
  {
    var lineEnd := LineEnd(s, i);
    if lineEnd - x <= maxBytes {
      CutInsideIsFair(s, i, x, lineEnd, maxBytes);
      SpanningOne(Fair(s, maxBytes), x, s[x..lineEnd]);
    } else {
      var c := x + Cut(s[x..lineEnd], maxBytes);
      CutInsideIsFair(s, i, x, c, maxBytes);
      RuneSplitFair(s, i, c, maxBytes);
      RuneSplitOf(s, x, c, lineEnd, maxBytes);
      SpanningCons(Fair(s, maxBytes), x, s[x..c], RuneSplit(s[c..lineEnd], maxBytes));
    }
  }

  lemma EmittedFair(s: Bytes, segStart: nat, i: nat, maxBytes: nat)
    requires maxBytes > 0 && segStart <= i < |s| && i - segStart <= maxBytes && OnLineBreak(s, i)
    ensures Spanning(Fair(s, maxBytes), segStart, Emitted(s, segStart, i, LineEnd(s, i), maxBytes))
  {
    var lineEnd := LineEnd(s, i);
    if i > segStart && lineEnd - segStart > maxBytes {
      SpanningOne(Fair(s, maxBytes), segStart, s[segStart..i]);
    }
    if lineEnd - i > maxBytes {
      RuneSplitFair(s, i, i, maxBytes);
      ConcatIfAny(s[segStart..i]);
      SpanningJoin(Fair(s, maxBytes), segStart, i, IfAny(s[segStart..i]), RuneSplit(s[i..lineEnd], maxBytes));
    }
  }

  /** Every cut is fair: lines are kept whole and packed tightly, and only over-long ones are cut. */
  lemma {:induction false} PackFair(s: Bytes, segStart: nat, i: nat, maxBytes: nat)
    requires maxBytes > 0 && segStart <= i <= |s| && i - segStart <= maxBytes && OnLineBreak(s, i)
    ensures Spanning(Fair(s, maxBytes), segStart, Pack(s, segStart, i, maxBytes))
    decreases |s| - i
  {
    if i == |s| {
      if segStart < |s| {
        SpanningOne(Fair(s, maxBytes), segStart, s[segStart..]);
      }
    } else {
      var lineEnd := LineEnd(s, i);
      var pending := Pending(segStart, i, lineEnd, maxBytes);
      EmittedIs(s, segStart, i, lineEnd, maxBytes);
      EmittedFair(s, segStart, i, maxBytes);
      EndsAtBreak(s, i);
      PackFair(s, pending, lineEnd, maxBytes);
      SpanningJoin(Fair(s, maxBytes), segStart, pending, Emitted(s, segStart, i, lineEnd, maxBytes),
        Pack(s, pending, lineEnd, maxBytes));
    }
  }

  // ----- No rune is split

  ghost predicate AllWhole(pieces: seq<Bytes>) {
    forall p <- pieces :: Whole(p)
  }

  /** Of four consecutive bytes of text, one starts a rune. */
  lemma {:induction false} StartNearby(s: string, c: nat)
    requires 4 <= c < |Encode(s)|
    ensures BoundaryBefore(Encode(s), c) > 0
  {
    BoundaryIsLast(Encode(s), c);
    var k := StartWithin(s, c);
  }

  lemma {:induction false} StartWithin(s: string, c: nat) returns (k: nat)
    requires c < |Encode(s)|
    ensures c < k + 4 && k <= c && RuneStart(Encode(s)[k])
  {
    var first := EncodeRune(s[0]);
    if c < |first| {
      k := 0;
    } else {
      k := StartWithin(s[1..], c - |first|);
      k := k + |first|;
    }
  }

  lemma {:induction false} RuneSplitWhole(t: Bytes, maxBytes: nat)
    requires maxBytes >= 4 && Whole(t)
    ensures AllWhole(RuneSplit(t, maxBytes))
    decreases |t|
  {
    if |t| > maxBytes {
      var s :| Encode(s) == t;
      StartNearby(s, maxBytes);
      BoundaryIsLast(t, maxBytes);
      CutBetweenRunes(s, Cut(t, maxBytes));
      RuneSplitWhole(t[Cut(t, maxBytes)..], maxBytes);
    }
  }

  /** Text between two line breaks is text. */
  lemma BetweenBreaks(s: string, a: nat, b: nat)
    requires a <= b <= |Encode(s)| && OnLineBreak(Encode(s), a) && OnLineBreak(Encode(s), b)
    ensures Whole(Encode(s)[a..b])
  {
    var bytes := Encode(s);
    if 0 < b < |bytes| {
      AfterAsciiStartsRune(s, b);
    }
    if b == 0 {
      assert bytes[a..b] == Encode("");
    } else {
      CutBetweenRunes(s, b);
      var t :| Encode(t) == bytes[..b];
      if 0 < a < b {
        AfterAsciiStartsRune(t, a);
      } else if a == 0 && b > 0 {
        EncodedStarts(t);
      }
      CutBetweenRunes(t, a);
      assert bytes[..b][a..] == bytes[a..b];
    }
  }

  lemma EncodedStarts(s: string)
    ensures Encode(s) != [] ==> RuneStart(Encode(s)[0])
  {
  }

  lemma EmittedWhole(s: string, segStart: nat, i: nat, lineEnd: nat, maxBytes: nat)
    requires maxBytes >= 4 && segStart <= i <= lineEnd <= |Encode(s)|
    requires OnLineBreak(Encode(s), segStart) && OnLineBreak(Encode(s), i) && OnLineBreak(Encode(s), lineEnd)
    ensures AllWhole(Emitted(Encode(s), segStart, i, lineEnd, maxBytes))
  {
    BetweenBreaks(s, segStart, i);
    BetweenBreaks(s, i, lineEnd);
    if lineEnd - i > maxBytes {
      RuneSplitWhole(Encode(s)[i..lineEnd], maxBytes);
    }
  }

  /** A text is never cut inside a rune. */
  lemma {:induction false} PackWhole(s: string, segStart: nat, i: nat, maxBytes: nat)
    requires maxBytes >= 4 && segStart <= i <= |Encode(s)|
    requires OnLineBreak(Encode(s), segStart) && OnLineBreak(Encode(s), i)
    ensures AllWhole(Pack(Encode(s), segStart, i, maxBytes))
    decreases |Encode(s)| - i
  {
    var bytes := Encode(s);
    if i == |bytes| {
      BetweenBreaks(s, segStart, |bytes|);
      assert bytes[segStart..] == bytes[segStart..|bytes|];
    } else {
      var lineEnd := LineEnd(bytes, i);
      EndsAtBreak(bytes, i);
      EmittedWhole(s, segStart, i, lineEnd, maxBytes);
      PackWhole(s, Pending(segStart, i, lineEnd, maxBytes), lineEnd, maxBytes);
    }
  }

  // ----- Bounding chunks

  datatype Chunk = Chunk(title: string, content: Bytes, contentType: string)

  function WithTitle(pieces: seq<Bytes>, title: string, contentType: string): seq<Chunk> {
    seq(|pieces|, i requires 0 <= i < |pieces| => Chunk(title, pieces[i], contentType))
  }

  function PiecesOf(c: Chunk): seq<Chunk> {
    if |c.content| <= CHUNK_MAX_BYTES then [c]
    else WithTitle(Pack(c.content, 0, 0, CHUNK_MAX_BYTES), c.title, c.contentType)
  }

  /** The results for all chunks, one after the other. */
  function Each(f: Chunk -> seq<Chunk>, chunks: seq<Chunk>): seq<Chunk> {
    if chunks == [] then [] else Each(f, chunks[..|chunks| - 1]) + f(chunks[|chunks| - 1])
  }

  function Bounding(chunks: seq<Chunk>): seq<Chunk> {
    Each(PiecesOf, chunks)
  }

  method BoundChunks(chunks: seq<Chunk>) returns (out: seq<Chunk>)
    ensures out == Bounding(chunks)
  {
    out := [];
    assert chunks[..|chunks|] == chunks;
    for i := 0 to |chunks|
      invariant out == Bounding(chunks[..i])
    {
      assert chunks[..i + 1][..i] == chunks[..i];
      var c := chunks[i];
      if |c.content| <= CHUNK_MAX_BYTES {
        out := out + [c];
        continue;
      }
      var pieces := SplitOnLineBoundaries(c.content, CHUNK_MAX_BYTES);
      out := out + WithTitle(pieces, c.title, c.contentType);
    }
  }

  function Contents(chunks: seq<Chunk>): seq<Bytes> {
    seq(|chunks|, i requires 0 <= i < |chunks| => chunks[i].content)
  }

  lemma PiecesKeepContent(c: Chunk)
    ensures Concat(Contents(PiecesOf(c))) == c.content
  {
    if |c.content| <= CHUNK_MAX_BYTES {
      assert Contents([c]) == [c.content];
      assert Concat([c.content]) == c.content + Concat([]);
    } else {
      assert Contents(PiecesOf(c)) == Pack(c.content, 0, 0, CHUNK_MAX_BYTES);
      PackIs(c.content, 0, 0, CHUNK_MAX_BYTES);
    }
  }

  /** What becomes of one chunk: the same bytes under the same title, in bounded, fairly cut pieces. */
  lemma PiecesOfChunk(c: Chunk)
    ensures Concat(Contents(PiecesOf(c))) == c.content
    ensures forall p <- PiecesOf(c) ::
              p.title == c.title && p.contentType == c.contentType && |p.content| <= CHUNK_MAX_BYTES
    ensures c.content != [] ==> forall p <- PiecesOf(c) :: p.content != []
    ensures c.content != [] ==> Spanning(Fair(c.content, CHUNK_MAX_BYTES), 0, Contents(PiecesOf(c)))
    ensures Whole(c.content) ==> forall p <- PiecesOf(c) :: Whole(p.content)
  {
    PiecesKeepContent(c);
    if |c.content| <= CHUNK_MAX_BYTES {
      assert Contents([c]) == [c.content];
      if c.content != [] {
        SpanningOne(Fair(c.content, CHUNK_MAX_BYTES), 0, c.content);
      }
    } else {
      var pieces := Pack(c.content, 0, 0, CHUNK_MAX_BYTES);
      assert Contents(PiecesOf(c)) == pieces;
      PackIs(c.content, 0, 0, CHUNK_MAX_BYTES);
      PackFair(c.content, 0, 0, CHUNK_MAX_BYTES);
      if Whole(c.content) {
        var s :| Encode(s) == c.content;
        PackWhole(s, 0, 0, CHUNK_MAX_BYTES);
      }
    }
  }

  lemma {:induction false} EachIsBounded(f: Chunk -> seq<Chunk>, chunks: seq<Chunk>)
    requires forall c <- chunks, p <- f(c) :: |p.content| <= CHUNK_MAX_BYTES
    ensures forall p <- Each(f, chunks) :: |p.content| <= CHUNK_MAX_BYTES
  {
    if chunks != [] {
      EachIsBounded(f, chunks[..|chunks| - 1]);
    }
  }

  lemma ConcatContents(a: seq<Chunk>, b: seq<Chunk>)
    ensures Concat(Contents(a + b)) == Concat(Contents(a)) + Concat(Contents(b))
  {
    assert Contents(a + b) == Contents(a) + Contents(b);
    ConcatAppend(Contents(a), Contents(b));
  }

  lemma {:induction false} EachKeepsContent(f: Chunk -> seq<Chunk>, chunks: seq<Chunk>)
    requires forall c <- chunks :: Concat(Contents(f(c))) == c.content
    ensures Concat(Contents(Each(f, chunks))) == Concat(Contents(chunks))
  {
    if chunks == [] {
      assert Contents([]) == [];
    } else {
      var before, last := chunks[..|chunks| - 1], chunks[|chunks| - 1];
      EachKeepsContent(f, before);
      OneMoreChunk(Each(f, before), f(last), before, last);
      assert chunks == before + [last];
    }
  }

  /** Bounding keeps all the content of all the chunks, in order, and bounds every chunk. */
  lemma BoundingKeeps(chunks: seq<Chunk>)
    ensures Concat(Contents(Bounding(chunks))) == Concat(Contents(chunks))
    ensures forall p <- Bounding(chunks) :: |p.content| <= CHUNK_MAX_BYTES
  {
    forall c <- chunks
      ensures Concat(Contents(PiecesOf(c))) == c.content
      ensures forall p <- PiecesOf(c) :: |p.content| <= CHUNK_MAX_BYTES
    {
      PiecesOfChunk(c);
    }
    EachKeepsContent(PiecesOf, chunks);
    EachIsBounded(PiecesOf, chunks);
  }

  lemma OneMoreChunk(done: seq<Chunk>, pieces: seq<Chunk>, before: seq<Chunk>, last: Chunk)
    requires Concat(Contents(done)) == Concat(Contents(before)) && Concat(Contents(pieces)) == last.content
    ensures Concat(Contents(done + pieces)) == Concat(Contents(before + [last]))
  {
    ConcatContents(done, pieces);
    ConcatContents(before, [last]);
    assert Contents([last]) == [last.content];
    ConcatIfAny(last.content);
    assert Concat([last.content]) == last.content + Concat([]);
  }

  lemma {:induction false} EachUnchanged(f: Chunk -> seq<Chunk>, chunks: seq<Chunk>)
    requires forall c <- chunks :: f(c) == [c]
    ensures Each(f, chunks) == chunks
  {
    if chunks != [] {
      EachUnchanged(f, chunks[..|chunks| - 1]);
    }
  }

  /** Bounding twice is bounding once. */
  lemma BoundingIsIdempotent(chunks: seq<Chunk>)
    ensures Bounding(Bounding(chunks)) == Bounding(chunks)
  {
    BoundingKeeps(chunks);
    EachUnchanged(PiecesOf, Bounding(chunks));
  }
}
