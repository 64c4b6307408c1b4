/**
 Rank fusion (`searchOne`, `classCandidates` in internal/db/pg_sources.go; the ordering of the class
 queries in pg_textsearch.go): each tokenizer class contributes its best rows, and what is cut off
 per class could never have made it into the answer.
 */
module Fusion {
  import opened SearchHits
  import opened Relevance

  const RRF_K := 60
  const DEFAULT_SEARCH_LIMIT := 5

  /** A matching row; a smaller score is better. */
  datatype Row = Row(id: nat, title: string, content: string, isCode: bool, sourceLabel: string, matchesAll: bool,
                     score: real)

  datatype Candidate = Candidate(row: Row, rrf: real)

  // ----- One class

  /** `ORDER BY matches_all DESC, score ASC, id ASC`. */
  predicate RowBefore(a: Row, b: Row) {
    if a.matchesAll != b.matchesAll then a.matchesAll else a.score < b.score || (a.score == b.score && a.id < b.id)
  }

  ghost predicate RankedRows(rows: seq<Row>) {
    forall i, j | 0 <= i < j < |rows| :: RowBefore(rows[i], rows[j])
  }

  function Rrf(rank: nat): real {
    1.0 / (RRF_K + rank) as real
  }

  function CandidateAt(rows: seq<Row>, i: nat): Candidate
    requires i < |rows|
  {
    Candidate(rows[i], Rrf(i + 1))
  }

  /** The first `k` rows of a class with their reciprocal ranks. */
  function ClassTop(rows: seq<Row>, k: nat): seq<Candidate> {
    seq(if k < |rows| then k else |rows|, i requires 0 <= i < |rows| => CandidateAt(rows, i))
  }

  method ClassCandidates(rows: seq<Row>, k: nat) returns (cands: seq<Candidate>)
    ensures cands == ClassTop(rows, k)
  {
    var limited := if k < |rows| then rows[..k] else rows;
    cands := [];
    var rank := 0;
    for i := 0 to |limited|
      invariant rank == i && cands == ClassTop(rows, i)
    {
      rank := rank + 1;
      var c := Candidate(limited[i], 1.0 / (RRF_K + rank) as real);
      cands := cands + [c];
    }
  }

  lemma RrfDecreases(m: nat, n: nat)
    requires m < n
    ensures Rrf(m) > Rrf(n)
  {
    Reciprocals((RRF_K + m) as real, (RRF_K + n) as real);
  }

  lemma Reciprocals(x: real, y: real)
    requires 0.0 < x < y
    ensures 1.0 / x > 1.0 / y
  {
    assert 1.0 / x - 1.0 / y == (y - x) / (x * y);
  }

  // ----- The fused order

  /** AND-matches first, then by reciprocal rank, then by id. */
  predicate Before(a: Candidate, b: Candidate) {
    if a.row.matchesAll != b.row.matchesAll then a.row.matchesAll
    else if a.rrf != b.rrf then a.rrf > b.rrf
    else a.row.id < b.row.id
  }

  ghost predicate Sorted(s: seq<Candidate>) {
    forall i, j | 0 <= i < j < |s| :: Before(s[i], s[j])
  }

  ghost predicate DistinctIds(s: seq<Candidate>) {
    forall i, j | 0 <= i < j < |s| :: s[i].row.id != s[j].row.id
  }

  function Inserted(s: seq<Candidate>, c: Candidate): seq<Candidate> {
    if s == [] || Before(s[|s| - 1], c) then s + [c] else Inserted(s[..|s| - 1], c) + [s[|s| - 1]]
  }

  function Sort(s: seq<Candidate>): seq<Candidate> {
    if s == [] then [] else Inserted(Sort(s[..|s| - 1]), s[|s| - 1])
  }

  lemma {:induction false} InsertedAre(s: seq<Candidate>, c: Candidate)
    ensures |Inserted(s, c)| == |s| + 1 && forall x :: x in Inserted(s, c) <==> x in s || x == c
  {
    if s != [] && !Before(s[|s| - 1], c) {
      var n := |s| - 1;
      InsertedAre(s[..n], c);
      assert s == s[..n] + [s[n]];
    }
  }

  lemma SortedSnoc(s: seq<Candidate>, last: Candidate)
    requires Sorted(s) && forall x <- s :: Before(x, last)
    ensures Sorted(s + [last])
  {
  }

  lemma BeforeIsTransitive(a: Candidate, b: Candidate, c: Candidate)
    requires Before(a, b) && Before(b, c)
    ensures Before(a, c)
  {
  }

  lemma BehindAll(s: seq<Candidate>, c: Candidate)
    requires Sorted(s) && s != [] && Before(s[|s| - 1], c)
    ensures forall x <- s :: Before(x, c)
  {
    forall i | 0 <= i < |s|
      ensures Before(s[i], c)
    {
      if i < |s| - 1 {
        BeforeIsTransitive(s[i], s[|s| - 1], c);
      }
    }
  }

  lemma {:induction false} InsertedIs(s: seq<Candidate>, c: Candidate)
    requires Sorted(s) && forall x <- s :: x.row.id != c.row.id
    ensures Sorted(Inserted(s, c))
  {
    if s == [] {
    } else if Before(s[|s| - 1], c) {
      BehindAll(s, c);
      SortedSnoc(s, c);
    } else {
      var rest, last := s[..|s| - 1], s[|s| - 1];
      assert forall x <- rest :: Before(x, last);
      InsertedIs(rest, c);
      InsertedAre(rest, c);
      assert last in s;
      SortedSnoc(Inserted(rest, c), last);
    }
  }

  lemma {:induction false} SortIs(s: seq<Candidate>)
    requires DistinctIds(s)
    ensures Sorted(Sort(s)) && |Sort(s)| == |s| && forall x :: x in Sort(s) <==> x in s
  {
    if s != [] {
      var n := |s| - 1;
      SortIs(s[..n]);
      assert s == s[..n] + [s[n]];
      InsertedIs(Sort(s[..n]), s[n]);
      InsertedAre(Sort(s[..n]), s[n]);
    }
  }

  method SortFused(s: seq<Candidate>) returns (sorted: seq<Candidate>)
    ensures sorted == Sort(s)
  {
    sorted := [];
    assert s[..|s|] == s;
    for i := 0 to |s|
      invariant sorted == Sort(s[..i])
    {
      assert s[..i + 1][..i] == s[..i];
      sorted := Inserted(sorted, s[i]);
    }
  }

  /** Each class's first `k`, class after class. */
  function AllTop(classes: seq<seq<Row>>, k: nat): seq<Candidate> {
    if classes == [] then [] else AllTop(classes[..|classes| - 1], k) + ClassTop(classes[|classes| - 1], k)
  }

  function Longest(classes: seq<seq<Row>>): nat {
    if classes == [] then 0
    else
      var before, last := Longest(classes[..|classes| - 1]), |classes[|classes| - 1]|;
      if last > before then last else before
  }

  /** The fusion of the complete rankings. */
  function FullFusion(classes: seq<seq<Row>>): seq<Candidate> {
    Sort(AllTop(classes, Longest(classes)))
  }

  function Top(s: seq<Candidate>, limit: nat): seq<Candidate> {
    if limit < |s| then s[..limit] else s
  }

  // ----- Who is in

  ghost predicate IsAt(classes: seq<seq<Row>>, x: Candidate, c: nat, i: nat) {
    c < |classes| && i < |classes[c]| && x == CandidateAt(classes[c], i)
  }

  /** Rankings of disjoint classes: every class in order, no id twice. */
  ghost predicate Rankings(classes: seq<seq<Row>>) {
    && (forall c | 0 <= c < |classes| :: RankedRows(classes[c]))
    && forall c, i, d, j | 0 <= c < |classes| && 0 <= i < |classes[c]| && 0 <= d < |classes| && 0 <= j < |classes[d]|
         && classes[c][i].id == classes[d][j].id :: c == d && i == j
  }

  lemma {:induction false} InAllTop(classes: seq<seq<Row>>, k: nat, x: Candidate)
    ensures x in AllTop(classes, k) <==> exists c: nat, i: nat :: i < k && IsAt(classes, x, c, i)
  {
    if classes != [] {
      var n := |classes| - 1;
      InAllTop(classes[..n], k, x);
      if x in AllTop(classes[..n], k) {
        var c: nat, i: nat :| i < k && IsAt(classes[..n], x, c, i);
        assert IsAt(classes, x, c, i);
      }
      if x in ClassTop(classes[n], k) {
        var i: nat :| i < |ClassTop(classes[n], k)| && ClassTop(classes[n], k)[i] == x;
        assert IsAt(classes, x, n, i);
      }
      if c: nat, i: nat :| i < k && IsAt(classes, x, c, i) {
        if c < n {
          assert IsAt(classes[..n], x, c, i);
        } else {
          assert ClassTop(classes[n], k)[i] == x;
        }
      }
    }
  }

  lemma {:induction false} AllTopDistinct(classes: seq<seq<Row>>, k: nat)
    requires Rankings(classes)
    ensures DistinctIds(AllTop(classes, k))
  {
    if classes != [] {
      var n := |classes| - 1;
      assert Rankings(classes[..n]);
      AllTopDistinct(classes[..n], k);
      var before, last := AllTop(classes[..n], k), ClassTop(classes[n], k);
      forall i, j | 0 <= i < |before| && 0 <= j < |last|
        ensures before[i].row.id != last[j].row.id
      {
        InAllTop(classes[..n], k, before[i]);
        var c: nat, r: nat :| r < k && IsAt(classes[..n], before[i], c, r);
        assert classes[c][r].id == before[i].row.id && classes[n][j].id == last[j].row.id;
      }
    }
  }

  lemma {:induction false} LongestIs(classes: seq<seq<Row>>, c: nat)
    requires c < |classes|
    ensures |classes[c]| <= Longest(classes)
  {
    if c < |classes| - 1 {
      LongestIs(classes[..|classes| - 1], c);
    }
  }

  lemma FullFusionIs(classes: seq<seq<Row>>)
    requires Rankings(classes)
    ensures Sorted(FullFusion(classes))
    ensures forall x :: x in FullFusion(classes) <==> exists c: nat, i: nat :: IsAt(classes, x, c, i)
  {
    var k := Longest(classes);
    AllTopDistinct(classes, k);
    SortIs(AllTop(classes, k));
    forall x
      ensures x in FullFusion(classes) <==> exists c: nat, i: nat :: IsAt(classes, x, c, i)
    {
      InAllTop(classes, k, x);
      if c: nat, i: nat :| IsAt(classes, x, c, i) {
        LongestIs(classes, c);
        assert i < k;
      }
    }
  }

  // ----- Truncation is harmless

  /** Better placed within a class is better placed in the fusion. */
  lemma ClassOrderIsKept(classes: seq<seq<Row>>, c: nat, i: nat, j: nat)
    requires Rankings(classes) && c < |classes| && i < j < |classes[c]|
    ensures Before(CandidateAt(classes[c], i), CandidateAt(classes[c], j))
  {
    assert RowBefore(classes[c][i], classes[c][j]);
    RrfDecreases(i + 1, j + 1);
  }

  lemma SortedAt(s: seq<Candidate>, i: int, j: int)
    requires Sorted(s)
    ensures 0 <= i < j < |s| ==> Before(s[i], s[j])
  {
  }

  lemma PlaceInSorted(s: seq<Candidate>, x: Candidate, i: nat)
    requires Sorted(s) && x in s && i < |s| && Before(x, s[i])
    ensures x in s[..i]
  {
    var j :| 0 <= j < |s| && s[j] == x;
    SortedAt(s, i, j);
  }

  /** The first `r` of a class are `r` different candidates. */
  lemma {:induction false} ManyDifferent(rows: seq<Row>, r: nat) returns (firsts: set<Candidate>)
    requires r <= |rows| && forall i, j | 0 <= i < j < |rows| :: rows[i].id != rows[j].id
    ensures |firsts| == r && forall x :: x in firsts <==> exists i: nat :: i < r && x == CandidateAt(rows, i)
  {
    if r == 0 {
      firsts := {};
    } else {
      firsts := ManyDifferent(rows, r - 1);
      var x := CandidateAt(rows, r - 1);
      assert x !in firsts;
      firsts := firsts + {x};
      assert forall y :: y in firsts ==> exists i: nat :: i < r && y == CandidateAt(rows, i);
    }
  }

  lemma {:induction false} FewInPrefix(s: seq<Candidate>, firsts: set<Candidate>)
    requires forall x <- firsts :: x in s
    ensures |firsts| <= |s|
  {
    if s != [] {
      var n := |s| - 1;
      FewInPrefix(s[..n], firsts - {s[n]});
    } else {
      assert forall x :: x !in firsts;
    }
  }

  lemma {:induction false} AsSet(s: seq<Candidate>) returns (all: set<Candidate>)
    requires Sorted(s)
    ensures |all| == |s| && forall x :: x in all <==> x in s
  {
    if s == [] {
      all := {};
    } else {
      var n := |s| - 1;
      all := AsSet(s[..n]);
      forall i | 0 <= i < n
        ensures s[i] != s[n]
      {
        SortedAt(s, i, n);
      }
      all := all + {s[n]};
      assert s == s[..n] + [s[n]];
    }
  }

  /** A candidate's place in the fusion is no better than its place in its class. */
  lemma RankAtMostPlace(classes: seq<seq<Row>>, p: nat, c: nat, r: nat)
    requires Rankings(classes) && p < |FullFusion(classes)| && IsAt(classes, FullFusion(classes)[p], c, r)
    ensures r <= p
  {
    var full, rows := FullFusion(classes), classes[c];
    FullFusionIs(classes);
    var firsts := ManyDifferent(rows, r);
    forall x <- firsts
      ensures x in full[..p]
    {
      var i: nat :| i < r && x == CandidateAt(rows, i);
      assert IsAt(classes, x, c, i);
      ClassOrderIsKept(classes, c, i, r);
      PlaceInSorted(full, x, p);
    }
    FewInPrefix(full[..p], firsts);
  }

  /** A sorted selection that has the best of a sorted list starts with them. */
  lemma {:induction false} SameTop(full: seq<Candidate>, part: seq<Candidate>, m: nat)
    requires Sorted(full) && Sorted(part) && m <= |full|
    requires (forall x <- part :: x in full) && forall i | 0 <= i < m :: full[i] in part
    ensures m <= |part| && part[..m] == full[..m]
  {
    if m > 0 {
      var n := m - 1;
      SameTop(full, part, n);
      var j :| 0 <= j < |part| && part[j] == full[n];
      assert forall i | 0 <= i < n :: part[i] == part[..n][i] && full[i] == full[..n][i];
      SortedAt(full, j, n);
      assert part[n] in part;
      var p :| 0 <= p < |full| && full[p] == part[n];
      SortedAt(part, p, n);
      SortedAt(full, n, p);
      SortedAt(part, n, j);
      assert part[..m] == part[..n] + [part[n]] && full[..m] == full[..n] + [full[n]];
    }
  }

  /**
   Fusing only each class's first `k` gives the same best `limit` as fusing everything, if `k` is at least `limit`.
   */
  lemma TruncationIsHarmless(classes: seq<seq<Row>>, limit: nat, k: nat)
    requires Rankings(classes) && limit <= k
    ensures Top(Sort(AllTop(classes, k)), limit) == Top(FullFusion(classes), limit)
  {
    var full, part := FullFusion(classes), Sort(AllTop(classes, k));
    FullFusionIs(classes);
    AllTopDistinct(classes, k);
    SortIs(AllTop(classes, k));
    var m := if limit < |full| then limit else |full|;
    forall x <- part
      ensures x in full
    {
      InAllTop(classes, k, x);
      var c: nat, i: nat :| i < k && IsAt(classes, x, c, i);
      assert IsAt(classes, x, c, i);
    }
    forall p | 0 <= p < m
      ensures full[p] in part
    {
      assert full[p] in full;
      var c: nat, r: nat :| IsAt(classes, full[p], c, r);
      RankAtMostPlace(classes, p, c, r);
      InAllTop(classes, k, full[p]);
    }
    SameTop(full, part, m);
    NoMoreThan(full, part, m, limit);
  }

  lemma NoMoreThan(full: seq<Candidate>, part: seq<Candidate>, m: nat, limit: nat)
    requires Sorted(full) && Sorted(part) && (forall x <- part :: x in full)
    requires m == (if limit < |full| then limit else |full|) && m <= |part| && part[..m] == full[..m]
    ensures Top(part, limit) == Top(full, limit)
  {
    if limit >= |full| {
      var all := AsSet(part);
      FewInPrefix(full, all);
      assert part[..m] == part && full[..m] == full;
    }
  }

  /**
   Where two rows stand in the fusion: those that match all terms first; of two alike, the one placed
   better in its own class; of two placed alike, the one with the lower id.
   */
  lemma FusedOrder(classes: seq<seq<Row>>, i: nat, j: nat, c: nat, r: nat, d: nat, t: nat)
    requires Rankings(classes) && i < |FullFusion(classes)| && j < |FullFusion(classes)| && i != j
    requires IsAt(classes, FullFusion(classes)[i], c, r) && IsAt(classes, FullFusion(classes)[j], d, t)
    ensures var x, y := classes[c][r], classes[d][t];
            i < j <==> if x.matchesAll != y.matchesAll then x.matchesAll else r < t || (r == t && x.id < y.id)
  {
    var full := FullFusion(classes);
    FullFusionIs(classes);
    if r < t {
      RrfDecreases(r + 1, t + 1);
    } else if t < r {
      RrfDecreases(t + 1, r + 1);
    }
    if i < j {
      SortedAt(full, i, j);
    } else {
      SortedAt(full, j, i);
    }
  }

  /** AND-matches come first in any fusion. */
  lemma AndMatchesFirst(s: seq<Candidate>, i: nat, j: nat)
    requires Sorted(s) && i < |s| && j < |s| && s[i].row.matchesAll && !s[j].row.matchesAll
    ensures i < j
  {
    SortedAt(s, j, i);
  }

  // ----- The search

  datatype TrigramRow = TrigramRow(id: nat, title: string, content: string, isCode: bool, sourceLabel: string,
                                   relevance: real)

  type Excerpt = (string, bool) -> string

  function PrimaryHit(c: Candidate, excerpt: Excerpt): SearchHit {
    SearchHit(c.row.title, excerpt(c.row.content, c.row.isCode), c.row.sourceLabel, Primary, false, -c.row.score,
      c.row.matchesAll)
  }

  function TrigramHit(row: TrigramRow, excerpt: Excerpt): SearchHit {
    SearchHit(row.title, excerpt(row.content, row.isCode), row.sourceLabel, Trigram, false, row.relevance, false)
  }

  function PrimaryHits(cands: seq<Candidate>, excerpt: Excerpt): seq<SearchHit> {
    seq(|cands|, i requires 0 <= i < |cands| => PrimaryHit(cands[i], excerpt))
  }

  /** The first `n` substring matches that are not among the excluded. */
  function Substrings(rows: seq<TrigramRow>, excluded: seq<nat>, n: nat, excerpt: Excerpt): seq<SearchHit> {
    if rows == [] || n == 0 then []
    else if rows[0].id in excluded then Substrings(rows[1..], excluded, n, excerpt)
    else [TrigramHit(rows[0], excerpt)] + Substrings(rows[1..], excluded, n - 1, excerpt)
  }

  /** The best matches, topped up with substring matches. */
  function Found(best: seq<Candidate>, trigrams: seq<TrigramRow>, limit: nat, excerpt: Excerpt): seq<SearchHit> {
    if |best| < limit then PrimaryHits(best, excerpt) + Substrings(trigrams, Ids(best), limit - |best|, excerpt)
    else PrimaryHits(best, excerpt)
  }

  function Ids(cands: seq<Candidate>): seq<nat> {
    seq(|cands|, i requires 0 <= i < |cands| => cands[i].row.id)
  }

  method FuseClasses(classes: seq<seq<Row>>, limit: nat) returns (fused: seq<Candidate>)
    requires Rankings(classes)
    ensures fused == Top(FullFusion(classes), limit)
  {
    fused := [];
    assert classes[..|classes|] == classes;
    for c := 0 to |classes|
      invariant fused == AllTop(classes[..c], 2 * limit)
    {
      assert classes[..c + 1][..c] == classes[..c];
      var cands := ClassCandidates(classes[c], 2 * limit);
      fused := fused + cands;
    }
    fused := SortFused(fused);
    TruncationIsHarmless(classes, limit, 2 * limit);
    if |fused| > limit {
      fused := fused[..limit];
    }
  }

  method AssembleHits(fused: seq<Candidate>, excerpt: Excerpt) returns (hits: seq<SearchHit>)
    ensures hits == PrimaryHits(fused, excerpt)
  {
    hits := [];
    for i := 0 to |fused|
      invariant hits == PrimaryHits(fused[..i], excerpt)
    {
      hits := hits + [PrimaryHit(fused[i], excerpt)];
    }
    assert fused[..|fused|] == fused;
  }

  method SearchOne(classes: seq<seq<Row>>, trigrams: seq<TrigramRow>, limit: nat, excerpt: Excerpt)
    returns (hits: seq<SearchHit>)
    requires Rankings(classes)
    ensures hits == Found(Top(FullFusion(classes), limit), trigrams, limit, excerpt)
  {
    var fused := FuseClasses(classes, limit);
    hits := AssembleHits(fused, excerpt);
    if |hits| < limit {
      hits := hits + Substrings(trigrams, Ids(fused), limit - |hits|, excerpt);
    }
  }

  lemma {:induction false} SubstringsAre(rows: seq<TrigramRow>, excluded: seq<nat>, n: nat, excerpt: Excerpt)
    ensures |Substrings(rows, excluded, n, excerpt)| <= n
    ensures forall h <- Substrings(rows, excluded, n, excerpt) :: InGroup(h, SUBSTRINGS)
  {
    if rows != [] && n > 0 {
      SubstringsAre(rows[1..], excluded, if rows[0].id in excluded then n else n - 1, excerpt);
    }
  }

  /** The rows that are not excluded, in their order. */
  function Eligible(rows: seq<TrigramRow>, excluded: seq<nat>): seq<TrigramRow> {
    if rows == [] then []
    else
      var before, last := Eligible(rows[..|rows| - 1], excluded), rows[|rows| - 1];
      if last.id in excluded then before else before + [last]
  }

  lemma {:induction false} EligibleFront(rows: seq<TrigramRow>, excluded: seq<nat>)
    requires rows != []
    ensures Eligible(rows, excluded)
            == if rows[0].id in excluded then Eligible(rows[1..], excluded)
              else [rows[0]] + Eligible(rows[1..], excluded)
  {
    var n := |rows| - 1;
    if n > 0 {
      EligibleFront(rows[..n], excluded);
      assert rows[..n][1..] == rows[1..][..n - 1] && rows[1..][n - 1] == rows[n];
    } else {
      assert rows[..0] == [] && rows[1..] == [];
    }
  }

  lemma {:induction false} EligibleAre(rows: seq<TrigramRow>, excluded: seq<nat>)
    ensures forall row :: row in Eligible(rows, excluded) <==> row in rows && row.id !in excluded
  {
    if rows != [] {
      EligibleAre(rows[..|rows| - 1], excluded);
      assert rows == rows[..|rows| - 1] + [rows[|rows| - 1]];
    }
  }

  /** A substring hit shows its row. */
  ghost predicate ShowsTrigram(h: SearchHit, row: TrigramRow, excerpt: Excerpt) {
    && h.title == row.title && h.snippet == excerpt(row.content, row.isCode) && h.source == row.sourceLabel
    && h.layer == Trigram && h.relevance == row.relevance && !h.matchesAll && !h.truncated
  }

  /** A primary hit shows its row; the smaller the score, the more relevant. */
  ghost predicate ShowsRow(h: SearchHit, row: Row, excerpt: Excerpt) {
    && h.title == row.title && h.snippet == excerpt(row.content, row.isCode) && h.source == row.sourceLabel
    && h.layer == Primary && h.relevance == -row.score && h.matchesAll == row.matchesAll && !h.truncated
  }

  /** The top-up: the first eligible rows, as many as there is room for, each shown once and in order. */
  lemma {:induction false} SubstringsShow(rows: seq<TrigramRow>, excluded: seq<nat>, n: nat, excerpt: Excerpt)
    ensures var hits, eligible := Substrings(rows, excluded, n, excerpt), Eligible(rows, excluded);
            && |hits| == (if n < |eligible| then n else |eligible|)
            && forall i | 0 <= i < |hits| :: ShowsTrigram(hits[i], eligible[i], excerpt)
  {
    if rows != [] && n > 0 {
      EligibleFront(rows, excluded);
      SubstringsShow(rows[1..], excluded, if rows[0].id in excluded then n else n - 1, excerpt);
    }
  }

  /**
   What a search finds: the best rows first, each shown as it is; then, as far as there is room,
   substring matches among the other chunks.
   */
  lemma FoundShows(best: seq<Candidate>, trigrams: seq<TrigramRow>, limit: nat, excerpt: Excerpt)
    requires |best| <= limit
    ensures var hits, others := Found(best, trigrams, limit, excerpt), Eligible(trigrams, Ids(best));
            && |hits| == (if limit < |best| + |others| then limit else |best| + |others|)
            && (forall i | 0 <= i < |best| :: ShowsRow(hits[i], best[i].row, excerpt))
            && (forall i | |best| <= i < |hits| :: ShowsTrigram(hits[i], others[i - |best|], excerpt))
  {
    SubstringsShow(trigrams, Ids(best), limit - |best|, excerpt);
    PrimaryShow(best, excerpt);
    var primary, others := PrimaryHits(best, excerpt), Substrings(trigrams, Ids(best), limit - |best|, excerpt);
    if |best| < limit {
      forall i | |best| <= i < |primary + others|
        ensures ShowsTrigram((primary + others)[i], Eligible(trigrams, Ids(best))[i - |best|], excerpt)
      {
        assert (primary + others)[i] == others[i - |best|];
      }
    }
  }

  lemma PrimaryShow(best: seq<Candidate>, excerpt: Excerpt)
    ensures var hits := PrimaryHits(best, excerpt);
            |hits| == |best| && forall i | 0 <= i < |hits| :: ShowsRow(hits[i], best[i].row, excerpt)
  {
  }

  /** The chunks that top up an answer are none of those it already has. */
  lemma NoChunkTwice(best: seq<Candidate>, trigrams: seq<TrigramRow>)
    ensures forall row <- Eligible(trigrams, Ids(best)), c <- best :: row.id != c.row.id
  {
    EligibleAre(trigrams, Ids(best));
    forall row <- Eligible(trigrams, Ids(best)), c <- best
      ensures row.id != c.row.id
    {
      var i :| 0 <= i < |best| && best[i] == c;
      assert Ids(best)[i] == c.row.id;
    }
  }

  /** Every hit belongs to one of the ranked groups, and there are no more than asked for. */
  lemma EveryHitIsRanked(best: seq<Candidate>, trigrams: seq<TrigramRow>, limit: nat, excerpt: Excerpt)
    requires |best| <= limit
    ensures var hits := Found(best, trigrams, limit, excerpt);
            |hits| <= limit && forall h <- hits :: Ranked(h)
  {
    SubstringsAre(trigrams, Ids(best), limit - |best|, excerpt);
  }
}
