/**
 Document-order paging (internal/search/documentorder.go over ChunksInOrder of
 internal/db/pg_sources.go): one page at a time within a byte budget, and what following the
 cursors shows in the end.
 */
module Paging {
  import opened Arithmetic
  import opened Wrappers
  import opened SearchHits
  import opened Utf8
  import opened Wire
  import opened Chunking

  datatype DocChunk = DocChunk(title: string, content: string, source: string)

  const DEFAULT_SEARCH_LIMIT := 5
  const MIN_HIT := 62

  function FullHit(ch: DocChunk): SearchHit {
    SearchHit(ch.title, ch.content, ch.source, Document, false, 0.0, false)
  }

  function Prefix(ch: DocChunk, n: nat): SearchHit
    requires n <= |ch.content|
  {
    SearchHit(ch.title, ch.content[..n], ch.source, Document, true, 0.0, false)
  }

  // ----- Fetching

  datatype Rows = Rows(chunks: seq<DocChunk>, hasMore: bool)

  /** A page of rows, and whether there are more: one row beyond the limit is asked for. */
  function RowsFrom(all: seq<DocChunk>, limit: nat, offset: nat): Rows {
    var from := Min(offset, |all|);
    var upTo := Min(offset + limit, |all|);
    Rows(all[from..upTo], offset + limit < |all|)
  }

  method ChunksInOrder(all: seq<DocChunk>, limit: int, offset: int) returns (rows: Option<Rows>)
    ensures rows.None? <==> limit < 0 || offset < 0
    ensures rows.Some? ==> rows.value == RowsFrom(all, if limit == 0 then DEFAULT_SEARCH_LIMIT else limit, offset)
  {
    if limit < 0 || offset < 0 {
      return None;
    }
    var effective := if limit == 0 then DEFAULT_SEARCH_LIMIT else limit;
    var from := Min(offset, |all|);
    var out := all[from..Min(offset + effective + 1, |all|)];
    var hasMore := |out| > effective;
    if hasMore {
      out := out[..effective];
    }
    return Some(Rows(out, hasMore));
  }

  // ----- The longest fitting prefix

  /** The largest prefix, up to `n` runes, that fits with its marker; 0 if none does. */
  function LongestFit(ch: DocChunk, budget: int, n: nat): (best: nat)
    requires n <= |ch.content|
    ensures best <= n
  {
    if n == 0 || WireSize(Prefix(ch, n)) <= budget then n else LongestFit(ch, budget, n - 1)
  }

  lemma {:induction false} LongestFitIs(ch: DocChunk, budget: int, n: nat, best: nat)
    requires best <= n <= |ch.content| && (best > 0 ==> WireSize(Prefix(ch, best)) <= budget)
    requires forall k | best < k <= n :: WireSize(Prefix(ch, k)) > budget
    ensures LongestFit(ch, budget, n) == best
  {
    if best < n {
      LongestFitIs(ch, budget, n - 1, best);
    }
  }

  lemma {:induction false} LongestFits(ch: DocChunk, budget: int, n: nat)
    requires n <= |ch.content|
    ensures var best := LongestFit(ch, budget, n);
            && (best > 0 ==> WireSize(Prefix(ch, best)) <= budget)
            && forall k | best < k <= n :: WireSize(Prefix(ch, k)) > budget
  {
    if n > 0 && WireSize(Prefix(ch, n)) > budget {
      LongestFits(ch, budget, n - 1);
    }
  }

  lemma ShorterIsSmaller(ch: DocChunk, n: nat, m: nat)
    requires n <= m <= |ch.content|
    ensures WireSize(Prefix(ch, n)) <= WireSize(Prefix(ch, m))
  {
    PrefixesGrow(ch.content, n, m);
  }

  /** Binary search, justified by the sizes growing with the prefix. */
  method TruncatedDocHit(ch: DocChunk, budget: int) returns (hit: Option<SearchHit>)
    ensures var best := LongestFit(ch, budget, |ch.content|);
            hit == if best == 0 then None else Some(Prefix(ch, best))
  {
    var lo: int, hi: int, best: int := 1, |ch.content|, 0;
    while lo <= hi
      invariant 0 <= best == lo - 1 <= hi <= |ch.content|
      invariant best > 0 ==> WireSize(Prefix(ch, best)) <= budget
      invariant forall k | hi < k <= |ch.content| :: WireSize(Prefix(ch, k)) > budget
    {
      var mid := (lo + hi) / 2;
      if WireSize(Prefix(ch, mid)) <= budget {
        best, lo := mid, mid + 1;
      } else {
        forall k | mid < k <= |ch.content|
          ensures WireSize(Prefix(ch, k)) > budget
        {
          ShorterIsSmaller(ch, mid, k);
        }
        hi := mid - 1;
      }
    }
    LongestFitIs(ch, budget, |ch.content|, best);
    if best < 1 {
      return None;
    }
    return Some(Prefix(ch, best));
  }

  // ----- A page

  datatype Page = Page(hits: seq<SearchHit>, used: nat, budgetOmitted: nat, budgetExceeded: bool,
                       nextOffset: Option<nat>)

  function Sum(sizes: seq<nat>): nat {
    if sizes == [] then 0 else Sum(sizes[..|sizes| - 1]) + sizes[|sizes| - 1]
  }

  function HitSizes(hits: seq<SearchHit>): seq<nat> {
    seq(|hits|, i requires 0 <= i < |hits| => WireSize(hits[i]))
  }

  function FullHits(chunks: seq<DocChunk>): seq<SearchHit> {
    seq(|chunks|, i requires 0 <= i < |chunks| => FullHit(chunks[i]))
  }

  /** What the chunks take on the wire, each by itself. */
  function Sizes(chunks: seq<DocChunk>): seq<nat> {
    HitSizes(FullHits(chunks))
  }

  /** How many leading ones fit together. */
  function FitCount(sizes: seq<nat>, budget: int): (k: nat)
    ensures k <= |sizes|
  {
    if sizes == [] then 0
    else
      var n := |sizes| - 1;
      var k := FitCount(sizes[..n], budget);
      if k == n && Sum(sizes) <= budget then |sizes| else k
  }

  lemma SumNext(sizes: seq<nat>, k: nat)
    requires k < |sizes|
    ensures Sum(sizes[..k + 1]) == Sum(sizes[..k]) + sizes[k]
  {
    assert sizes[..k + 1][..k] == sizes[..k];
  }

  lemma {:induction false} SumPrefix(sizes: seq<nat>, j: nat, k: nat)
    requires j <= k <= |sizes|
    ensures Sum(sizes[..j]) <= Sum(sizes[..k])
  {
    if j < k {
      SumPrefix(sizes, j, k - 1);
      SumNext(sizes, k - 1);
    }
  }

  lemma {:induction false} SumAtLeast(sizes: seq<nat>)
    requires forall i | 0 <= i < |sizes| :: sizes[i] >= MIN_HIT
    ensures Sum(sizes) >= MIN_HIT * |sizes|
    ensures forall i | 0 <= i < |sizes| :: sizes[i] <= Sum(sizes)
  {
    if sizes != [] {
      SumAtLeast(sizes[..|sizes| - 1]);
    }
  }

  lemma {:induction false} FitCountFits(sizes: seq<nat>, budget: int)
    requires budget >= 0
    ensures var k := FitCount(sizes, budget);
            Sum(sizes[..k]) <= budget && (k < |sizes| ==> Sum(sizes[..k]) + sizes[k] > budget)
  {
    if sizes != [] {
      var n, k := |sizes| - 1, FitCount(sizes[..|sizes| - 1], budget);
      FitCountFits(sizes[..n], budget);
      assert sizes[..n][..k] == sizes[..k] && sizes[..|sizes|] == sizes;
    }
  }

  lemma FitCountIs(sizes: seq<nat>, budget: int, k: nat)
    requires budget >= 0 && k <= |sizes| && Sum(sizes[..k]) <= budget
    requires k < |sizes| ==> Sum(sizes[..k]) + sizes[k] > budget
    ensures FitCount(sizes, budget) == k
  {
    var j := FitCount(sizes, budget);
    FitCountFits(sizes, budget);
    if j < k {
      SumNext(sizes, j);
      SumPrefix(sizes, j + 1, k);
    } else if k < j {
      SumNext(sizes, k);
      SumPrefix(sizes, k + 1, j);
    }
  }

  /** Without a limit, one row more than could ever fit is fetched. */
  function FetchLimit(limit: int, budget: int): nat
    requires budget > 0
  {
    if limit > 0 then limit else budget / MIN_HIT + 1
  }

  function CursorIf(more: bool, offset: nat): Option<nat> {
    if more then Some(offset) else None
  }

  /** The hits of a page and why it ended. */
  datatype Assembly = Assembly(hits: seq<SearchHit>, used: nat, end: PageEnd)

  datatype PageEnd = AllFit | NextOmitted | HeadTruncated | HeadNoFit

  /** The leading chunks that fit; if not even the first does, the longest prefix of it. */
  function Assembled(chunks: seq<DocChunk>, budget: int): Assembly
    requires budget > 0
  {
    var k := FitCount(Sizes(chunks), budget);
    if k == |chunks| then Assembly(FullHits(chunks), Sum(Sizes(chunks)), AllFit)
    else if k > 0 then Assembly(FullHits(chunks)[..k], Sum(Sizes(chunks)[..k]), NextOmitted)
    else
      var n := LongestFit(chunks[0], budget, |chunks[0].content|);
      if n == 0 then Assembly([], 0, HeadNoFit)
      else Assembly([Prefix(chunks[0], n)], WireSize(Prefix(chunks[0], n)), HeadTruncated)
  }

  function PageFrom(rows: Rows, a: Assembly, offset: nat): Page {
    var more := match a.end
                case HeadNoFit => true
                case HeadTruncated => |rows.chunks| > 1 || rows.hasMore
                case NextOmitted => true
                case AllFit => rows.hasMore;
    var omitted := if a.end.NextOmitted? || a.end.HeadNoFit? then 1 else 0;
    Page(a.hits, a.used, omitted, !a.end.AllFit?, CursorIf(more, offset + |a.hits|))
  }

  function DocPage(all: seq<DocChunk>, limit: int, offset: nat, budget: int): Page
    requires budget > 0
  {
    var rows := RowsFrom(all, FetchLimit(limit, budget), offset);
    PageFrom(rows, Assembled(rows.chunks, budget), offset)
  }

  lemma Takes(chunks: seq<DocChunk>, k: nat)
    requires k < |chunks|
    ensures Sizes(chunks)[k] == WireSize(FullHit(chunks[k]))
    ensures Sum(Sizes(chunks)[..k + 1]) == Sum(Sizes(chunks)[..k]) + Sizes(chunks)[k]
    ensures FullHits(chunks)[..k + 1] == FullHits(chunks)[..k] + [FullHit(chunks[k])]
  {
    SumNext(Sizes(chunks), k);
  }

  /** Where the next chunk does not fit any more, the page ends. */
  lemma StopsHere(chunks: seq<DocChunk>, budget: int, k: nat)
    requires budget > 0 && k < |chunks|
    requires Sum(Sizes(chunks)[..k]) <= budget < Sum(Sizes(chunks)[..k]) + Sizes(chunks)[k]
    ensures var n := LongestFit(chunks[0], budget, |chunks[0].content|);
            Assembled(chunks, budget) ==
              if k > 0 then Assembly(FullHits(chunks)[..k], Sum(Sizes(chunks)[..k]), NextOmitted)
              else if n == 0 then Assembly([], 0, HeadNoFit)
              else Assembly([Prefix(chunks[0], n)], WireSize(Prefix(chunks[0], n)), HeadTruncated)
  {
    FitCountIs(Sizes(chunks), budget, k);
  }

  method Assemble(chunks: seq<DocChunk>, budget: int)
    returns (hits: seq<SearchHit>, used: int, consumed: nat, budgetOmitted: nat, budgetExceeded: bool,
      headTruncated: bool, headNoFit: bool)
    requires budget > 0
    ensures var a := Assembled(chunks, budget);
            && hits == a.hits && used == a.used && consumed == |a.hits|
            && Flags(a.end, budgetOmitted, budgetExceeded, headTruncated, headNoFit)
  {
    hits, used, consumed, budgetOmitted := [], 0, 0, 0;
    budgetExceeded, headTruncated, headNoFit := false, false, false;
    ghost var sizes := Sizes(chunks);
    while consumed < |chunks|
      invariant consumed <= |chunks| && hits == FullHits(chunks)[..consumed]
      invariant 0 <= used == Sum(sizes[..consumed]) <= budget
      invariant budgetOmitted == 0 && !budgetExceeded && !headTruncated && !headNoFit
      decreases |chunks| - consumed
    {
      var ch := chunks[consumed];
      var hit := FullHit(ch);
      var size := WireSize(hit);
      Takes(chunks, consumed);
      if used + size <= budget {
        hits := hits + [hit];
        used := used + size;
        consumed := consumed + 1;
        continue;
      }
      StopsHere(chunks, budget, consumed);
      if |hits| == 0 {
        var th := TruncatedDocHit(ch, budget);
        if th.Some? {
          hits := hits + [th.value];
          used := used + WireSize(th.value);
          consumed := consumed + 1;
          headTruncated := true;
        } else {
          headNoFit := true;
          budgetOmitted := 1;
        }
        budgetExceeded := true;
        return;
      }
      budgetOmitted := 1;
      budgetExceeded := true;
      return;
    }
    assert sizes[..|sizes|] == sizes;
    FitCountIs(sizes, budget, |sizes|);
  }

  method DocumentOrder(all: seq<DocChunk>, limit: int, offset: int, budget: int) returns (page: Option<Page>)
    requires budget > 0
    ensures page.None? <==> offset < 0
    ensures page.Some? ==> page.value == DocPage(all, limit, offset, budget)
  {
    var fetchLimit := limit;
    if fetchLimit <= 0 {
      var minHit := WireSize(SearchHit("", "", "", Document, false, 0.0, false));
      fetchLimit := budget / minHit + 1;
    }
    var fetched := ChunksInOrder(all, fetchLimit, offset);
    if fetched.None? {
      return None;
    }
    var result := PageOf(fetched.value, offset, budget);
    return Some(result);
  }

  /** What a method returns about the end of the page. */
  predicate Flags(end: PageEnd, budgetOmitted: nat, budgetExceeded: bool, headTruncated: bool, headNoFit: bool) {
    && headTruncated == end.HeadTruncated? && headNoFit == end.HeadNoFit? && budgetExceeded == !end.AllFit?
    && budgetOmitted == if end.NextOmitted? || end.HeadNoFit? then 1 else 0
  }

  method PageOf(rows: Rows, offset: nat, budget: int) returns (page: Page)
    requires budget > 0
    ensures page == PageFrom(rows, Assembled(rows.chunks, budget), offset)
  {
    var hits, used, consumed, budgetOmitted, budgetExceeded, headTruncated, headNoFit := Assemble(rows.chunks, budget);
    var hasMore;
    if headNoFit {
      hasMore := true;
    } else if headTruncated {
      hasMore := |rows.chunks| > 1 || rows.hasMore;
    } else if budgetOmitted == 1 {
      hasMore := true;
    } else {
      hasMore := rows.hasMore;
    }
    page := Page(hits, used, budgetOmitted, budgetExceeded, CursorIf(hasMore, offset + consumed));
  }

  // ----- What a page guarantees

  /** How a chunk appears: whole if it fits by itself, else its longest fitting prefix, else not at all. */
  function Shown(ch: DocChunk, budget: int): Option<SearchHit> {
    if WireSize(FullHit(ch)) <= budget then Some(FullHit(ch))
    else
      var n := LongestFit(ch, budget, |ch.content|);
      if n == 0 then None else Some(Prefix(ch, n))
  }

  type View = DocChunk -> Option<SearchHit>

  function Showing(budget: int): View {
    ch => Shown(ch, budget)
  }

  /** These hits show these chunks, one by one and in order. */
  ghost predicate Shows(show: View, chunks: seq<DocChunk>, hits: seq<SearchHit>) {
    |hits| == |chunks| && forall i | 0 <= i < |hits| :: show(chunks[i]) == Some(hits[i])
  }

  /** A chunk can be shown exactly when it fits, or one rune of it does; a prefix shown is a proper one. */
  lemma ShownIffOneRuneFits(ch: DocChunk, budget: int)
    ensures Shown(ch, budget).Some? <==>
            WireSize(FullHit(ch)) <= budget || (ch.content != "" && WireSize(Prefix(ch, 1)) <= budget)
    ensures Shown(ch, budget).Some? && Shown(ch, budget).value.truncated ==>
              var n := LongestFit(ch, budget, |ch.content|);
              Shown(ch, budget).value == Prefix(ch, n) && 0 < n < |ch.content|
  {
    var n := LongestFit(ch, budget, |ch.content|);
    LongestFits(ch, budget, |ch.content|);
    if n > 0 {
      ShorterIsSmaller(ch, 1, n);
    }
    if n == |ch.content| && n > 0 {
      assert ch.content[..n] == ch.content;
    }
  }

  lemma RowsAre(all: seq<DocChunk>, limit: nat, offset: nat)
    requires offset <= |all|
    ensures Fetched(all, limit, offset, RowsFrom(all, limit, offset))
  {
  }

  /** What an assembly shows of the rows it was made from; it shows nothing only if there is nothing it could show. */
  ghost predicate ShowsRows(show: View, chunks: seq<DocChunk>, a: Assembly) {
    && |a.hits| <= |chunks| && Shows(show, chunks[..|a.hits|], a.hits)
      && (forall i | 0 < i < |a.hits| :: !a.hits[i].truncated)
    && match a.end
       case AllFit => |a.hits| == |chunks|
       case NextOmitted => 0 < |a.hits| < |chunks|
       case HeadTruncated => |a.hits| == 1
       case HeadNoFit => a.hits == [] && chunks != [] && show(chunks[0]).None?
  }

  /** What it uses, and why it stops. */
  ghost predicate Accounts(sizes: seq<nat>, budget: int, a: Assembly) {
    && a.used == Sum(HitSizes(a.hits)) <= budget && |a.hits| <= |sizes|
    && match a.end
       case AllFit => |a.hits| == |sizes| && MIN_HIT * |sizes| <= a.used
       case NextOmitted => 0 < |a.hits| < |sizes| && !a.hits[0].truncated && a.used + sizes[|a.hits|] > budget
       case HeadTruncated => |a.hits| == 1 && a.hits[0].truncated
       case HeadNoFit => a.hits == [] && sizes != [] && a.used + sizes[0] > budget
  }

  lemma FittingAreShown(chunks: seq<DocChunk>, budget: int, k: nat)
    requires k <= |chunks| && Sum(Sizes(chunks)[..k]) <= budget
    ensures Shows(Showing(budget), chunks[..k], FullHits(chunks)[..k])
    ensures HitSizes(FullHits(chunks)[..k]) == Sizes(chunks)[..k] && MIN_HIT * k <= Sum(Sizes(chunks)[..k])
  {
    var sizes := Sizes(chunks)[..k];
    SumAtLeast(sizes);
    forall i | 0 <= i < k
      ensures Showing(budget)(chunks[..k][i]) == Some(FullHits(chunks)[..k][i])
    {
      assert WireSize(FullHit(chunks[i])) == sizes[i];
    }
  }

  lemma AssembledIsExact(chunks: seq<DocChunk>, budget: int)
    requires budget > 0
    ensures ShowsRows(Showing(budget), chunks, Assembled(chunks, budget))
            && Accounts(Sizes(chunks), budget, Assembled(chunks, budget))
  {
    var k := FitCount(Sizes(chunks), budget);
    FitCountFits(Sizes(chunks), budget);
    FittingAreShown(chunks, budget, k);
    if k == |chunks| {
      assert chunks[..k] == chunks && FullHits(chunks)[..k] == FullHits(chunks) && Sizes(chunks)[..k] == Sizes(chunks);
    } else if k == 0 {
      assert Sizes(chunks)[..0] == [];
      LongestFits(chunks[0], budget, |chunks[0].content|);
      HeadSize(Prefix(chunks[0], LongestFit(chunks[0], budget, |chunks[0].content|)));
    }
  }

  /** What a chunk is shown as: itself, or a proper prefix of its content marked as cut, and nothing else changed. */
  lemma ShownIs(ch: DocChunk, budget: int)
    requires Shown(ch, budget).Some?
    ensures var h := Shown(ch, budget).value;
            && h.title == ch.title && h.source == ch.source && h.layer == Document
            && h.snippet <= ch.content && (h.truncated <==> h.snippet != ch.content)
            && WireSize(h) <= budget
    ensures var h := Shown(ch, budget).value;
            h.truncated ==>
              && h.snippet != ""
              && forall n: nat | |h.snippet| < n < |ch.content| :: WireSize(h.(snippet := ch.content[..n])) > budget
  {
    if WireSize(FullHit(ch)) > budget {
      LongestFits(ch, budget, |ch.content|);
      ShownIffOneRuneFits(ch, budget);
      var best := LongestFit(ch, budget, |ch.content|);
      forall n: nat | best < n < |ch.content|
        ensures WireSize(Shown(ch, budget).value.(snippet := ch.content[..n])) > budget
      {
        assert Shown(ch, budget).value.(snippet := ch.content[..n]) == Prefix(ch, n);
      }
    } else {
      assert ch.content[..|ch.content|] == ch.content;
    }
  }

  /** The page shows the next consecutive chunks as they can be shown, and has a cursor exactly when there is more. */
  ghost predicate ShowsNext(show: View, all: seq<DocChunk>, offset: nat, page: Page) {
    var end := offset + |page.hits|;
    && end <= |all| && Shows(show, all[offset..end], page.hits)
    && (forall i | 0 < i < |page.hits| :: !page.hits[i].truncated)
    && page.nextOffset == CursorIf(end < |all|, end)
    && (page.hits == [] && offset < |all| ==> show(all[offset]).None?)
  }

  /**
   It stays within the budget and ends early for no reason but the limit or a chunk that does not
   fit; without a limit, only the latter.
   */
  ghost predicate KeepsBudget(sizes: seq<nat>, limit: int, offset: nat, budget: int, page: Page) {
    var end := offset + |page.hits|;
    && page.used == Sum(HitSizes(page.hits)) <= budget && end <= |sizes|
    && (end < |sizes| && !page.budgetExceeded ==> limit > 0 && |page.hits| == limit)
    && (page.budgetOmitted == if page.budgetExceeded && (page.hits == [] || !page.hits[0].truncated) then 1 else 0)
    && (page.budgetOmitted == 1 ==> end < |sizes| && page.used + sizes[end] > budget)
  }

  /** The rows are those from `offset` on, as many as asked for if there are so many. */
  ghost predicate Fetched(all: seq<DocChunk>, limit: nat, offset: nat, rows: Rows) {
    var m := |rows.chunks|;
    && offset + m <= |all| && rows.chunks == all[offset..offset + m]
    && (rows.hasMore <==> offset + m < |all|) && (rows.hasMore ==> m == limit)
  }

  lemma SomeOfTheRows(all: seq<DocChunk>, limit: nat, offset: nat, rows: Rows, n: nat)
    requires Fetched(all, limit, offset, rows) && n <= |rows.chunks|
    ensures rows.chunks[..n] == all[offset..offset + n]
    ensures n < |rows.chunks| ==> rows.chunks[n] == all[offset + n]
  {
  }

  lemma PageFromShows(show: View, all: seq<DocChunk>, fetch: nat, offset: nat, rows: Rows, a: Assembly)
    requires fetch > 0 && Fetched(all, fetch, offset, rows) && ShowsRows(show, rows.chunks, a)
    ensures ShowsNext(show, all, offset, PageFrom(rows, a, offset))
  {
    SomeOfTheRows(all, fetch, offset, rows, |a.hits|);
  }

  lemma PageFromKeepsBudget(sizes: seq<nat>, limit: int, fetch: nat, offset: nat, budget: int, rows: Rows, a: Assembly)
    requires budget > 0 && fetch == FetchLimit(limit, budget)
    requires var m := |rows.chunks|;
             && offset + m <= |sizes| && Accounts(sizes[offset..offset + m], budget, a)
             && (rows.hasMore <==> offset + m < |sizes|) && (rows.hasMore ==> m == fetch)
    ensures KeepsBudget(sizes, limit, offset, budget, PageFrom(rows, a, offset))
  {
    if a.end.AllFit? && rows.hasMore && limit <= 0 {
      NeverAllFit(budget, fetch, a.used);
    }
  }

  lemma SizesOfSlice(all: seq<DocChunk>, a: nat, b: nat)
    requires a <= b <= |all|
    ensures Sizes(all[a..b]) == Sizes(all)[a..b] && |Sizes(all)| == |all|
  {
  }

  lemma PageKeepsBudget(all: seq<DocChunk>, limit: int, fetch: nat, offset: nat, budget: int, rows: Rows, a: Assembly)
    requires budget > 0 && fetch == FetchLimit(limit, budget) && Fetched(all, fetch, offset, rows)
    requires Accounts(Sizes(rows.chunks), budget, a)
    ensures KeepsBudget(Sizes(all), limit, offset, budget, PageFrom(rows, a, offset))
  {
    SizesOfSlice(all, offset, offset + |rows.chunks|);
    PageFromKeepsBudget(Sizes(all), limit, fetch, offset, budget, rows, a);
  }

  /** Past the last chunk there is an empty page without a cursor. */
  lemma PagePastTheEnd(all: seq<DocChunk>, limit: int, offset: nat, budget: int)
    requires budget > 0 && offset >= |all|
    ensures DocPage(all, limit, offset, budget) == Page([], 0, 0, false, None)
  {
    assert RowsFrom(all, FetchLimit(limit, budget), offset).chunks == [];
    assert FullHits([]) == [] && Sizes([]) == [];
  }

  lemma PageWithinIsExact(all: seq<DocChunk>, limit: int, offset: nat, budget: int)
    requires budget > 0 && offset <= |all|
    ensures ShowsNext(Showing(budget), all, offset, DocPage(all, limit, offset, budget))
    ensures KeepsBudget(Sizes(all), limit, offset, budget, DocPage(all, limit, offset, budget))
  {
    var fetch := FetchLimit(limit, budget);
    var rows := RowsFrom(all, fetch, offset);
    RowsAre(all, fetch, offset);
    AssembledIsExact(rows.chunks, budget);
    PageFromShows(Showing(budget), all, fetch, offset, rows, Assembled(rows.chunks, budget));
    PageKeepsBudget(all, limit, fetch, offset, budget, rows, Assembled(rows.chunks, budget));
  }

  /** What a page holds, for any offset a caller may pass. */
  lemma PageIsExact(all: seq<DocChunk>, limit: int, offset: nat, budget: int)
    requires budget > 0
    ensures var page := DocPage(all, limit, offset, budget);
            if offset <= |all| then ShowsNext(Showing(budget), all, offset, page)
              && KeepsBudget(Sizes(all), limit, offset, budget, page)
            else page == Page([], 0, 0, false, None)
  {
    if offset <= |all| {
      PageWithinIsExact(all, limit, offset, budget);
    } else {
      PagePastTheEnd(all, limit, offset, budget);
    }
  }

  lemma HeadSize(head: SearchHit)
    ensures Sum(HitSizes([head])) == WireSize(head)
  {
    assert HitSizes([head]) == [WireSize(head)] && [WireSize(head)][..0] == [];
  }

  /** The fetch bound of a page without a limit never binds. */
  lemma NeverAllFit(budget: int, rows: nat, size: nat)
    requires budget > 0 && rows == budget / MIN_HIT + 1 && MIN_HIT * rows <= size
    ensures size > budget
  {
  }

  /**
   A page without a limit goes on to the last chunk unless one does not fit; how many rows it fetched never ends it.
   */
  lemma UnlimitedPagesGoOn(all: seq<DocChunk>, limit: int, offset: nat, budget: int)
    requires budget > 0 && offset <= |all| && limit <= 0
    ensures var page := DocPage(all, limit, offset, budget);
            !page.budgetExceeded ==> offset + |page.hits| == |all| && page.nextOffset == None
  {
    PageIsExact(all, limit, offset, budget);
    SizesOfSlice(all, 0, |all|);
  }

  // ----- Following the cursors

  /** All hits from `offset` on, page by page; nothing if a page makes no progress. */
  function ReadAll(all: seq<DocChunk>, limit: int, budget: int, offset: nat): Option<seq<SearchHit>>
    requires budget > 0 && offset <= |all|
    decreases |all| - offset
  {
    var page := DocPage(all, limit, offset, budget);
    PageIsExact(all, limit, offset, budget);
    if page.nextOffset.None? then Some(page.hits)
    else if page.nextOffset.value == offset then None
    else
      var rest := ReadAll(all, limit, budget, page.nextOffset.value);
      if rest.None? then None else Some(page.hits + rest.value)
  }

  /**
   Whatever the limit: the cursors lead through every chunk once, in order, each shown as it can be;
   and they lead to the end exactly when every chunk can be shown.
   */
  lemma {:induction false} ReadAllShowsEverything(all: seq<DocChunk>, limit: int, budget: int, offset: nat)
    requires budget > 0 && offset <= |all|
    ensures ShowsAll(Showing(budget), all[offset..], ReadAll(all, limit, budget, offset))
    decreases |all| - offset
  {
    PageIsExact(all, limit, offset, budget);
    var page := DocPage(all, limit, offset, budget);
    if page.nextOffset.Some? && page.nextOffset.value != offset {
      var next := page.nextOffset.value;
      ReadAllShowsEverything(all, limit, budget, next);
      JoinPages(Showing(budget), all, offset, page, ReadAll(all, limit, budget, next));
    } else {
      OnlyPage(Showing(budget), all, offset, page);
    }
  }

  /** Either everything can be shown, and is, or something cannot. */
  ghost predicate ShowsAll(show: View, chunks: seq<DocChunk>, hits: Option<seq<SearchHit>>) {
    && (hits.Some? <==> forall ch <- chunks :: show(ch).Some?)
    && (hits.Some? ==> Shows(show, chunks, hits.value))
  }

  lemma ShowsMore(show: View, first: seq<DocChunk>, hits: seq<SearchHit>,
                  rest: seq<DocChunk>, more: Option<seq<SearchHit>>)
    requires Shows(show, first, hits) && ShowsAll(show, rest, more)
    ensures ShowsAll(show, first + rest, if more.None? then None else Some(hits + more.value))
  {
    if more.None? {
      var ch :| ch in rest && show(ch).None?;
      assert ch in first + rest;
    }
  }

  lemma JoinPages(show: View, all: seq<DocChunk>, offset: nat, page: Page, rest: Option<seq<SearchHit>>)
    requires ShowsNext(show, all, offset, page) && page.nextOffset.Some? && page.nextOffset.value != offset
    requires page.nextOffset.value <= |all| && ShowsAll(show, all[page.nextOffset.value..], rest)
    ensures ShowsAll(show, all[offset..], if rest.None? then None else Some(page.hits + rest.value))
  {
    var next := page.nextOffset.value;
    assert all[offset..] == all[offset..next] + all[next..];
    ShowsMore(show, all[offset..next], page.hits, all[next..], rest);
  }

  lemma OnlyPage(show: View, all: seq<DocChunk>, offset: nat, page: Page)
    requires ShowsNext(show, all, offset, page) && (page.nextOffset.None? || page.nextOffset.value == offset)
    ensures ShowsAll(show, all[offset..], if page.nextOffset.None? then Some(page.hits) else None)
  {
    if page.nextOffset.Some? {
      assert all[offset] in all[offset..];
    } else {
      assert all[offset..] == all[offset..offset + |page.hits|];
    }
  }

  // ----- An ordinary reread

  const DEFAULT_REREAD_BUDGET := 32768
  const TITLE_CAP := 60
  const MAX_LABEL_BYTES := 200

  /** What ingest stores under a capture label: bounded content, a capped title, a bounded label. */
  ghost predicate Stored(ch: DocChunk) {
    |Encode(ch.content)| <= CHUNK_MAX_BYTES && |ch.title| <= TITLE_CAP && |Encode(ch.source)| <= MAX_LABEL_BYTES
  }

  /** Such a chunk is always shown whole at the default budget, whatever has to be escaped. */
  lemma StoredFits(ch: DocChunk)
    requires Stored(ch)
    ensures WireSize(FullHit(ch)) <= DEFAULT_REREAD_BUDGET
    ensures Showing(DEFAULT_REREAD_BUDGET)(ch) == Some(FullHit(ch))
  {
    JsonLenBounds(ch.title);
    JsonLenBounds(ch.content);
    JsonLenBounds(ch.source);
  }

  /** An unclamped default reread shows every stored chunk whole. */
  lemma RereadIsWhole(all: seq<DocChunk>, limit: int)
    requires forall ch <- all :: Stored(ch)
    ensures ReadAll(all, limit, DEFAULT_REREAD_BUDGET, 0) == Some(FullHits(all))
  {
    ReadAllShowsEverything(all, limit, DEFAULT_REREAD_BUDGET, 0);
    assert all[0..] == all;
    forall ch <- all
      ensures Showing(DEFAULT_REREAD_BUDGET)(ch) == Some(FullHit(ch))
    {
      StoredFits(ch);
    }
    AllWholeShown(Showing(DEFAULT_REREAD_BUDGET), all, ReadAll(all, limit, DEFAULT_REREAD_BUDGET, 0));
  }

  lemma AllWholeShown(show: View, all: seq<DocChunk>, hits: Option<seq<SearchHit>>)
    requires ShowsAll(show, all, hits) && forall ch <- all :: show(ch) == Some(FullHit(ch))
    ensures hits == Some(FullHits(all))
  {
    forall i | 0 <= i < |all|
      ensures show(all[i]) == Some(FullHit(all[i]))
    {
      assert all[i] in all;
    }
    assert hits.Some?;
    assert hits.value == FullHits(all);
  }

  function Snippets(hits: seq<SearchHit>): seq<seq<byte>> {
    seq(|hits|, i requires 0 <= i < |hits| => Encode(hits[i].snippet))
  }

  /** From ingest to reread: the snippets, in order, are the bytes that were chunked. */
  lemma RereadReproducesContent(chunks: seq<Chunk>, all: seq<DocChunk>, limit: int)
    requires |all| == |Bounding(chunks)|
    requires forall i | 0 <= i < |all| ::
               && Encode(all[i].content) == Bounding(chunks)[i].content
               && |all[i].title| <= TITLE_CAP && |Encode(all[i].source)| <= MAX_LABEL_BYTES
    ensures ReadAll(all, limit, DEFAULT_REREAD_BUDGET, 0) == Some(FullHits(all))
    ensures Concat(Snippets(FullHits(all))) == Concat(Contents(chunks))
  {
    BoundingKeeps(chunks);
    forall i | 0 <= i < |all|
      ensures Stored(all[i])
    {
      assert Bounding(chunks)[i] in Bounding(chunks);
    }
    RereadIsWhole(all, limit);
    assert Snippets(FullHits(all)) == Contents(Bounding(chunks));
  }
}
