/** Relevance normalization (`normalizeRelevance`, `normalizeGroup` in internal/search/service.go). */
module Relevance {
  import opened SearchHits

  const MATCHES_ALL_FLOOR: real := 0.85
  const MATCHES_ALL_CEIL: real := 1.0
  const PRIMARY_FLOOR: real := 0.6
  const PRIMARY_CEIL: real := 0.8
  const TRIGRAM_FLOOR: real := 0.1
  const TRIGRAM_CEIL: real := 0.5

  datatype Group = Group(layer: MatchLayer, matchesAll: bool)

  predicate InGroup(h: SearchHit, g: Group) {
    h.layer == g.layer && h.matchesAll == g.matchesAll
  }

  const ALL_TERMS := Group(Primary, true)
  const SOME_TERMS := Group(Primary, false)
  const SUBSTRINGS := Group(Trigram, false)

  // ----- The rescaling

  /** Min-max rescaling into [lo, hi]; a group without spread goes to the top of its band. */
  function Rescale(v: real, minV: real, maxV: real, lo: real, hi: real): real {
    var span := maxV - minV;
    if span == 0.0 then hi else lo + (v - minV) / span * (hi - lo)
  }

  lemma DivisionMonotone(a: real, b: real, d: real)
    requires d > 0.0 && a <= b
    ensures a / d <= b / d
    ensures a < b ==> a / d < b / d
  {
  }

  lemma ProductMonotone(a: real, b: real, k: real)
    requires k > 0.0 && a <= b
    ensures a * k <= b * k
    ensures a < b ==> a * k < b * k
  {
  }

  lemma RescaleMonotone(v: real, w: real, minV: real, maxV: real, lo: real, hi: real)
    requires minV < maxV && lo < hi && v <= w
    ensures Rescale(v, minV, maxV, lo, hi) <= Rescale(w, minV, maxV, lo, hi)
    ensures v < w ==> Rescale(v, minV, maxV, lo, hi) < Rescale(w, minV, maxV, lo, hi)
  {
    var span := maxV - minV;
    DivisionMonotone(v - minV, w - minV, span);
    ProductMonotone((v - minV) / span, (w - minV) / span, hi - lo);
  }

  lemma RescaleEnds(minV: real, maxV: real, lo: real, hi: real)
    requires minV < maxV && lo < hi
    ensures Rescale(minV, minV, maxV, lo, hi) == lo
    ensures Rescale(maxV, minV, maxV, lo, hi) == hi
  {
    var span := maxV - minV;
    assert (minV - minV) / span == 0.0;
    assert (maxV - minV) / span == 1.0;
  }

  /** Rescaled values stay inside their band. */
  lemma RescaleInBand(v: real, minV: real, maxV: real, lo: real, hi: real)
    requires minV <= v <= maxV && lo < hi
    ensures lo <= Rescale(v, minV, maxV, lo, hi) <= hi
  {
    if minV < maxV {
      RescaleEnds(minV, maxV, lo, hi);
      RescaleMonotone(minV, v, minV, maxV, lo, hi);
      RescaleMonotone(v, maxV, minV, maxV, lo, hi);
    }
  }

  // ----- Responses

  type Response = seq<seq<SearchHit>>

  ghost predicate Has(r: Response, q: int, i: int) {
    0 <= q < |r| && 0 <= i < |r[q]|
  }

  ghost predicate SameShape(a: Response, b: Response) {
    |a| == |b| && forall q | 0 <= q < |a| :: |a[q]| == |b[q]|
  }

  /** `minV` and `maxV` are the smallest and largest relevance in the group, over the whole response. */
  ghost predicate RangeOf(r: Response, g: Group, minV: real, maxV: real) {
    && (forall q, i | Has(r, q, i) && InGroup(r[q][i], g) :: minV <= r[q][i].relevance <= maxV)
    && (exists q, i :: Has(r, q, i) && InGroup(r[q][i], g) && r[q][i].relevance == minV)
    && (exists q, i :: Has(r, q, i) && InGroup(r[q][i], g) && r[q][i].relevance == maxV)
  }

  ghost predicate NoneInGroup(r: Response, g: Group) {
    forall q, i | Has(r, q, i) :: !InGroup(r[q][i], g)
  }

  function RescaleHit(h: SearchHit, g: Group, minV: real, maxV: real, lo: real, hi: real): SearchHit {
    if InGroup(h, g) then h.(relevance := Rescale(h.relevance, minV, maxV, lo, hi)) else h
  }

  /** Every member of the group has been rescaled, nothing else has changed. */
  ghost predicate Rescaled(before: Response, after: Response, g: Group, minV: real, maxV: real, lo: real, hi: real) {
    && SameShape(before, after)
    && forall q, i | Has(before, q, i) :: after[q][i] == RescaleHit(before[q][i], g, minV, maxV, lo, hi)
  }

  /** What normalizing one group does to a response. */
  ghost predicate GroupNormalized(before: Response, after: Response, g: Group, lo: real, hi: real) {
    (NoneInGroup(before, g) && after == before)
    || exists minV, maxV :: RangeOf(before, g, minV, maxV) && Rescaled(before, after, g, minV, maxV, lo, hi)
  }

  // ----- Positions in row-major order

  ghost predicate Visited(q: int, i: int, qi: int, k: int) {
    q < qi || (q == qi && i < k)
  }

  class Batch {
    /** Hits per query, in submitted order. */
    var perQuery: Response

    constructor (hits: Response)
      ensures perQuery == hits
    {
      perQuery := hits;
    }

    method GroupRange(g: Group) returns (first: bool, minV: real, maxV: real)
      ensures first ==> NoneInGroup(perQuery, g)
      ensures !first ==> RangeOf(perQuery, g, minV, maxV)
    {
      first, minV, maxV := true, 0.0, 0.0;
      var r := perQuery;
      ghost var minQ, minI, maxQ, maxI := 0, 0, 0, 0;
      for q := 0 to |r|
        invariant forall p, i | Has(r, p, i) && Visited(p, i, q, 0) && InGroup(r[p][i], g) ::
                    !first && minV <= r[p][i].relevance <= maxV
        invariant !first ==> Has(r, minQ, minI) && InGroup(r[minQ][minI], g) && r[minQ][minI].relevance == minV
        invariant !first ==> Has(r, maxQ, maxI) && InGroup(r[maxQ][maxI], g) && r[maxQ][maxI].relevance == maxV
      {
        for k := 0 to |r[q]|
          invariant forall p, i | Has(r, p, i) && Visited(p, i, q, k) && InGroup(r[p][i], g) ::
                      !first && minV <= r[p][i].relevance <= maxV
          invariant !first ==> Has(r, minQ, minI) && InGroup(r[minQ][minI], g) && r[minQ][minI].relevance == minV
          invariant !first ==> Has(r, maxQ, maxI) && InGroup(r[maxQ][maxI], g) && r[maxQ][maxI].relevance == maxV
        {
          var h := r[q][k];
          if !InGroup(h, g) {
            continue;
          }
          if first || h.relevance < minV {
            minV := h.relevance;
            minQ, minI := q, k;
          }
          if first || h.relevance > maxV {
            maxV := h.relevance;
            maxQ, maxI := q, k;
          }
          first := false;
        }
      }
    }

    /** Rescales the members of one query's hits, one by one. */
    method NormalizeHits(hits: seq<SearchHit>, g: Group, minV: real, maxV: real, lo: real, hi: real)
      returns (row: seq<SearchHit>)
      ensures |row| == |hits| && forall i | 0 <= i < |row| :: row[i] == RescaleHit(hits[i], g, minV, maxV, lo, hi)
    {
      row := hits;
      var span := maxV - minV;
      for i := 0 to |hits|
        invariant |row| == |hits|
        invariant forall k | 0 <= k < |row| ::
                    row[k] == if k < i then RescaleHit(hits[k], g, minV, maxV, lo, hi) else hits[k]
      {
        if !InGroup(row[i], g) {
          continue;
        }
        if span == 0.0 {
          row := row[i := row[i].(relevance := hi)];
          continue;
        }
        row := row[i := row[i].(relevance := lo + (row[i].relevance - minV) / span * (hi - lo))];
      }
    }

    method NormalizeGroup(g: Group, lo: real, hi: real)
      modifies this
      ensures GroupNormalized(old(perQuery), perQuery, g, lo, hi)
    {
      var first, minV, maxV := GroupRange(g);
      if first {
        return;
      }
      ghost var before := perQuery;
      for q := 0 to |perQuery|
        invariant SameShape(before, perQuery)
        invariant forall p, i | Has(before, p, i) ::
                    perQuery[p][i] == if p < q then RescaleHit(before[p][i], g, minV, maxV, lo, hi) else before[p][i]
      {
        var row := NormalizeHits(perQuery[q], g, minV, maxV, lo, hi);
        assert forall i | 0 <= i < |row| :: Has(before, q, i);
        perQuery := perQuery[q := row];
      }
      assert Rescaled(before, perQuery, g, minV, maxV, lo, hi);
    }

    method NormalizeRelevance()
      modifies this
      ensures Normalized(old(perQuery), perQuery)
    {
      ghost var r0 := perQuery;
      NormalizeGroup(ALL_TERMS, MATCHES_ALL_FLOOR, MATCHES_ALL_CEIL);
      ghost var r1 := perQuery;
      NormalizeGroup(SOME_TERMS, PRIMARY_FLOOR, PRIMARY_CEIL);
      ghost var r2 := perQuery;
      NormalizeGroup(SUBSTRINGS, TRIGRAM_FLOOR, TRIGRAM_CEIL);
      ThreeGroups(r0, r1, r2, perQuery);
    }
  }

  // ----- What normalization means

  /** The band of a hit, or an empty band for hits outside the three ranked groups. */
  predicate InBand(h: SearchHit) {
    if InGroup(h, ALL_TERMS) then MATCHES_ALL_FLOOR <= h.relevance <= MATCHES_ALL_CEIL
    else if InGroup(h, SOME_TERMS) then PRIMARY_FLOOR <= h.relevance <= PRIMARY_CEIL
    else InGroup(h, SUBSTRINGS) && TRIGRAM_FLOOR <= h.relevance <= TRIGRAM_CEIL
  }

  predicate Ranked(h: SearchHit) {
    InGroup(h, ALL_TERMS) || InGroup(h, SOME_TERMS) || InGroup(h, SUBSTRINGS)
  }

  ghost predicate OnlyRelevanceChanges(before: Response, after: Response) {
    && SameShape(before, after)
    && forall q, i | Has(before, q, i) :: after[q][i] == before[q][i].(relevance := after[q][i].relevance)
  }

  ghost predicate OrderKept(before: Response, after: Response, g: Group)
    requires SameShape(before, after)
  {
    forall q, i, p, k |
      Has(before, q, i) && Has(before, p, k) && InGroup(before[q][i], g) && InGroup(before[p][k], g) ::
      before[q][i].relevance <= before[p][k].relevance <==> after[q][i].relevance <= after[p][k].relevance
  }

  /** Distances within a group are kept in proportion; what was all alike goes to the top of the band. */
  ghost predicate Stretched(before: Response, after: Response, g: Group, minV: real, maxV: real, lo: real, hi: real)
    requires SameShape(before, after)
  {
    forall q, i | Has(before, q, i) && InGroup(before[q][i], g) ::
      OnScale(before[q][i].relevance, after[q][i].relevance, minV, maxV, lo, hi)
  }

  predicate OnScale(x: real, y: real, minV: real, maxV: real, lo: real, hi: real) {
    if minV == maxV then y == hi else (y - lo) * (maxV - minV) == (x - minV) * (hi - lo)
  }

  /** The group fills its band: its least relevant hit is at the bottom, its most relevant one at the top. */
  ghost predicate FillsBand(before: Response, after: Response, g: Group, lo: real, hi: real)
    requires SameShape(before, after)
  {
    NoneInGroup(before, g)
    || exists minV, maxV :: RangeOf(before, g, minV, maxV) && Stretched(before, after, g, minV, maxV, lo, hi)
  }

  /**
   Only relevances change; ranked hits land in their band and each group fills it, in proportion; order
   within a group is kept exactly.
   */
  ghost predicate Normalized(before: Response, after: Response) {
    && OnlyRelevanceChanges(before, after)
    && (forall q, i | Has(before, q, i) ::
          if Ranked(before[q][i]) then InBand(after[q][i]) else after[q][i] == before[q][i])
    && (forall g: Group :: OrderKept(before, after, g))
    && FillsBand(before, after, ALL_TERMS, MATCHES_ALL_FLOOR, MATCHES_ALL_CEIL)
    && FillsBand(before, after, SOME_TERMS, PRIMARY_FLOOR, PRIMARY_CEIL)
    && FillsBand(before, after, SUBSTRINGS, TRIGRAM_FLOOR, TRIGRAM_CEIL)
  }

  lemma BackAndForth(x: real, span: real, k: real)
    requires span != 0.0
    ensures x / span * k * span == x * k
  {
    assert x / span * span == x;
    assert x / span * k * span == x / span * span * k;
  }

  lemma RescaledStretches(before: Response, after: Response, g: Group, minV: real, maxV: real, lo: real, hi: real)
    requires Rescaled(before, after, g, minV, maxV, lo, hi)
    ensures Stretched(before, after, g, minV, maxV, lo, hi)
  {
    forall q, i | Has(before, q, i) && InGroup(before[q][i], g)
      ensures OnScale(before[q][i].relevance, after[q][i].relevance, minV, maxV, lo, hi)
    {
      RescaleIsOnScale(before[q][i].relevance, minV, maxV, lo, hi);
    }
  }

  lemma RescaleIsOnScale(v: real, minV: real, maxV: real, lo: real, hi: real)
    ensures OnScale(v, Rescale(v, minV, maxV, lo, hi), minV, maxV, lo, hi)
  {
    if minV != maxV {
      BackAndForth(v - minV, maxV - minV, hi - lo);
    }
  }

  lemma GroupFillsBand(before: Response, after: Response, g: Group, lo: real, hi: real)
    requires GroupNormalized(before, after, g, lo, hi)
    ensures SameShape(before, after) && FillsBand(before, after, g, lo, hi)
  {
    if !(NoneInGroup(before, g) && after == before) {
      var minV, maxV :| RangeOf(before, g, minV, maxV) && Rescaled(before, after, g, minV, maxV, lo, hi);
      RescaledStretches(before, after, g, minV, maxV, lo, hi);
    }
  }

  /** The two responses have the same members of the group. */
  ghost predicate SameMembers(a: Response, b: Response, g: Group) {
    && SameShape(a, b)
    && forall q, i | Has(a, q, i) ::
         (InGroup(a[q][i], g) <==> InGroup(b[q][i], g)) && (InGroup(a[q][i], g) ==> a[q][i] == b[q][i])
  }

  lemma OthersSame(a: Response, b: Response, g: Group, lo: real, hi: real, other: Group)
    requires BandStep(a, b, g, lo, hi) && g != other
    ensures SameMembers(a, b, other)
  {
  }

  lemma NoneOfTheSame(a: Response, b: Response, g: Group)
    requires SameMembers(a, b, g)
    ensures NoneInGroup(a, g) <==> NoneInGroup(b, g)
  {
    if NoneInGroup(b, g) {
      forall q, i | Has(a, q, i)
        ensures !InGroup(a[q][i], g)
      {
        assert Has(b, q, i);
      }
    } else {
      var q, i :| Has(b, q, i) && InGroup(b[q][i], g);
      assert Has(a, q, i);
    }
  }

  lemma StretchedFromSame(a: Response, b: Response, after: Response, g: Group, minV: real, maxV: real, lo: real,
                          hi: real)
    requires SameMembers(a, b, g) && SameShape(b, after) && Stretched(b, after, g, minV, maxV, lo, hi)
    ensures SameShape(a, after) && Stretched(a, after, g, minV, maxV, lo, hi)
  {
    forall q, i | Has(a, q, i) && InGroup(a[q][i], g)
      ensures OnScale(a[q][i].relevance, after[q][i].relevance, minV, maxV, lo, hi)
    {
      assert Has(b, q, i);
    }
  }

  lemma FillsFromSame(a: Response, b: Response, after: Response, g: Group, lo: real, hi: real)
    requires SameMembers(a, b, g) && SameShape(b, after) && FillsBand(b, after, g, lo, hi)
    ensures SameShape(a, after) && FillsBand(a, after, g, lo, hi)
  {
    NoneOfTheSame(a, b, g);
    if !NoneInGroup(b, g) {
      var minV, maxV :| RangeOf(b, g, minV, maxV) && Stretched(b, after, g, minV, maxV, lo, hi);
      RangeOfSame(a, b, g, minV, maxV);
      StretchedFromSame(a, b, after, g, minV, maxV, lo, hi);
    }
  }

  lemma RangeOfSame(a: Response, b: Response, g: Group, minV: real, maxV: real)
    requires SameMembers(a, b, g) && RangeOf(b, g, minV, maxV)
    ensures RangeOf(a, g, minV, maxV)
  {
    forall q, i | Has(a, q, i) && InGroup(a[q][i], g)
      ensures minV <= a[q][i].relevance <= maxV
    {
      assert Has(b, q, i);
    }
    var q, i :| Has(b, q, i) && InGroup(b[q][i], g) && b[q][i].relevance == minV;
    assert Has(a, q, i);
    var p, k :| Has(b, p, k) && InGroup(b[p][k], g) && b[p][k].relevance == maxV;
    assert Has(a, p, k);
  }

  lemma StretchedToSame(before: Response, b: Response, c: Response, g: Group, minV: real, maxV: real, lo: real,
                        hi: real)
    requires OnlyRelevanceChanges(before, b) && SameMembers(b, c, g) && Stretched(before, b, g, minV, maxV, lo, hi)
    ensures SameShape(before, c) && Stretched(before, c, g, minV, maxV, lo, hi)
  {
    forall q, i | Has(before, q, i) && InGroup(before[q][i], g)
      ensures OnScale(before[q][i].relevance, c[q][i].relevance, minV, maxV, lo, hi)
    {
      assert Has(b, q, i) && c[q][i] == b[q][i];
    }
  }

  lemma FillsToSame(before: Response, b: Response, c: Response, g: Group, lo: real, hi: real)
    requires OnlyRelevanceChanges(before, b) && FillsBand(before, b, g, lo, hi) && SameMembers(b, c, g)
    ensures SameShape(before, c) && FillsBand(before, c, g, lo, hi)
  {
    if !NoneInGroup(before, g) {
      var minV, maxV :| RangeOf(before, g, minV, maxV) && Stretched(before, b, g, minV, maxV, lo, hi);
      StretchedToSame(before, b, c, g, minV, maxV, lo, hi);
    }
  }

  /** One group normalized: its members are in [lo, hi], everything else is as it was. */
  ghost predicate BandStep(before: Response, after: Response, g: Group, lo: real, hi: real) {
    && OnlyRelevanceChanges(before, after)
    && (forall q, i | Has(before, q, i) && !InGroup(before[q][i], g) :: after[q][i] == before[q][i])
    && (forall q, i | Has(before, q, i) && InGroup(before[q][i], g) :: lo <= after[q][i].relevance <= hi)
    && OrderKept(before, after, g)
  }

  lemma RescaleKeepsOrder(v: real, w: real, minV: real, maxV: real, lo: real, hi: real)
    requires minV <= v <= maxV && minV <= w <= maxV && lo < hi
    ensures v <= w <==> Rescale(v, minV, maxV, lo, hi) <= Rescale(w, minV, maxV, lo, hi)
  {
    if minV < maxV {
      if v <= w {
        RescaleMonotone(v, w, minV, maxV, lo, hi);
      } else {
        RescaleMonotone(w, v, minV, maxV, lo, hi);
      }
    }
  }

  lemma GroupInBand(before: Response, after: Response, g: Group, lo: real, hi: real)
    requires GroupNormalized(before, after, g, lo, hi) && lo < hi
    ensures BandStep(before, after, g, lo, hi)
  {
    if !(NoneInGroup(before, g) && after == before) {
      var minV, maxV :| RangeOf(before, g, minV, maxV) && Rescaled(before, after, g, minV, maxV, lo, hi);
      RescaledInBand(before, after, g, minV, maxV, lo, hi);
      RescaledKeepsOrder(before, after, g, minV, maxV, lo, hi);
    }
  }

  lemma RescaledInBand(before: Response, after: Response, g: Group, minV: real, maxV: real, lo: real, hi: real)
    requires RangeOf(before, g, minV, maxV) && Rescaled(before, after, g, minV, maxV, lo, hi) && lo < hi
    ensures forall q, i | Has(before, q, i) && InGroup(before[q][i], g) :: lo <= after[q][i].relevance <= hi
  {
    forall q, i | Has(before, q, i) && InGroup(before[q][i], g)
      ensures lo <= after[q][i].relevance <= hi
    {
      RescaleInBand(before[q][i].relevance, minV, maxV, lo, hi);
    }
  }

  lemma RescaledKeepsOrder(before: Response, after: Response, g: Group, minV: real, maxV: real, lo: real, hi: real)
    requires RangeOf(before, g, minV, maxV) && Rescaled(before, after, g, minV, maxV, lo, hi) && lo < hi
    ensures OrderKept(before, after, g)
  {
    forall q, i, p, k | Has(before, q, i) && Has(before, p, k) && InGroup(before[q][i], g) && InGroup(before[p][k], g)
      ensures before[q][i].relevance <= before[p][k].relevance <==> after[q][i].relevance <= after[p][k].relevance
    {
      RescaleKeepsOrder(before[q][i].relevance, before[p][k].relevance, minV, maxV, lo, hi);
    }
  }

  /** A step on one group leaves the order within every other group alone. */
  lemma OtherGroupsKept(before: Response, after: Response, g: Group, lo: real, hi: real, other: Group)
    requires BandStep(before, after, g, lo, hi)
    ensures OrderKept(before, after, other)
  {
  }

  lemma OrderKeptTransitive(a: Response, b: Response, c: Response, g: Group)
    requires OnlyRelevanceChanges(a, b) && SameShape(b, c) && OrderKept(a, b, g) && OrderKept(b, c, g)
    ensures SameShape(a, c) && OrderKept(a, c, g)
  {
    forall q, i, p, k | Has(a, q, i) && Has(a, p, k) && InGroup(a[q][i], g) && InGroup(a[p][k], g)
      ensures a[q][i].relevance <= a[p][k].relevance <==> c[q][i].relevance <= c[p][k].relevance
    {
      assert Has(b, q, i) && Has(b, p, k);
    }
  }

  lemma ThreeGroups(r0: Response, r1: Response, r2: Response, r3: Response)
    requires GroupNormalized(r0, r1, ALL_TERMS, MATCHES_ALL_FLOOR, MATCHES_ALL_CEIL)
    requires GroupNormalized(r1, r2, SOME_TERMS, PRIMARY_FLOOR, PRIMARY_CEIL)
    requires GroupNormalized(r2, r3, SUBSTRINGS, TRIGRAM_FLOOR, TRIGRAM_CEIL)
    ensures Normalized(r0, r3)
  {
    GroupInBand(r0, r1, ALL_TERMS, MATCHES_ALL_FLOOR, MATCHES_ALL_CEIL);
    GroupInBand(r1, r2, SOME_TERMS, PRIMARY_FLOOR, PRIMARY_CEIL);
    GroupInBand(r2, r3, SUBSTRINGS, TRIGRAM_FLOOR, TRIGRAM_CEIL);
    ThreeBands(r0, r1, r2, r3);
    FirstFills(r0, r1, r2, r3);
    SecondFills(r0, r1, r2, r3);
    ThirdFills(r0, r1, r2, r3);
    forall g: Group
      ensures OrderKept(r0, r3, g)
    {
      ThreeOrders(r0, r1, r2, r3, g);
    }
  }

  lemma FirstFills(r0: Response, r1: Response, r2: Response, r3: Response)
    requires GroupNormalized(r0, r1, ALL_TERMS, MATCHES_ALL_FLOOR, MATCHES_ALL_CEIL)
    requires BandStep(r0, r1, ALL_TERMS, MATCHES_ALL_FLOOR, MATCHES_ALL_CEIL)
    requires BandStep(r1, r2, SOME_TERMS, PRIMARY_FLOOR, PRIMARY_CEIL)
    requires BandStep(r2, r3, SUBSTRINGS, TRIGRAM_FLOOR, TRIGRAM_CEIL)
    ensures SameShape(r0, r3) && FillsBand(r0, r3, ALL_TERMS, MATCHES_ALL_FLOOR, MATCHES_ALL_CEIL)
  {
    GroupFillsBand(r0, r1, ALL_TERMS, MATCHES_ALL_FLOOR, MATCHES_ALL_CEIL);
    OthersSame(r1, r2, SOME_TERMS, PRIMARY_FLOOR, PRIMARY_CEIL, ALL_TERMS);
    OthersSame(r2, r3, SUBSTRINGS, TRIGRAM_FLOOR, TRIGRAM_CEIL, ALL_TERMS);
    SameMembersTransitive(r1, r2, r3, ALL_TERMS);
    FillsToSame(r0, r1, r3, ALL_TERMS, MATCHES_ALL_FLOOR, MATCHES_ALL_CEIL);
  }

  lemma SecondFills(r0: Response, r1: Response, r2: Response, r3: Response)
    requires BandStep(r0, r1, ALL_TERMS, MATCHES_ALL_FLOOR, MATCHES_ALL_CEIL)
    requires GroupNormalized(r1, r2, SOME_TERMS, PRIMARY_FLOOR, PRIMARY_CEIL)
    requires BandStep(r1, r2, SOME_TERMS, PRIMARY_FLOOR, PRIMARY_CEIL)
    requires BandStep(r2, r3, SUBSTRINGS, TRIGRAM_FLOOR, TRIGRAM_CEIL)
    ensures SameShape(r0, r3) && FillsBand(r0, r3, SOME_TERMS, PRIMARY_FLOOR, PRIMARY_CEIL)
  {
    GroupFillsBand(r1, r2, SOME_TERMS, PRIMARY_FLOOR, PRIMARY_CEIL);
    OthersSame(r2, r3, SUBSTRINGS, TRIGRAM_FLOOR, TRIGRAM_CEIL, SOME_TERMS);
    FillsToSame(r1, r2, r3, SOME_TERMS, PRIMARY_FLOOR, PRIMARY_CEIL);
    OthersSame(r0, r1, ALL_TERMS, MATCHES_ALL_FLOOR, MATCHES_ALL_CEIL, SOME_TERMS);
    FillsFromSame(r0, r1, r3, SOME_TERMS, PRIMARY_FLOOR, PRIMARY_CEIL);
  }

  lemma ThirdFills(r0: Response, r1: Response, r2: Response, r3: Response)
    requires BandStep(r0, r1, ALL_TERMS, MATCHES_ALL_FLOOR, MATCHES_ALL_CEIL)
    requires BandStep(r1, r2, SOME_TERMS, PRIMARY_FLOOR, PRIMARY_CEIL)
    requires GroupNormalized(r2, r3, SUBSTRINGS, TRIGRAM_FLOOR, TRIGRAM_CEIL)
    ensures SameShape(r0, r3) && FillsBand(r0, r3, SUBSTRINGS, TRIGRAM_FLOOR, TRIGRAM_CEIL)
  {
    GroupFillsBand(r2, r3, SUBSTRINGS, TRIGRAM_FLOOR, TRIGRAM_CEIL);
    OthersSame(r0, r1, ALL_TERMS, MATCHES_ALL_FLOOR, MATCHES_ALL_CEIL, SUBSTRINGS);
    OthersSame(r1, r2, SOME_TERMS, PRIMARY_FLOOR, PRIMARY_CEIL, SUBSTRINGS);
    SameMembersTransitive(r0, r1, r2, SUBSTRINGS);
    FillsFromSame(r0, r2, r3, SUBSTRINGS, TRIGRAM_FLOOR, TRIGRAM_CEIL);
  }

  lemma SameMembersTransitive(a: Response, b: Response, c: Response, g: Group)
    requires SameMembers(a, b, g) && SameMembers(b, c, g)
    ensures SameMembers(a, c, g)
  {
    forall q, i | Has(a, q, i)
      ensures Has(b, q, i)
    {
    }
  }

  lemma ThreeOrders(r0: Response, r1: Response, r2: Response, r3: Response, g: Group)
    requires BandStep(r0, r1, ALL_TERMS, MATCHES_ALL_FLOOR, MATCHES_ALL_CEIL)
    requires BandStep(r1, r2, SOME_TERMS, PRIMARY_FLOOR, PRIMARY_CEIL)
    requires BandStep(r2, r3, SUBSTRINGS, TRIGRAM_FLOOR, TRIGRAM_CEIL)
    ensures SameShape(r0, r3) && OrderKept(r0, r3, g)
  {
    OtherGroupsKept(r0, r1, ALL_TERMS, MATCHES_ALL_FLOOR, MATCHES_ALL_CEIL, g);
    OtherGroupsKept(r1, r2, SOME_TERMS, PRIMARY_FLOOR, PRIMARY_CEIL, g);
    OtherGroupsKept(r2, r3, SUBSTRINGS, TRIGRAM_FLOOR, TRIGRAM_CEIL, g);
    OrderKeptTransitive(r1, r2, r3, g);
    OrderKeptTransitive(r0, r1, r3, g);
  }

  lemma ThreeBands(r0: Response, r1: Response, r2: Response, r3: Response)
    requires BandStep(r0, r1, ALL_TERMS, MATCHES_ALL_FLOOR, MATCHES_ALL_CEIL)
    requires BandStep(r1, r2, SOME_TERMS, PRIMARY_FLOOR, PRIMARY_CEIL)
    requires BandStep(r2, r3, SUBSTRINGS, TRIGRAM_FLOOR, TRIGRAM_CEIL)
    ensures OnlyRelevanceChanges(r0, r3)
    ensures forall q, i | Has(r0, q, i) :: if Ranked(r0[q][i]) then InBand(r3[q][i]) else r3[q][i] == r0[q][i]
  {
    forall q, i | Has(r0, q, i)
      ensures r3[q][i] == r0[q][i].(relevance := r3[q][i].relevance)
      ensures if Ranked(r0[q][i]) then InBand(r3[q][i]) else r3[q][i] == r0[q][i]
    {
      assert Has(r1, q, i) && Has(r2, q, i);
    }
  }

  /** The tiers of a normalized response never overlap, and every ranked hit has positive relevance. */
  lemma TiersAreDisjoint(before: Response, after: Response)
    requires Normalized(before, after)
    ensures forall q, i | Has(after, q, i) && Ranked(after[q][i]) :: after[q][i].relevance > 0.0
    ensures forall q, i, p, k | Has(after, q, i) && Has(after, p, k)
              && InGroup(after[q][i], ALL_TERMS) && InGroup(after[p][k], SOME_TERMS) ::
              after[q][i].relevance > after[p][k].relevance
    ensures forall q, i, p, k | Has(after, q, i) && Has(after, p, k)
              && InGroup(after[q][i], SOME_TERMS) && InGroup(after[p][k], SUBSTRINGS) ::
              after[q][i].relevance > after[p][k].relevance
  {
    forall q, i | Has(after, q, i) && Ranked(after[q][i])
      ensures InBand(after[q][i])
    {
      assert Has(before, q, i);
    }
  }
}
