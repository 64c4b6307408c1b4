/** The maximal-marginal-relevance allocator (`mmr` and `jaccard` in internal/search/allocators.go). */
module Mmr {
  import opened Allocation
  import opened Arithmetic
  import opened FiniteSets

  // ----- Similarity

  /** Jaccard similarity of two token sets; two empty sets are not similar at all. */
  function Similarity(a: set<string>, b: set<string>): real {
    if |a + b| == 0 then 0.0 else |a * b| as real / |a + b| as real
  }

  lemma SimilarityProperties(a: set<string>, b: set<string>)
    ensures 0.0 <= Similarity(a, b) <= 1.0
    ensures Similarity(a, b) == Similarity(b, a)
    ensures Similarity(a, b) == 1.0 <==> a == b && a != {}
    ensures Similarity(a, b) * |a + b| as real == |a * b| as real
  {
    SubsetIsNoLarger(a * b, a + b);
    assert a + b == b + a && a * b == b * a;
    if |a + b| > 0 {
      Fraction(|a * b|, |a + b|);
      if a * b != a + b {
        var x :| x in a + b && x !in a * b;
        SubsetIsNoLarger(a * b, a + b - {x});
      }
    }
  }

  lemma Fraction(n: nat, d: nat)
    requires n <= d && d > 0
    ensures 0.0 <= n as real / d as real <= 1.0
    ensures n as real / d as real == 1.0 <==> n == d
  {
  }

  // ----- Dissimilarity is a distance

  /** How much of two token sets is not in both. */
  ghost function Distance(a: set<string>, b: set<string>): real {
    1.0 - Similarity(a, b)
  }

  /** The tokens of exactly one of the two. */
  ghost function Apart(a: set<string>, b: set<string>): set<string> {
    (a - b) + (b - a)
  }

  /** What is unlike both of two alike things cannot be: going through a third set is never a short cut. */
  lemma TriangleInequality(a: set<string>, b: set<string>, c: set<string>)
    ensures Distance(a, c) <= Distance(a, b) + Distance(b, c)
  {
    if a == {} || c == {} {
      EmptyIsFar(a, b);
      EmptyIsFar(b, c);
      EmptyIsFar(a, c);
    } else {
      DistanceIs(a, c);
      DistanceIs(a, b);
      DistanceIs(b, c);
      Detour(a, b, c);
      ShareOfAll(|Apart(a, c)|, |a + c|, |Apart(a, b)|, |a + b|, |Apart(b, c)|, |b + c|, |a + b + c|);
    }
  }

  lemma EmptyIsFar(a: set<string>, b: set<string>)
    ensures 0.0 <= Distance(a, b) <= 1.0
    ensures a == {} || b == {} ==> Distance(a, b) == 1.0
  {
    SimilarityProperties(a, b);
    if a == {} || b == {} {
      assert a * b == {};
    }
  }

  function Share(n: nat, d: nat): real
    requires d > 0
  {
    n as real / d as real
  }

  lemma ShareOfAll(n: nat, d: nat, n1: nat, d1: nat, n2: nat, d2: nat, all: nat)
    requires 0 < d <= all && 0 < d1 <= all && 0 < d2 <= all && n <= d
    requires n + all - d <= n1 + n2
    ensures Share(n, d) <= Share(n1, d1) + Share(n2, d2)
  {
    Widened(n as real, d as real, all as real - d as real);
    AddsUp((n + all - d) as real, n1 as real, n2 as real, all as real);
    Narrowed(n1 as real, d1 as real, all as real);
    Narrowed(n2 as real, d2 as real, all as real);
  }

  lemma DistanceIs(a: set<string>, b: set<string>)
    requires a + b != {}
    ensures |a + b| > 0 && |Apart(a, b)| <= |a + b|
    ensures Distance(a, b) == Share(|Apart(a, b)|, |a + b|)
  {
    assert a + b == Apart(a, b) + a * b;
    Rest(|Apart(a, b)|, |a * b|, |a + b|);
  }

  lemma Rest(n: nat, m: nat, d: nat)
    requires n + m == d && d > 0
    ensures 1.0 - m as real / d as real == n as real / d as real
  {
    var x, y := n as real / d as real, m as real / d as real;
    Quotient(n as real, d as real);
    Quotient(m as real, d as real);
    assert (x + y) * d as real == x * d as real + y * d as real;
    SameFactor(x + y, 1.0, d as real);
  }

  /** Tokens in which `a` and `c` differ, and tokens of `b` alone, all count on the way by `b`; the latter twice. */
  lemma Detour(a: set<string>, b: set<string>, c: set<string>)
    ensures |a + b| <= |a + b + c| && |b + c| <= |a + b + c| && |a + c| <= |a + b + c|
    ensures |Apart(a, c)| + |a + b + c| - |a + c| <= |Apart(a, b)| + |Apart(b, c)|
  {
    var all := a + b + c;
    SubsetIsNoLarger(a + b, all);
    SubsetIsNoLarger(b + c, all);
    SubsetIsNoLarger(a + c, all);
    var alone := all - (a + c);
    assert all == alone + (a + c);
    var either := Apart(a, c) + alone;
    assert |either| == |Apart(a, c)| + |alone|;
    assert either <= Apart(a, b) + Apart(b, c);
    SubsetIsNoLarger(either, Apart(a, b) + Apart(b, c));
  }

  // ----- Counting what is common

  /** Counts the common tokens one by one. */
  method CountCommon(a: set<string>, b: set<string>) returns (inter: nat)
    ensures inter == |a * b|
  {
    inter := 0;
    var rest := a;
    while rest != {}
      invariant rest <= a && inter + |rest * b| == |a * b|
      decreases |rest|
    {
      var k :| k in rest;
      if k in b {
        assert rest * b == (rest - {k}) * b + {k};
        inter := inter + 1;
      } else {
        assert rest * b == (rest - {k}) * b;
      }
      rest := rest - {k};
    }
    assert {} * b == {};
  }

  method Jaccard(a: set<string>, b: set<string>) returns (sim: real)
    ensures sim == Similarity(a, b)
  {
    assert |a| + |b| == |a + b| + |a * b|;
    if |a| == 0 && |b| == 0 {
      return 0.0;
    }
    var inter := CountCommon(a, b);
    var union := |a| + |b| - inter;
    if union == 0 {
      return 0.0;
    }
    return inter as real / union as real;
  }

  // ----- Items

  datatype Item = Item(query: nat, cand: Candidate, tokens: set<string>)

  /** Item `i` stands for offer `i` of the query-major order. */
  ghost predicate TokenizedFrom(css: seq<seq<Candidate>>, flat: seq<Offer>, items: seq<Item>,
                                tokenSet: string -> set<string>) {
    && ValidOffers(css, flat) && |items| == |flat|
    && forall i | 0 <= i < |items| ::
         items[i] == Item(flat[i].query, At(css, flat[i]), tokenSet(At(css, flat[i]).hit.snippet))
  }

  method FlattenTokenized(css: seq<seq<Candidate>>, tokenSet: string -> set<string>) returns (items: seq<Item>)
    ensures TokenizedFrom(css, FlatOffers(css, |css|, 0), items, tokenSet)
  {
    items := [];
    for qi := 0 to |css|
      invariant TokenizedFrom(css, FlatOffers(css, qi, 0), items, tokenSet)
    {
      var cs := css[qi];
      for k := 0 to |cs|
        invariant TokenizedFrom(css, FlatOffers(css, qi, k), items, tokenSet)
      {
        items := items + [Item(qi, cs[k], tokenSet(cs[k].hit.snippet))];
      }
    }
  }

  /** The query-major order never repeats an offer. */
  lemma {:induction false} FlatOffersDistinct(css: seq<seq<Candidate>>, q: nat, k: nat)
    requires q <= |css| && (k > 0 ==> q < |css| && k <= |css[q]|)
    ensures ComesBefore(FlatOffers(css, q, k), q, k) && DistinctOffers(FlatOffers(css, q, k))
    decreases q, k
  {
    if k > 0 {
      FlatOffersDistinct(css, q, k - 1);
      OneMoreOffer(FlatOffers(css, q, k - 1), q, k - 1);
    } else if q > 0 {
      FlatOffersDistinct(css, q - 1, |css[q - 1]|);
    }
  }

  ghost predicate ComesBefore(flat: seq<Offer>, q: nat, k: nat) {
    forall i | 0 <= i < |flat| :: flat[i].query < q || (flat[i].query == q && flat[i].rank < k)
  }

  ghost predicate DistinctOffers(flat: seq<Offer>) {
    forall i, j | 0 <= i < j < |flat| :: flat[i] != flat[j]
  }

  lemma OneMoreOffer(flat: seq<Offer>, q: nat, k: nat)
    requires ComesBefore(flat, q, k) && DistinctOffers(flat)
    ensures ComesBefore(flat + [Offer(q, k)], q, k + 1) && DistinctOffers(flat + [Offer(q, k)])
  {
  }

  // ----- The quadratic reference

  /** The largest similarity of item `i` to anything included so far, computed from scratch. */
  ghost function MaxSim(items: seq<Item>, i: nat, inc: seq<nat>): real
    requires i < |items| && forall k | 0 <= k < |inc| :: inc[k] < |items|
  {
    if inc == [] then 0.0 else
      var before := MaxSim(items, i, inc[..|inc| - 1]);
      var sim := Similarity(items[i].tokens, items[inc[|inc| - 1]].tokens);
      if sim > before then sim else before
  }

  /** `MaxSim` bounds every similarity and, when something is included, is one of them or zero. */
  lemma {:induction false} MaxSimIsMaximum(items: seq<Item>, i: nat, inc: seq<nat>)
    requires i < |items| && forall k | 0 <= k < |inc| :: inc[k] < |items|
    ensures forall k | 0 <= k < |inc| :: Similarity(items[i].tokens, items[inc[k]].tokens) <= MaxSim(items, i, inc)
    ensures MaxSim(items, i, inc) == 0.0
         || exists k :: 0 <= k < |inc| && Similarity(items[i].tokens, items[inc[k]].tokens) == MaxSim(items, i, inc)
  {
    if inc != [] {
      var n := |inc| - 1;
      MaxSimIsMaximum(items, i, inc[..n]);
      var before := MaxSim(items, i, inc[..n]);
      if MaxSim(items, i, inc) == before && before != 0.0 {
        var k :| 0 <= k < n && Similarity(items[i].tokens, items[inc[..n][k]].tokens) == before;
        assert inc[k] == inc[..n][k];
      }
    }
  }

  const LAMBDA: real := 0.7

  ghost function Score(items: seq<Item>, i: nat, inc: seq<nat>): real
    requires i < |items| && forall k | 0 <= k < |inc| :: inc[k] < |items|
  {
    LAMBDA * items[i].cand.relevance - (1.0 - LAMBDA) * MaxSim(items, i, inc)
  }

  /** Which of the items picked so far were included. */
  ghost function IncludedItems(order: seq<nat>, taken: seq<bool>): seq<nat>
    requires |order| == |taken|
  {
    if order == [] then [] else
      var n := |order| - 1;
      var before := IncludedItems(order[..n], taken[..n]);
      if taken[n] then before + [order[n]] else before
  }

  lemma {:induction false} IncludedItemsValid(items: seq<Item>, order: seq<nat>, taken: seq<bool>)
    requires |order| == |taken| && forall k | 0 <= k < |order| :: order[k] < |items|
    ensures forall k | 0 <= k < |IncludedItems(order, taken)| :: IncludedItems(order, taken)[k] < |items|
  {
    if order != [] {
      IncludedItemsValid(items, order[..|order| - 1], taken[..|order| - 1]);
    }
  }

  /** `b` is the best item not picked yet; of equally good ones, the first. */
  ghost predicate IsPick(items: seq<Item>, order: seq<nat>, inc: seq<nat>, b: nat)
    requires forall k | 0 <= k < |inc| :: inc[k] < |items|
  {
    && b < |items| && b !in order
    && forall i: nat | i < |items| && i !in order ::
         Score(items, b, inc) > Score(items, i, inc) || (Score(items, b, inc) == Score(items, i, inc) && b <= i)
  }

  function BytesOf(items: seq<Item>, inc: seq<nat>): nat
    requires forall k | 0 <= k < |inc| :: inc[k] < |items|
  {
    if inc == [] then 0 else BytesOf(items, inc[..|inc| - 1]) + items[inc[|inc| - 1]].cand.size
  }

  /** The reference: every round rescores every unpicked item against everything included so far. */
  ghost predicate ReferenceRun(items: seq<Item>, order: seq<nat>, taken: seq<bool>, budget: int)
    decreases |order|
  {
    && |order| == |taken|
    && (forall k | 0 <= k < |order| :: order[k] < |items|)
    && (order != [] ==>
          var n := |order| - 1;
          && ReferenceRun(items, order[..n], taken[..n], budget)
          && (IncludedItemsValid(items, order[..n], taken[..n]);
              var inc := IncludedItems(order[..n], taken[..n]);
              && IsPick(items, order[..n], inc, order[n])
              && (taken[n] <==> BytesOf(items, inc) + items[order[n]].cand.size <= budget)))
  }

  lemma {:induction false} RunsBefore(items: seq<Item>, order: seq<nat>, taken: seq<bool>, budget: int, n: nat)
    requires ReferenceRun(items, order, taken, budget) && n <= |order|
    ensures ReferenceRun(items, order[..n], taken[..n], budget)
    decreases |order|
  {
    if n < |order| {
      var m := |order| - 1;
      RunsBefore(items, order[..m], taken[..m], budget, n);
      assert order[..m][..n] == order[..n] && taken[..m][..n] == taken[..n];
    } else {
      assert order[..n] == order && taken[..n] == taken;
    }
  }

  /**
   What makes `b` the better pick of the two: a lead in relevance counts seven parts in ten, a lead in
   similarity to what is included counts against it with three; where they balance, the earlier item wins.
   */
  ghost predicate Preferred(items: seq<Item>, inc: seq<nat>, b: nat, i: nat)
    requires b < |items| && i < |items| && forall k | 0 <= k < |inc| :: inc[k] < |items|
  {
    var relevance := items[b].cand.relevance - items[i].cand.relevance;
    var similarity := MaxSim(items, b, inc) - MaxSim(items, i, inc);
    7.0 * relevance > 3.0 * similarity || (7.0 * relevance == 3.0 * similarity && b <= i)
  }

  /** In every round the item picked is preferred to every one that could have been picked instead. */
  lemma PicksThePreferred(items: seq<Item>, order: seq<nat>, taken: seq<bool>, budget: int, n: nat, i: nat)
    requires ReferenceRun(items, order, taken, budget) && n < |order|
    requires i < |items| && i !in order[..n]
    ensures (IncludedItemsValid(items, order[..n], taken[..n]);
             Preferred(items, IncludedItems(order[..n], taken[..n]), order[n], i))
  {
    RunsBefore(items, order, taken, budget, n + 1);
    assert order[..n + 1][..n] == order[..n] && taken[..n + 1][..n] == taken[..n];
    IncludedItemsValid(items, order[..n], taken[..n]);
    var inc := IncludedItems(order[..n], taken[..n]);
    assert IsPick(items, order[..n], inc, order[n]);
  }

  /** Of equally relevant items the one less similar to what is included comes first, and the other way round. */
  lemma DiversityDecidesTies(items: seq<Item>, order: seq<nat>, taken: seq<bool>, budget: int, n: nat, i: nat)
    requires ReferenceRun(items, order, taken, budget) && n < |order|
    requires i < |items| && i !in order[..n]
    ensures (IncludedItemsValid(items, order[..n], taken[..n]);
             var inc, b := IncludedItems(order[..n], taken[..n]), order[n];
             && (items[b].cand.relevance == items[i].cand.relevance ==> MaxSim(items, b, inc) <= MaxSim(items, i, inc))
             && (MaxSim(items, b, inc) == MaxSim(items, i, inc) ==>
                   items[b].cand.relevance >= items[i].cand.relevance))
  {
    PicksThePreferred(items, order, taken, budget, n, i);
  }

  lemma PickUnique(items: seq<Item>, order: seq<nat>, inc: seq<nat>, a: nat, b: nat)
    requires forall k | 0 <= k < |inc| :: inc[k] < |items|
    requires IsPick(items, order, inc, a) && IsPick(items, order, inc, b)
    ensures a == b
  {
  }

  /** The reference leaves no choice. */
  lemma {:induction false} ReferenceUnique(items: seq<Item>, a: seq<nat>, ta: seq<bool>, b: seq<nat>, tb: seq<bool>,
                                           budget: int)
    requires ReferenceRun(items, a, ta, budget) && ReferenceRun(items, b, tb, budget) && |a| == |b|
    ensures a == b && ta == tb
    decreases |a|
  {
    if a != [] {
      var n := |a| - 1;
      var order, taken := a[..n], ta[..n];
      ReferenceUnique(items, order, taken, b[..n], tb[..n], budget);
      IncludedItemsValid(items, order, taken);
      SameLast(items, order, IncludedItems(order, taken), a[n], ta[n], b[n], tb[n], budget);
      SameSnoc(a, b, n);
      SameSnoc(ta, tb, n);
    }
  }

  lemma SameLast(items: seq<Item>, order: seq<nat>, inc: seq<nat>, x: nat, tx: bool, y: nat, ty: bool, budget: int)
    requires forall k | 0 <= k < |inc| :: inc[k] < |items|
    requires IsPick(items, order, inc, x) && (tx <==> BytesOf(items, inc) + items[x].cand.size <= budget)
    requires IsPick(items, order, inc, y) && (ty <==> BytesOf(items, inc) + items[y].cand.size <= budget)
    ensures x == y && tx == ty
  {
    PickUnique(items, order, inc, x, y);
  }

  lemma SameSnoc<T>(a: seq<T>, b: seq<T>, n: nat)
    requires |a| == |b| == n + 1 && a[..n] == b[..n] && a[n] == b[n]
    ensures a == b
  {
    assert a == a[..n] + [a[n]] && b == b[..n] + [b[n]];
  }

  // ----- Each item exactly once

  ghost predicate Distinct<T>(s: seq<T>) {
    forall i, j | 0 <= i < j < |s| :: s[i] != s[j]
  }

  ghost function Below(n: nat): (s: set<nat>)
    ensures |s| == n && forall i: nat :: i in s <==> i < n
  {
    if n == 0 then {} else Below(n - 1) + {n - 1}
  }

  lemma {:induction false} DistinctCardinality<T>(s: seq<T>)
    requires Distinct(s)
    ensures |set x | x in s| == |s|
  {
    if s != [] {
      var n := |s| - 1;
      DistinctCardinality(s[..n]);
      assert (set x | x in s) == (set x | x in s[..n]) + {s[n]};
    }
  }

  /** As long as fewer than `n` items have been picked, one is left. */
  lemma SomeoneLeft(order: seq<nat>, n: nat)
    requires Distinct(order) && |order| < n
    ensures exists i: nat :: i < n && i !in order
  {
    DistinctCardinality(order);
    var picked := set x | x in order;
    if forall i: nat :: i < n ==> i in order {
      assert Below(n) <= picked;
      SubsetIsNoLarger(Below(n), picked);
    }
  }

  lemma AllPicked(order: seq<nat>, n: nat)
    requires Distinct(order) && |order| == n && forall k | 0 <= k < |order| :: order[k] < n
    ensures forall i: nat | i < n :: i in order
  {
    DistinctCardinality(order);
    var picked := set x | x in order;
    if i: nat :| i < n && i !in order {
      assert picked <= Below(n) - {i};
      SubsetIsNoLarger(picked, Below(n) - {i});
    }
  }

  // ----- From picks to offers

  ghost function Offered(flat: seq<Offer>, order: seq<nat>): (offers: seq<Offer>)
    requires forall k | 0 <= k < |order| :: order[k] < |flat|
    ensures |offers| == |order| && forall k | 0 <= k < |order| :: offers[k] == flat[order[k]]
  {
    seq(|order|, k requires 0 <= k < |order| => flat[order[k]])
  }

  /** Flags saying which items have been picked. */
  ghost predicate Flags(selected: seq<bool>, order: seq<nat>) {
    forall i | 0 <= i < |selected| :: selected[i] <==> i in order
  }

  lemma {:induction false} SpentFlagUpdate(css: seq<seq<Candidate>>, flat: seq<Offer>, flags: seq<bool>, i: nat)
    requires |flags| <= |flat| && ValidOffers(css, flat) && i < |flags| && !flags[i]
    ensures Spent(css, flat, flags[i := true]) == Spent(css, flat, flags) + At(css, flat[i]).size
    ensures forall q: nat :: |Included(css, flat, flags[i := true], q)| ==
              |Included(css, flat, flags, q)| + if flat[i].query == q then 1 else 0
    decreases |flags|
  {
    var n := |flags| - 1;
    if i < n {
      SpentFlagUpdate(css, flat, flags[..n], i);
      assert flags[i := true][..n] == flags[..n][i := true];
    } else {
      assert flags[i := true][..n] == flags[..n];
    }
  }

  lemma {:induction false} NoFlags(css: seq<seq<Candidate>>, flat: seq<Offer>, flags: seq<bool>)
    requires |flags| <= |flat| && ValidOffers(css, flat) && true !in flags
    ensures Spent(css, flat, flags) == 0
    ensures forall q: nat :: Included(css, flat, flags, q) == []
    decreases |flags|
  {
    if flags != [] {
      var n := |flags| - 1;
      assert flags[n] in flags;
      NoFlags(css, flat, flags[..n]);
    }
  }

  /** Picked items account for the offers made: the same bytes, the same number per query. */
  ghost predicate PicksAccountFor(css: seq<seq<Candidate>>, flat: seq<Offer>, flags: seq<bool>, offers: seq<Offer>)
    requires |flags| == |flat| && ValidOffers(css, flat) && ValidOffers(css, offers)
  {
    && Spent(css, offers, AllTrue(|offers|)) == Spent(css, flat, flags)
    && forall q: nat :: |RanksOf(offers, q)| == |Included(css, flat, flags, q)|
  }

  lemma PickAccounted(css: seq<seq<Candidate>>, flat: seq<Offer>, flags: seq<bool>, offers: seq<Offer>, b: nat)
    requires |flags| == |flat| && ValidOffers(css, flat) && ValidOffers(css, offers)
    requires b < |flags| && !flags[b] && PicksAccountFor(css, flat, flags, offers)
    ensures ValidOffers(css, offers + [flat[b]])
    ensures PicksAccountFor(css, flat, flags[b := true], offers + [flat[b]])
  {
    SpentFlagUpdate(css, flat, flags, b);
    var o := flat[b];
    assert AllTrue(|offers + [o]|)[..|offers|] == AllTrue(|offers|);
    SpentPrefix(css, offers, [o], AllTrue(|offers|));
    forall q: nat
      ensures |RanksOf(offers + [o], q)| == |RanksOf(offers, q)| + if o.query == q then 1 else 0
    {
      RanksOfSnoc(offers, o, q);
    }
  }

  /** Once every item is picked, every query has been offered all its candidates. */
  lemma AllPicksAccounted(css: seq<seq<Candidate>>, flat: seq<Offer>, flags: seq<bool>, offers: seq<Offer>)
    requires OffersAllInOrder(css, flat) && |flags| == |flat| && ValidOffers(css, offers)
    requires PicksAccountFor(css, flat, flags, offers) && false !in flags
    ensures Spent(css, offers, AllTrue(|offers|)) == TotalSize(css)
    ensures forall q | 0 <= q < |css| :: |RanksOf(offers, q)| == |css[q]|
  {
    forall i | 0 <= i < |flags| ensures flags[i] {
      assert flags[i] in flags;
    }
    assert flags == AllTrue(|flat|);
    AllTakenSpendsTotal(css, flat);
    forall q | 0 <= q < |css|
      ensures |RanksOf(offers, q)| == |css[q]|
    {
      AllTakenIncludesPrefix(css, flat, q);
    }
  }

  // ----- Selection order may differ from rank order

  /** `part` picks elements of `whole`, none twice; `at` are their positions. */
  ghost predicate PicksOnce<T>(part: seq<T>, whole: seq<T>, at: seq<nat>) {
    && |at| == |part| && Distinct(at)
    && forall i | 0 <= i < |at| :: at[i] < |whole| && part[i] == whole[at[i]]
  }

  ghost predicate SubBag<T>(part: seq<T>, whole: seq<T>) {
    exists at :: PicksOnce(part, whole, at)
  }

  lemma {:induction false} DistinctOffersPickOnce(css: seq<seq<Candidate>>, offers: seq<Offer>, taken: seq<bool>,
                                                  q: nat)
    requires |taken| <= |offers| && ValidOffers(css, offers) && q < |css| && Distinct(offers)
    ensures PicksOnce(Included(css, offers, taken, q), css[q], TakenRanks(offers, taken, q))
    ensures forall k | 0 <= k < |TakenRanks(offers, taken, q)| ::
              exists i :: 0 <= i < |taken| && offers[i] == Offer(q, TakenRanks(offers, taken, q)[k])
    decreases |taken|
  {
    if taken != [] {
      var n := |taken| - 1;
      DistinctOffersPickOnce(css, offers, taken[..n], q);
      var before := TakenRanks(offers, taken[..n], q);
      forall k | 0 <= k < |before|
        ensures exists i :: 0 <= i < |taken| && offers[i] == Offer(q, before[k])
        ensures offers[n].query == q ==> before[k] != offers[n].rank
      {
        var i :| 0 <= i < n && offers[i] == Offer(q, before[k]);
      }
      if taken[n] && offers[n].query == q {
        assert offers[n] == Offer(q, offers[n].rank);
      }
    }
  }

  // ----- The allocator

  /** The similarities kept up to date are those of the reference. */
  ghost predicate SimsCurrent(items: seq<Item>, order: seq<nat>, inc: seq<nat>, maxSims: seq<real>) {
    && |maxSims| == |items| && (forall k | 0 <= k < |inc| :: inc[k] < |items|)
    && forall i: nat | i < |items| && i !in order :: maxSims[i] == MaxSim(items, i, inc)
  }

  /** One round's scan for the best item that is still available. */
  method PickBest(items: seq<Item>, selected: seq<bool>, maxSims: seq<real>, ghost order: seq<nat>, ghost inc: seq<nat>)
    returns (best: int)
    requires |selected| == |items| && Flags(selected, order) && SimsCurrent(items, order, inc, maxSims)
    requires forall k | 0 <= k < |order| :: order[k] < |items|
    ensures best == -1 ==> forall i: nat | i < |items| :: i in order
    ensures best != -1 ==> 0 <= best && IsPick(items, order, inc, best)
  {
    best := -1;
    var bestScore := 0.0;
    for i := 0 to |items|
      invariant -1 <= best < i
      invariant best == -1 ==> forall k: nat | k < i :: k in order
      invariant best != -1 ==> best !in order && bestScore == Score(items, best, inc)
      invariant best != -1 ==> forall k: nat | k < i && k !in order ::
                  bestScore > Score(items, k, inc) || (bestScore == Score(items, k, inc) && best <= k)
    {
      if !selected[i] {
        var score := LAMBDA * items[i].cand.relevance - (1.0 - LAMBDA) * maxSims[i];
        assert score == Score(items, i, inc);
        if best == -1 || score > bestScore {
          best, bestScore := i, score;
        }
      }
    }
  }

  /** As long as somebody is left, the scan finds somebody. */
  method PickNext(items: seq<Item>, selected: seq<bool>, maxSims: seq<real>, ghost order: seq<nat>, ghost inc: seq<nat>)
    returns (best: nat)
    requires |selected| == |items| && Flags(selected, order) && SimsCurrent(items, order, inc, maxSims)
    requires Distinct(order) && |order| < |items| && forall k | 0 <= k < |order| :: order[k] < |items|
    ensures IsPick(items, order, inc, best)
  {
    var found := PickBest(items, selected, maxSims, order, inc);
    if found == -1 {
      SomeoneLeft(order, |items|);
      assert false;
    }
    best := found;
  }

  /** Folds one newly included item into the kept similarities. */
  method Absorb(items: seq<Item>, selected: seq<bool>, maxSims: array<real>, best: nat, ghost order: seq<nat>,
                ghost inc: seq<nat>)
    requires best < |items| == |selected| == maxSims.Length && Flags(selected, order)
    requires SimsCurrent(items, order, inc, maxSims[..])
    modifies maxSims
    ensures SimsCurrent(items, order, inc + [best], maxSims[..])
  {
    for i := 0 to |items|
      invariant forall k: nat | k < |items| && k !in order ::
                  maxSims[k] == if k < i then MaxSim(items, k, inc + [best]) else MaxSim(items, k, inc)
    {
      if !selected[i] {
        var sim := Jaccard(items[i].tokens, items[best].tokens);
        assert (inc + [best])[..|inc|] == inc;
        if sim > maxSims[i] {
          maxSims[i] := sim;
        }
      }
    }
  }

  /** The reference's side of what the main loop maintains. */
  ghost predicate RunPart(items: seq<Item>, budget: int, order: seq<nat>, taken: seq<bool>, selected: seq<bool>) {
    && |selected| == |items|
    && ReferenceRun(items, order, taken, budget) && Distinct(order) && Flags(selected, order)
  }

  /** The output's side. */
  ghost predicate OutputPart(css: seq<seq<Candidate>>, flat: seq<Offer>, budget: int, offers: seq<Offer>,
                             taken: seq<bool>, selected: seq<bool>, out: AllocOutput) {
    && ValidOffers(css, flat) && |selected| == |flat| && ValidOffers(css, offers) && |taken| == |offers|
    && PicksAccountFor(css, flat, selected, offers)
    && TakesWhatFits(css, offers, taken, budget)
    && out == Outcome(css, offers, taken)
  }

  /** Everything the main loop maintains. */
  ghost predicate MmrState(css: seq<seq<Candidate>>, flat: seq<Offer>, items: seq<Item>,
                           tokenSet: string -> set<string>,
                           budget: int, order: seq<nat>, taken: seq<bool>, selected: seq<bool>, out: AllocOutput)
  {
    && TokenizedFrom(css, flat, items, tokenSet) && RunPart(items, budget, order, taken, selected)
    && OutputPart(css, flat, budget, Offered(flat, order), taken, selected, out)
    && UsesBytes(items, order, taken, out.byteBudgetUsed)
  }

  ghost predicate UsesBytes(items: seq<Item>, order: seq<nat>, taken: seq<bool>, used: nat)
    requires |order| == |taken| && forall k | 0 <= k < |order| :: order[k] < |items|
  {
    IncludedItemsValid(items, order, taken);
    used == BytesOf(items, IncludedItems(order, taken))
  }

  lemma MmrStarts(css: seq<seq<Candidate>>, flat: seq<Offer>, items: seq<Item>, tokenSet: string -> set<string>,
                  budget: int, selected: seq<bool>)
    requires TokenizedFrom(css, flat, items, tokenSet) && |selected| == |items| && true !in selected
    ensures MmrState(css, flat, items, tokenSet, budget, [], [], selected, NewOutput(|css|))
  {
    NoFlags(css, flat, selected);
    forall i | 0 <= i < |selected| ensures !selected[i] {
      assert selected[i] in selected;
    }
    assert Offered(flat, []) == [] && AllTrue(0) == [];
  }

  function Decided(out: AllocOutput, q: nat, c: Candidate, fits: bool): (next: AllocOutput)
    requires q < |out.included| && q < |out.omitted|
    ensures next.byteBudgetUsed == out.byteBudgetUsed + if fits then c.size else 0
  {
    if fits then Accept(out, q, c) else Decline(out, q)
  }

  /** One pick extends the state, whether the picked item fits or not. */
  lemma MmrAdvances(css: seq<seq<Candidate>>, flat: seq<Offer>, items: seq<Item>, tokenSet: string -> set<string>,
                    budget: int, order: seq<nat>, taken: seq<bool>, selected: seq<bool>, out: AllocOutput, b: nat,
                    fits: bool)
    requires MmrState(css, flat, items, tokenSet, budget, order, taken, selected, out)
    requires (IncludedItemsValid(items, order, taken); IsPick(items, order, IncludedItems(order, taken), b))
    requires fits <==> out.byteBudgetUsed + items[b].cand.size <= budget
    ensures var it := items[b];
            MmrState(css, flat, items, tokenSet, budget, order + [b], taken + [fits], selected[b := true],
                     Decided(out, it.query, it.cand, fits))
    ensures IncludedItems(order + [b], taken + [fits])
            == if fits then IncludedItems(order, taken) + [b] else IncludedItems(order, taken)
  {
    IncludedItemsValid(items, order, taken);
    RunAdvances(items, budget, order, taken, selected, b, fits);
    OfferedSnoc(flat, order, b);
    OutputAdvances(css, flat, budget, Offered(flat, order), taken, selected, out, b, fits);
    UsesMoreBytes(items, order, taken, out.byteBudgetUsed, b, fits);
  }

  lemma UsesMoreBytes(items: seq<Item>, order: seq<nat>, taken: seq<bool>, used: nat, b: nat, fits: bool)
    requires |order| == |taken| && (forall k | 0 <= k < |order| :: order[k] < |items|) && b < |items|
    requires UsesBytes(items, order, taken, used)
    ensures UsesBytes(items, order + [b], taken + [fits], used + if fits then items[b].cand.size else 0)
  {
    IncludedItemsValid(items, order, taken);
    IncludedSnoc(order, taken, b, fits);
    BytesSnoc(items, IncludedItems(order, taken), b);
  }

  /** The reference's side of one pick. */
  lemma RunAdvances(items: seq<Item>, budget: int, order: seq<nat>, taken: seq<bool>, selected: seq<bool>, b: nat,
                    fits: bool)
    requires RunPart(items, budget, order, taken, selected)
    requires (IncludedItemsValid(items, order, taken);
              var inc := IncludedItems(order, taken);
              IsPick(items, order, inc, b) && (fits <==> BytesOf(items, inc) + items[b].cand.size <= budget))
    ensures RunPart(items, budget, order + [b], taken + [fits], selected[b := true])
    ensures IncludedItems(order + [b], taken + [fits])
            == if fits then IncludedItems(order, taken) + [b] else IncludedItems(order, taken)
  {
    IncludedSnoc(order, taken, b, fits);
    ReferenceSnoc(items, order, taken, budget, b, fits);
    FlagsSnoc(selected, order, b);
  }

  /** The output's side of one pick. */
  lemma OutputAdvances(css: seq<seq<Candidate>>, flat: seq<Offer>, budget: int, offers: seq<Offer>, taken: seq<bool>,
                       selected: seq<bool>, out: AllocOutput, b: nat, fits: bool)
    requires OutputPart(css, flat, budget, offers, taken, selected, out) && b < |flat| && !selected[b]
    requires fits <==> out.byteBudgetUsed + At(css, flat[b]).size <= budget
    ensures OutputPart(css, flat, budget, offers + [flat[b]], taken + [fits], selected[b := true],
                       Decided(out, flat[b].query, At(css, flat[b]), fits))
  {
    OutcomeStep(css, offers, taken, flat[b]);
    OutcomeProjects(css, offers, taken);
    TakesWhatFitsStep(css, offers, taken, flat[b], fits, budget);
    PickAccounted(css, flat, selected, offers, b);
  }

  lemma OfferedSnoc(flat: seq<Offer>, order: seq<nat>, b: nat)
    requires b < |flat| && forall k | 0 <= k < |order| :: order[k] < |flat|
    ensures Offered(flat, order + [b]) == Offered(flat, order) + [flat[b]]
  {
  }

  lemma IncludedSnoc(order: seq<nat>, taken: seq<bool>, b: nat, fits: bool)
    requires |order| == |taken|
    ensures IncludedItems(order + [b], taken + [fits]) ==
            if fits then IncludedItems(order, taken) + [b] else IncludedItems(order, taken)
  {
    assert (order + [b])[..|order|] == order && (taken + [fits])[..|taken|] == taken;
  }

  lemma ReferenceSnoc(items: seq<Item>, order: seq<nat>, taken: seq<bool>, budget: int, b: nat, fits: bool)
    requires ReferenceRun(items, order, taken, budget)
    requires (IncludedItemsValid(items, order, taken);
              var inc := IncludedItems(order, taken);
              IsPick(items, order, inc, b) && (fits <==> BytesOf(items, inc) + items[b].cand.size <= budget))
    ensures ReferenceRun(items, order + [b], taken + [fits], budget)
  {
    assert (order + [b])[..|order|] == order && (taken + [fits])[..|taken|] == taken;
  }

  lemma FlagsSnoc(selected: seq<bool>, order: seq<nat>, b: nat)
    requires Flags(selected, order) && b < |selected|
    ensures Flags(selected[b := true], order + [b])
  {
  }

  lemma BytesSnoc(items: seq<Item>, inc: seq<nat>, b: nat)
    requires b < |items| && forall k | 0 <= k < |inc| :: inc[k] < |items|
    ensures BytesOf(items, inc + [b]) == BytesOf(items, inc) + items[b].cand.size
  {
    assert (inc + [b])[..|inc|] == inc;
  }

  /** What a finished run guarantees. */
  lemma MmrComplete(input: AllocInput, flat: seq<Offer>, items: seq<Item>, tokenSet: string -> set<string>,
                    order: seq<nat>, taken: seq<bool>, selected: seq<bool>, out: AllocOutput)
    requires MmrState(input.candidates, flat, items, tokenSet, input.budget, order, taken, selected, out)
    requires flat == FlatOffers(input.candidates, |input.candidates|, 0) && |order| == |items|
    ensures BudgetContract(input, out)
    ensures forall q | 0 <= q < |input.candidates| :: SubBag(out.included[q], input.candidates[q])
    ensures 0 <= input.budget ==> (out.budgetExceeded <==> TotalSize(input.candidates) > input.budget)
  {
    var css, offers := input.candidates, Offered(flat, order);
    FlatOffersAllInOrder(css);
    AllPicked(order, |items|);
    AllPicksAccounted(css, flat, selected, offers);
    OutcomeProjects(css, offers, taken);
    SpentWithin(css, offers, taken, input.budget);
    RunConserves(input, offers, taken, out);
    FlatOffersDistinct(css, |css|, 0);
    forall i, j | 0 <= i < j < |offers|
      ensures offers[i] != offers[j]
    {
      assert order[i] != order[j];
      assert order[i] < order[j] || order[j] < order[i];
    }
    forall q | 0 <= q < |css|
      ensures SubBag(out.included[q], css[q])
    {
      DistinctOffersPickOnce(css, offers, taken, q);
      assert PicksOnce(out.included[q], css[q], TakenRanks(offers, taken, q));
    }
    if 0 <= input.budget {
      DeclinesIffTooMuch(css, offers, taken, input.budget);
    }
  }

  /** One round: the best available item is considered and, if it fits, included. */
  method Consider(items: seq<Item>, budget: int, outBefore: AllocOutput, selectedBefore: seq<bool>,
                  maxSims: array<real>,
                  ghost css: seq<seq<Candidate>>, ghost flat: seq<Offer>, ghost tokenSet: string -> set<string>,
                  ghost orderBefore: seq<nat>, ghost takenBefore: seq<bool>)
    returns (out: AllocOutput, selected: seq<bool>, ghost order: seq<nat>, ghost taken: seq<bool>)
    requires MmrState(css, flat, items, tokenSet, budget, orderBefore, takenBefore, selectedBefore, outBefore)
    requires SimsCurrent(items, orderBefore, IncludedItems(orderBefore, takenBefore), maxSims[..])
    requires |orderBefore| < |items|
    modifies maxSims
    ensures |order| == |orderBefore| + 1
    ensures MmrState(css, flat, items, tokenSet, budget, order, taken, selected, out)
    ensures SimsCurrent(items, order, IncludedItems(order, taken), maxSims[..])
  {
    ghost var inc := IncludedItems(orderBefore, takenBefore);
    var best := PickNext(items, selectedBefore, maxSims[..], orderBefore, inc);
    var it := items[best];
    var fits := outBefore.byteBudgetUsed + it.cand.size <= budget;
    MmrAdvances(css, flat, items, tokenSet, budget, orderBefore, takenBefore, selectedBefore, outBefore, best, fits);
    selected := selectedBefore[best := true];
    order, taken := orderBefore + [best], takenBefore + [fits];
    out := Decided(outBefore, it.query, it.cand, fits);
    FlagsSnoc(selectedBefore, orderBefore, best);
    Remember(items, selected, maxSims, best, fits, orderBefore, inc);
  }

  /** What a round changes in the kept similarities: nothing, unless its item was included. */
  method Remember(items: seq<Item>, selected: seq<bool>, maxSims: array<real>, best: nat, fits: bool,
                  ghost orderBefore: seq<nat>, ghost inc: seq<nat>)
    requires best < |items| == |selected| == maxSims.Length && Flags(selected, orderBefore + [best])
    requires SimsCurrent(items, orderBefore, inc, maxSims[..])
    modifies maxSims
    ensures SimsCurrent(items, orderBefore + [best], if fits then inc + [best] else inc, maxSims[..])
  {
    SimsStayCurrent(items, orderBefore, inc, maxSims[..], best);
    if fits {
      Absorb(items, selected, maxSims, best, orderBefore + [best], inc);
    }
  }

  lemma SimsStayCurrent(items: seq<Item>, order: seq<nat>, inc: seq<nat>, maxSims: seq<real>, b: nat)
    requires SimsCurrent(items, order, inc, maxSims)
    ensures SimsCurrent(items, order + [b], inc, maxSims)
  {
  }

  /**
   Greedy relevance against similarity. `order` lists the items in the order they were considered;
   it is the reference's order, and it names every item exactly once.
   */
  method MaximalMarginalRelevance(input: AllocInput, tokenSet: string -> set<string>)
    returns (out: AllocOutput, ghost items: seq<Item>, ghost order: seq<nat>, ghost taken: seq<bool>)
    ensures var flat := FlatOffers(input.candidates, |input.candidates|, 0);
            && TokenizedFrom(input.candidates, flat, items, tokenSet)
            && ReferenceRun(items, order, taken, input.budget)
            && |order| == |items| && Distinct(order)
            && ValidOffers(input.candidates, Offered(flat, order))
            && out == Outcome(input.candidates, Offered(flat, order), taken)
    ensures BudgetContract(input, out)
    ensures forall q | 0 <= q < |input.candidates| :: SubBag(out.included[q], input.candidates[q])
    ensures 0 <= input.budget ==> (out.budgetExceeded <==> TotalSize(input.candidates) > input.budget)
  {
    var css, budget := input.candidates, input.budget;
    ghost var flat := FlatOffers(css, |css|, 0);
    var all := FlattenTokenized(css, tokenSet);
    items, order, taken := all, [], [];
    var n := |all|;
    var selected: seq<bool> := seq(n, _ => false);
    var maxSims := new real[n](_ => 0.0);
    out := NewOutput(|css|);
    MmrStarts(css, flat, items, tokenSet, budget, selected);
    for count := 0 to n
      invariant |order| == count
      invariant MmrState(css, flat, items, tokenSet, budget, order, taken, selected, out)
      invariant SimsCurrent(items, order, IncludedItems(order, taken), maxSims[..])
    {
      out, selected, order, taken := Consider(all, budget, out, selected, maxSims, css, flat, tokenSet, order, taken);
    }
    MmrComplete(input, flat, items, tokenSet, order, taken, selected, out);
  }
}
