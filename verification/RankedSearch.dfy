/**
 A ranked search after its hits have been fetched (`Search` in internal/search/service.go): relevance
 is normalized, hits are sized as they go over the wire, and one of five allocators spends the budget.
 */
module RankedSearch {
  import opened SearchHits
  import opened Allocation
  import opened Relevance
  import opened Wire
  import Rounds
  import Apportionment
  import EqualShares
  import ScoreShares
  import Knapsack
  import Mmr
  import Fusion

  datatype Variant = RankRound | ScoreProportional | KnapsackGreedy | EqualBudget | MaximalMarginalRelevance

  datatype QueryResult = QueryResult(hits: seq<SearchHit>, budgetOmitted: nat)

  datatype SearchResult = SearchResult(queries: seq<QueryResult>, byteBudgetUsed: nat, budgetExceeded: bool)

  // ----- Candidates

  function CandidateOf(h: SearchHit): Candidate {
    Candidate(h, WireSize(h), h.relevance)
  }

  /** The least a hit can take; one without any text takes just that. */
  lemma LeastHit(h: SearchHit)
    ensures CandidateOf(h).size >= 61
    ensures h.title == h.snippet == h.source == "" && h.layer == Primary && !h.truncated ==> CandidateOf(h).size == 61
  {
    JsonLenBounds(h.title);
    JsonLenBounds(h.snippet);
    JsonLenBounds(h.source);
  }

  function CandidatesOf(hits: seq<SearchHit>): seq<Candidate> {
    seq(|hits|, i requires 0 <= i < |hits| => CandidateOf(hits[i]))
  }

  function AllCandidates(r: Response): seq<seq<Candidate>> {
    seq(|r|, q requires 0 <= q < |r| => CandidatesOf(r[q]))
  }

  function HitsOf(cs: seq<Candidate>): seq<SearchHit> {
    seq(|cs|, i requires 0 <= i < |cs| => cs[i].hit)
  }

  /** What hits of this response would take together. */
  function WireTotal(r: Response): nat {
    TotalSize(AllCandidates(r))
  }

  lemma {:induction false} SameSizes(a: seq<SearchHit>, b: seq<SearchHit>)
    requires |a| == |b| && forall i | 0 <= i < |a| :: b[i] == a[i].(relevance := b[i].relevance)
    ensures SizeOf(CandidatesOf(a)) == SizeOf(CandidatesOf(b))
  {
    if a != [] {
      var n := |a| - 1;
      SameSizes(a[..n], b[..n]);
      LastSize(a);
      LastSize(b);
      assert b[n] == a[n].(relevance := b[n].relevance);
    }
  }

  lemma LastSize(hits: seq<SearchHit>)
    requires hits != []
    ensures SizeOf(CandidatesOf(hits)) == SizeOf(CandidatesOf(hits[..|hits| - 1])) + WireSize(hits[|hits| - 1])
  {
    assert CandidatesOf(hits)[..|hits| - 1] == CandidatesOf(hits[..|hits| - 1]);
  }

  /** Relevance does not go over the wire, so normalizing it changes no size. */
  lemma {:induction false} NormalizingKeepsSizes(a: Response, b: Response)
    requires OnlyRelevanceChanges(a, b)
    ensures WireTotal(a) == WireTotal(b)
  {
    if a != [] {
      var n := |a| - 1;
      assert OnlyRelevanceChanges(a[..n], b[..n]) by {
        forall q, i | Has(a[..n], q, i)
          ensures b[..n][q][i] == a[..n][q][i].(relevance := b[..n][q][i].relevance)
        {
          assert Has(a, q, i);
        }
      }
      NormalizingKeepsSizes(a[..n], b[..n]);
      assert AllCandidates(a)[..n] == AllCandidates(a[..n]) && AllCandidates(b)[..n] == AllCandidates(b[..n]);
      forall i | 0 <= i < |a[n]|
        ensures b[n][i] == a[n][i].(relevance := b[n][i].relevance)
      {
        assert Has(a, n, i);
      }
      SameSizes(a[n], b[n]);
    }
  }

  // ----- Allocation

  ghost predicate EveryRanked(r: Response) {
    forall q, i | Has(r, q, i) :: Ranked(r[q][i])
  }

  /** Hits fetched by fused and substring search are all of a ranked group. */
  lemma FetchedIsRanked(perQuery: Response, bests: seq<seq<Fusion.Candidate>>, trigrams: seq<seq<Fusion.TrigramRow>>,
                        limit: nat, excerpt: Fusion.Excerpt)
    requires |bests| == |trigrams| == |perQuery|
    requires forall q | 0 <= q < |perQuery| ::
               |bests[q]| <= limit && perQuery[q] == Fusion.Found(bests[q], trigrams[q], limit, excerpt)
    ensures EveryRanked(perQuery)
  {
    forall q, i | Has(perQuery, q, i)
      ensures Ranked(perQuery[q][i])
    {
      Fusion.EveryHitIsRanked(bests[q], trigrams[q], limit, excerpt);
      assert perQuery[q][i] in perQuery[q];
    }
  }

  lemma NormalizedIsPositive(before: Response, after: Response)
    requires Normalized(before, after) && EveryRanked(before)
    ensures Knapsack.AllPositive(AllCandidates(after)) && ScoreShares.NonNegativeTops(AllCandidates(after))
  {
    TiersAreDisjoint(before, after);
    var css: seq<seq<Candidate>> := AllCandidates(after);
    forall q: int, i: int | 0 <= q < |css| && 0 <= i < |css[q]|
      ensures css[q][i].relevance > 0.0
    {
      assert Has(before, q, i) && Has(after, q, i) && Ranked(after[q][i]);
    }
  }

  /** Rank by rank across the queries, taking whatever still fits. */
  ghost predicate RankByRank(input: AllocInput, out: AllocOutput, offers: seq<Offer>, taken: seq<bool>) {
    var css := input.candidates;
    && OffersAllInOrder(css, offers) && |taken| == |offers| && out == Outcome(css, offers, taken)
    && Rounds.RoundByRound(offers, Rounds.Zeros(|css|), 0)
    && TakesWhatFits(css, offers, taken, input.budget)
  }

  /** First a prefix of every query within its share of the budget, then the rest round by round, taking what fits. */
  ghost predicate ShareThenSpill(input: AllocInput, out: AllocOutput, shares: seq<int>, next: seq<nat>,
                                 offers: seq<Offer>, taken: seq<bool>) {
    var css, weights := input.candidates, ScoreShares.Weights(input.candidates);
    && OffersAllInOrder(css, offers) && |taken| == |offers| && out == Outcome(css, offers, taken)
    && TakesWhatFits(css, offers, taken, input.budget)
    && (css != [] ==>
          var first := ScoreShares.PrefixOffers(next);
          && |next| == |shares| == |css|
          && Apportionment.SumReal(weights) > 0.0
          && Apportionment.QuotaRule(weights, Apportionment.SumReal(weights), input.budget, shares)
          && (forall q | 0 <= q < |css| :: ScoreShares.StopsAt(css[q], shares[q], next[q]))
          && first <= offers && taken[..|first|] == AllTrue(|first|)
          && Rounds.RoundByRound(offers, next, |first|))
  }

  /** A selection that fits and that no selection that fits beats in relevance; ties leave out the later candidate. */
  ghost predicate MostRelevant(input: AllocInput, out: AllocOutput, offers: seq<Offer>, items: seq<Knapsack.Item>,
                               chosen: seq<bool>) {
    var css := input.candidates;
    && input.budget > 0 && OffersAllInOrder(css, offers) && Knapsack.ItemsOf(css, offers, items)
    && |chosen| == |offers| && out == Outcome(css, offers, chosen)
    && Knapsack.Optimal(css, offers, items, chosen, input.budget)
    && Knapsack.DropsLaterTies(css, offers, items, chosen, input.budget)
  }

  /** Every query by itself, within its own cap. */
  ghost predicate CappedAlike(input: AllocInput, out: AllocOutput) {
    var css := input.candidates;
    && |out.included| == |css|
    && forall q | 0 <= q < |css| ::
         out.included[q] == EqualShares.Fits(css[q], EqualShares.Caps(input.budget, |css|)[q])
  }

  /** The order in which rescoring against everything included picks the items, taking what fits. */
  ghost predicate Diverse(input: AllocInput, tokenSet: string -> set<string>, out: AllocOutput, items: seq<Mmr.Item>,
                          order: seq<nat>, taken: seq<bool>) {
    var css := input.candidates;
    var flat := FlatOffers(css, |css|, 0);
    && Mmr.TokenizedFrom(css, flat, items, tokenSet) && Mmr.ReferenceRun(items, order, taken, input.budget)
    && |order| == |items| && Mmr.Distinct(order)
    && ValidOffers(css, Mmr.Offered(flat, order)) && out == Outcome(css, Mmr.Offered(flat, order), taken)
  }

  /** What distinguishes each of the five. */
  ghost predicate ChosenBy(variant: Variant, input: AllocInput, tokenSet: string -> set<string>, out: AllocOutput) {
    match variant
    case RankRound => exists offers, taken :: RankByRank(input, out, offers, taken)
    case ScoreProportional =>
      exists shares, next, offers, taken :: ShareThenSpill(input, out, shares, next, offers, taken)
    case KnapsackGreedy => exists offers, items, chosen :: MostRelevant(input, out, offers, items, chosen)
    case EqualBudget => CappedAlike(input, out)
    case MaximalMarginalRelevance => exists items, order, taken :: Diverse(input, tokenSet, out, items, order, taken)
  }

  /** What all five allocators promise; only the equal shares may turn something away that would have fitted. */
  ghost predicate Promised(variant: Variant, input: AllocInput, out: AllocOutput) {
    && BudgetContract(input, out)
    && (!variant.MaximalMarginalRelevance? ==> InOrder(input, out))
    && (forall q | 0 <= q < |input.candidates| :: Mmr.SubBag(out.included[q], input.candidates[q]))
    && (!variant.EqualBudget? ==> (out.budgetExceeded <==> TotalSize(input.candidates) > input.budget))
  }

  method Allocate(variant: Variant, input: AllocInput, tokenSet: string -> set<string>) returns (out: AllocOutput)
    requires input.budget > 0 && Knapsack.AllPositive(input.candidates) && ScoreShares.NonNegativeTops(input.candidates)
    ensures ChosenBy(variant, input, tokenSet, out) && Promised(variant, input, out)
  {
    match variant {
      case RankRound =>
        ghost var offers, taken;
        out, offers, taken := Rounds.RankRound(input);
        assert RankByRank(input, out, offers, taken);
      case ScoreProportional =>
        ghost var shares, next, offers, taken;
        out, shares, next, offers, taken := ScoreShares.ScoreProportional(input);
        assert ShareThenSpill(input, out, shares, next, offers, taken);
      case KnapsackGreedy =>
        ghost var offers, items, chosen;
        out, offers, items, chosen := Knapsack.KnapsackGreedy(input);
        assert MostRelevant(input, out, offers, items, chosen);
      case EqualBudget =>
        out := EqualShares.EqualBudget(input);
      case MaximalMarginalRelevance =>
        ghost var items, order, taken;
        out, items, order, taken := Mmr.MaximalMarginalRelevance(input, tokenSet);
        assert Diverse(input, tokenSet, out, items, order, taken);
        return;
    }
    InOrderIsSubBag(input, out);
  }

  lemma InOrderIsSubBag(input: AllocInput, out: AllocOutput)
    requires InOrder(input, out)
    ensures forall q | 0 <= q < |input.candidates| :: Mmr.SubBag(out.included[q], input.candidates[q])
  {
    forall q | 0 <= q < |input.candidates|
      ensures Mmr.SubBag(out.included[q], input.candidates[q])
    {
      assert Subsequence(out.included[q], input.candidates[q]);
      var at :| PicksInOrder(out.included[q], input.candidates[q], at);
      assert Mmr.PicksOnce(out.included[q], input.candidates[q], at);
    }
  }

  // ----- From candidates back to hits

  lemma HitsInOrder(part: seq<Candidate>, hits: seq<SearchHit>)
    requires Subsequence(part, CandidatesOf(hits))
    ensures Subsequence(HitsOf(part), hits)
  {
    var at :| PicksInOrder(part, CandidatesOf(hits), at);
    assert PicksInOrder(HitsOf(part), hits, at);
  }

  lemma HitsPicked(part: seq<Candidate>, hits: seq<SearchHit>)
    requires Mmr.SubBag(part, CandidatesOf(hits))
    ensures Mmr.SubBag(HitsOf(part), hits) && CandidatesOf(HitsOf(part)) == part
  {
    var at :| Mmr.PicksOnce(part, CandidatesOf(hits), at);
    assert Mmr.PicksOnce(HitsOf(part), hits, at);
    forall i | 0 <= i < |part|
      ensures CandidateOf(part[i].hit) == part[i]
    {
      assert part[i] == CandidatesOf(hits)[at[i]];
    }
  }

  function Delivered(queries: seq<QueryResult>): Response {
    seq(|queries|, q requires 0 <= q < |queries| => queries[q].hits)
  }

  /**
   What any answer keeps to: every query delivers some of its own normalized hits, none twice and,
   but for diversity ranking, in their order; delivered and omitted make up all there were; the bytes
   reported are those delivered and within the budget; and the budget was exceeded exactly when some
   hit was dropped, which but for equal shares is exactly when the hits together were too large.
   */
  ghost predicate Delivers(perQuery: Response, normalized: Response, budget: int, variant: Variant,
                           result: SearchResult) {
    && Normalized(perQuery, normalized) && |result.queries| == |perQuery|
    && (forall q | 0 <= q < |perQuery| ::
          && |result.queries[q].hits| + result.queries[q].budgetOmitted == |perQuery[q]|
          && Mmr.SubBag(result.queries[q].hits, normalized[q])
          && (!variant.MaximalMarginalRelevance? ==> Subsequence(result.queries[q].hits, normalized[q])))
    && result.byteBudgetUsed == WireTotal(Delivered(result.queries)) <= budget
    && (result.budgetExceeded <==> exists q :: 0 <= q < |result.queries| && result.queries[q].budgetOmitted > 0)
    && (!variant.EqualBudget? ==> (result.budgetExceeded <==> WireTotal(perQuery) > budget))
  }

  function ResultOf(out: AllocOutput): SearchResult
    requires |out.included| == |out.omitted|
  {
    SearchResult(seq(|out.included|, q requires 0 <= q < |out.included| =>
                     QueryResult(HitsOf(out.included[q]), out.omitted[q])),
                 out.byteBudgetUsed, out.budgetExceeded)
  }

  /** The result is what the variant asked for, and no other, selects from these candidates. */
  ghost predicate ReportsChoice(variant: Variant, input: AllocInput, tokenSet: string -> set<string>, out: AllocOutput,
                                result: SearchResult) {
    ChosenBy(variant, input, tokenSet, out) && |out.included| == |out.omitted| && result == ResultOf(out)
  }

  /** The answer to a search: a selection by the variant asked for, from the normalized hits of all queries. */
  ghost predicate Answers(perQuery: Response, normalized: Response, budget: int, variant: Variant,
                          tokenSet: string -> set<string>, result: SearchResult) {
    && Delivers(perQuery, normalized, budget, variant, result)
    && exists out :: ReportsChoice(variant, AllocInput(AllCandidates(normalized), budget), tokenSet, out, result)
  }

  lemma PromisedDelivers(perQuery: Response, normalized: Response, budget: int, variant: Variant, out: AllocOutput)
    requires budget > 0 && Normalized(perQuery, normalized)
    requires Promised(variant, AllocInput(AllCandidates(normalized), budget), out)
    ensures Delivers(perQuery, normalized, budget, variant, ResultOf(out))
  {
    var input, result := AllocInput(AllCandidates(normalized), budget), ResultOf(out);
    NormalizingKeepsSizes(perQuery, normalized);
    forall q | 0 <= q < |perQuery|
      ensures |result.queries[q].hits| + result.queries[q].budgetOmitted == |perQuery[q]|
      ensures Mmr.SubBag(result.queries[q].hits, normalized[q])
      ensures !variant.MaximalMarginalRelevance? ==> Subsequence(result.queries[q].hits, normalized[q])
      ensures AllCandidates(Delivered(result.queries))[q] == out.included[q]
    {
      assert input.candidates[q] == CandidatesOf(normalized[q]);
      HitsPicked(out.included[q], normalized[q]);
      if !variant.MaximalMarginalRelevance? {
        HitsInOrder(out.included[q], normalized[q]);
      }
    }
    assert AllCandidates(Delivered(result.queries)) == out.included;
    if q :| 0 <= q < |out.omitted| && out.omitted[q] > 0 {
      assert result.queries[q].budgetOmitted > 0;
    }
  }

  method SizeCandidates(r: Response) returns (cands: seq<seq<Candidate>>)
    ensures cands == AllCandidates(r)
  {
    cands := [];
    for q := 0 to |r|
      invariant cands == AllCandidates(r)[..q]
    {
      var cs: seq<Candidate> := [];
      for i := 0 to |r[q]|
        invariant cs == CandidatesOf(r[q])[..i]
      {
        cs := cs + [Candidate(r[q][i], WireSize(r[q][i]), r[q][i].relevance)];
      }
      assert cs == CandidatesOf(r[q]);
      cands := cands + [cs];
    }
  }

  method Search(perQuery: Response, budget: int, variant: Variant, tokenSet: string -> set<string>)
    returns (result: SearchResult, ghost normalized: Response)
    requires budget > 0 && EveryRanked(perQuery)
    ensures Answers(perQuery, normalized, budget, variant, tokenSet, result)
  {
    var batch := new Batch(perQuery);
    batch.NormalizeRelevance();
    var hits := batch.perQuery;
    normalized := hits;
    NormalizedIsPositive(perQuery, normalized);
    var cands := SizeCandidates(hits);
    var out := Allocate(variant, AllocInput(cands, budget), tokenSet);
    PromisedDelivers(perQuery, normalized, budget, variant, out);
    result := ResultOf(out);
    assert ReportsChoice(variant, AllocInput(AllCandidates(normalized), budget), tokenSet, out, result);
  }
}
