/** The rank-round allocator, and offers in rounds in general (internal/search/allocators.go). */
module Rounds {
  import opened Arithmetic
  import opened Allocation

  /** The round in which an offer is made when query `q` starts at rank `start[q]`. */
  function Round(start: seq<nat>, o: Offer): int {
    if o.query < |start| then o.rank - start[o.query] else 0
  }

  ghost predicate OfferedBefore(start: seq<nat>, a: Offer, b: Offer) {
    Round(start, a) < Round(start, b) || (Round(start, a) == Round(start, b) && a.query < b.query)
  }

  /** From position `from` on, all offers of one round precede those of the next, in query order. */
  ghost predicate RoundByRound(offers: seq<Offer>, start: seq<nat>, from: nat) {
    forall i, j | from <= i < j < |offers| :: OfferedBefore(start, offers[i], offers[j])
  }

  function Zeros(n: nat): (s: seq<nat>)
    ensures |s| == n && forall i | 0 <= i < n :: s[i] == 0
  {
    seq(n, _ => 0)
  }

  ghost predicate StartsWithin(css: seq<seq<Candidate>>, start: seq<nat>) {
    |start| == |css| && forall q | 0 <= q < |css| :: start[q] <= |css[q]|
  }

  /** The offers of `r` whole rounds and of the first `qi` queries of the next one. */
  ghost function RoundOffers(css: seq<seq<Candidate>>, start: seq<nat>, r: nat, qi: nat): seq<Offer>
    requires |start| == |css| && qi <= |css|
    decreases r, qi
  {
    if qi > 0 then
      var before := RoundOffers(css, start, r, qi - 1);
      if start[qi - 1] + r < |css[qi - 1]| then before + [Offer(qi - 1, start[qi - 1] + r)] else before
    else if r > 0 then RoundOffers(css, start, r - 1, |css|)
    else []
  }

  /** Rounds come in order and leave out nobody. */
  lemma {:induction false} RoundOffersInOrder(css: seq<seq<Candidate>>, start: seq<nat>, r: nat, qi: nat)
    requires StartsWithin(css, start) && qi <= |css|
    ensures var offers := RoundOffers(css, start, r, qi);
            && ValidOffers(css, offers) && RoundByRound(offers, start, 0)
            && (forall i | 0 <= i < |offers| ::
                  Round(start, offers[i]) < r || (Round(start, offers[i]) == r && offers[i].query < qi))
    decreases r, qi
  {
    if qi > 0 {
      RoundOffersInOrder(css, start, r, qi - 1);
    } else if r > 0 {
      RoundOffersInOrder(css, start, r - 1, |css|);
    }
  }

  /** How far `r` rounds and `qi` queries of the next one have brought query `q`. */
  ghost function Reach(css: seq<seq<Candidate>>, start: seq<nat>, r: nat, qi: nat, q: nat): nat
    requires q < |css| == |start|
  {
    Min(|css[q]|, start[q] + r + if q < qi then 1 else 0)
  }

  lemma ReachStep(css: seq<seq<Candidate>>, start: seq<nat>, r: nat, qi: nat, q: nat)
    requires StartsWithin(css, start) && qi < |css| && q < |css|
    ensures var before, after := Reach(css, start, r, qi, q), Reach(css, start, r, qi + 1, q);
            if q == qi && start[qi] + r < |css[qi]| then before == start[q] + r && after == before + 1
              else after == before
  {
  }

  ghost predicate RanksReach(css: seq<seq<Candidate>>, start: seq<nat>, r: nat, qi: nat, q: nat)
    requires StartsWithin(css, start) && qi <= |css| && q < |css|
  {
    RanksOf(RoundOffers(css, start, r, qi), q) == Range(start[q], Reach(css, start, r, qi, q))
  }

  lemma OneQueryFurther(css: seq<seq<Candidate>>, start: seq<nat>, r: nat, qi: nat, q: nat)
    requires StartsWithin(css, start) && qi < |css| && q < |css| && RanksReach(css, start, r, qi, q)
    ensures RanksReach(css, start, r, qi + 1, q)
  {
    ReachStep(css, start, r, qi, q);
    RoundRanksStep(css, start, r, qi, q);
    if q == qi && start[q] + r < |css[q]| {
      RangeSnoc(start[q], start[q] + r);
    }
  }

  lemma OneRoundFurther(css: seq<seq<Candidate>>, start: seq<nat>, r: nat, q: nat)
    requires StartsWithin(css, start) && r > 0 && q < |css| && RanksReach(css, start, r - 1, |css|, q)
    ensures RanksReach(css, start, r, 0, q)
  {
    assert Reach(css, start, r - 1, |css|, q) == Reach(css, start, r, 0, q);
  }

  lemma NoRoundYet(css: seq<seq<Candidate>>, start: seq<nat>, q: nat)
    requires StartsWithin(css, start) && q < |css|
    ensures RanksReach(css, start, 0, 0, q)
  {
    assert Range(start[q], start[q]) == [];
  }

  /** Rank by rank, and within a rank query by query: how two offers of a run that starts at the top are ordered. */
  lemma RanksThenQueries(css: seq<seq<Candidate>>, offers: seq<Offer>, i: nat, j: nat)
    requires ValidOffers(css, offers) && RoundByRound(offers, Zeros(|css|), 0)
    requires i < |offers| && j < |offers| && i != j
    ensures i < j <==> offers[i].rank < offers[j].rank
                       || (offers[i].rank == offers[j].rank && offers[i].query < offers[j].query)
  {
    if i < j {
      assert OfferedBefore(Zeros(|css|), offers[i], offers[j]);
    } else {
      assert OfferedBefore(Zeros(|css|), offers[j], offers[i]);
    }
  }

  lemma {:induction false} RoundOffersRanks(css: seq<seq<Candidate>>, start: seq<nat>, r: nat, qi: nat, q: nat)
    requires StartsWithin(css, start) && qi <= |css| && q < |css|
    ensures RanksReach(css, start, r, qi, q)
    decreases r, qi
  {
    if qi > 0 {
      RoundOffersRanks(css, start, r, qi - 1, q);
      OneQueryFurther(css, start, r, qi - 1, q);
    } else if r > 0 {
      RoundOffersRanks(css, start, r - 1, |css|, q);
      OneRoundFurther(css, start, r, q);
    } else {
      NoRoundYet(css, start, q);
    }
  }

  lemma RoundRanksStep(css: seq<seq<Candidate>>, start: seq<nat>, r: nat, qi: nat, q: nat)
    requires StartsWithin(css, start) && qi < |css| && q < |css|
    ensures RanksOf(RoundOffers(css, start, r, qi + 1), q) ==
            if q == qi && start[qi] + r < |css[qi]| then RanksOf(RoundOffers(css, start, r, qi), q) + [start[q] + r]
            else RanksOf(RoundOffers(css, start, r, qi), q)
  {
    if start[qi] + r < |css[qi]| {
      RanksOfSnoc(RoundOffers(css, start, r, qi), Offer(qi, start[qi] + r), q);
    }
  }

  lemma RangeSnoc(lo: nat, hi: nat)
    requires lo <= hi
    ensures Range(lo, hi + 1) == Range(lo, hi) + [hi]
  {
  }

  method LongestRanking(css: seq<seq<Candidate>>) returns (maxRank: nat)
    ensures forall q | 0 <= q < |css| :: |css[q]| <= maxRank
  {
    maxRank := 0;
    for i := 0 to |css|
      invariant forall q | 0 <= q < i :: |css[q]| <= maxRank
    {
      if |css[i]| > maxRank {
        maxRank := |css[i]|;
      }
    }
  }

  /** A greedy run, together with the output it has produced. */
  ghost predicate GreedyRun(css: seq<seq<Candidate>>, offers: seq<Offer>, taken: seq<bool>, budget: int,
                            out: AllocOutput) {
    && ValidOffers(css, offers) && |taken| == |offers|
    && TakesWhatFits(css, offers, taken, budget)
    && out == Outcome(css, offers, taken)
  }

  /** One more offer extends the run. */
  lemma RunOffer(css: seq<seq<Candidate>>, offers: seq<Offer>, taken: seq<bool>, o: Offer, budget: int,
                 out: AllocOutput)
    requires GreedyRun(css, offers, taken, budget, out) && ValidOffer(css, o)
    ensures if out.byteBudgetUsed + At(css, o).size <= budget then
              GreedyRun(css, offers + [o], taken + [true], budget, Accept(out, o.query, At(css, o)))
            else
              GreedyRun(css, offers + [o], taken + [false], budget, Decline(out, o.query))
  {
    OutcomeProjects(css, offers, taken);
    OutcomeStep(css, offers, taken, o);
    var fits := Spent(css, offers, taken) + At(css, o).size <= budget;
    TakesWhatFitsStep(css, offers, taken, o, fits, budget);
  }

  /** What a finished run guarantees. */
  lemma RunComplete(input: AllocInput, offers: seq<Offer>, taken: seq<bool>)
    requires OffersAllInOrder(input.candidates, offers) && |taken| == |offers|
    requires TakesWhatFits(input.candidates, offers, taken, input.budget)
    ensures var out := Outcome(input.candidates, offers, taken);
            && BudgetContract(input, out) && InOrder(input, out)
            && (0 <= input.budget ==> (out.budgetExceeded <==> TotalSize(input.candidates) > input.budget))
  {
    var css := input.candidates;
    OutcomeProjects(css, offers, taken);
    SpentWithin(css, offers, taken, input.budget);
    RunMeetsContract(input, offers, taken, Outcome(css, offers, taken));
    AllTakenSpendsTotal(css, offers);
    if 0 <= input.budget {
      DeclinesIffTooMuch(css, offers, taken, input.budget);
    }
  }

  /** All rounds together offer every candidate. */
  lemma AllRounds(css: seq<seq<Candidate>>, r: nat)
    requires forall q | 0 <= q < |css| :: |css[q]| <= r
    ensures var offers := RoundOffers(css, Zeros(|css|), r, 0);
            OffersAllInOrder(css, offers) && RoundByRound(offers, Zeros(|css|), 0)
  {
    RoundOffersInOrder(css, Zeros(|css|), r, 0);
    forall q | 0 <= q < |css|
      ensures RanksOf(RoundOffers(css, Zeros(|css|), r, 0), q) == Range(0, |css[q]|)
    {
      RoundOffersRanks(css, Zeros(|css|), r, 0, q);
    }
  }

  /**
   Goes through the ranks, and for each rank through the queries. Every candidate is offered once;
   one that is too large for what is left is counted and the run goes on.
   */
  method RankRound(input: AllocInput) returns (out: AllocOutput, ghost offers: seq<Offer>, ghost taken: seq<bool>)
    ensures OffersAllInOrder(input.candidates, offers) && |taken| == |offers|
    ensures RoundByRound(offers, Zeros(|input.candidates|), 0)
    ensures TakesWhatFits(input.candidates, offers, taken, input.budget)
    ensures out == Outcome(input.candidates, offers, taken)
    ensures BudgetContract(input, out) && InOrder(input, out)
    ensures 0 <= input.budget ==> (out.budgetExceeded <==> TotalSize(input.candidates) > input.budget)
  {
    var css, budget := input.candidates, input.budget;
    ghost var start := Zeros(|css|);
    out, offers, taken := NewOutput(|css|), [], [];
    var maxRank := LongestRanking(css);
    for r := 0 to maxRank
      invariant offers == RoundOffers(css, start, r, 0)
      invariant GreedyRun(css, offers, taken, budget, out)
    {
      for qi := 0 to |css|
        invariant offers == RoundOffers(css, start, r, qi)
        invariant GreedyRun(css, offers, taken, budget, out)
      {
        var cs := css[qi];
        if r < |cs| {
          var c := cs[r];
          RunOffer(css, offers, taken, Offer(qi, r), budget, out);
          offers := offers + [Offer(qi, r)];
          if out.byteBudgetUsed + c.size <= budget {
            out := Accept(out, qi, c);
            taken := taken + [true];
          } else {
            out := Decline(out, qi);
            taken := taken + [false];
          }
        }
      }
    }
    AllRounds(css, maxRank);
    RunComplete(input, offers, taken);
  }

  /**
   No starvation: a rank-r candidate is omitted only when the candidates of ranks up to r that were
   offered before it have left too little room.
   */
  lemma OmittedOnlyForLowerRanks(css: seq<seq<Candidate>>, offers: seq<Offer>, taken: seq<bool>, budget: int, i: nat)
    requires OffersAllInOrder(css, offers) && |taken| == |offers| && i < |taken| && !taken[i]
    requires RoundByRound(offers, Zeros(|css|), 0)
    requires TakesWhatFits(css, offers, taken, budget)
    ensures Spent(css, offers, taken[..i]) > budget - At(css, offers[i]).size
    ensures forall j | 0 <= j < i :: offers[j].rank <= offers[i].rank
  {
    DecisionAt(css, offers, taken, budget, i);
    forall j | 0 <= j < i
      ensures offers[j].rank <= offers[i].rank
    {
      assert OfferedBefore(Zeros(|css|), offers[j], offers[i]);
    }
  }
}
