/**
 The contract all byte-budget allocators share.

 An allocator works through its candidates one at a time. We describe a run by the sequence of
 offers it makes (each offer names a query and a rank within that query) and by the decision taken
 on each offer. What comes out of the allocator is a projection of that run.
 */
module Allocation {
  import opened Arithmetic
  import opened SearchHits

  datatype Candidate = Candidate(hit: SearchHit, size: nat, relevance: real)

  datatype AllocInput = AllocInput(candidates: seq<seq<Candidate>>, budget: int)

  datatype AllocOutput = AllocOutput(
    included: seq<seq<Candidate>>,
    omitted: seq<nat>,
    byteBudgetUsed: nat,
    budgetExceeded: bool)

  datatype Offer = Offer(query: nat, rank: nat)

  function NewOutput(queries: nat): (out: AllocOutput)
    ensures |out.included| == |out.omitted| == queries
    ensures forall q | 0 <= q < queries :: out.included[q] == [] && out.omitted[q] == 0
  {
    AllocOutput(seq(queries, _ => []), seq(queries, _ => 0), 0, false)
  }

  function Accept(out: AllocOutput, q: nat, c: Candidate): AllocOutput
    requires q < |out.included|
  {
    out.(included := out.included[q := out.included[q] + [c]], byteBudgetUsed := out.byteBudgetUsed + c.size)
  }

  function Decline(out: AllocOutput, q: nat): AllocOutput
    requires q < |out.omitted|
  {
    out.(omitted := out.omitted[q := out.omitted[q] + 1], budgetExceeded := true)
  }

  // ----- Sizes

  function SizeOf(cs: seq<Candidate>): nat {
    if cs == [] then 0 else SizeOf(cs[..|cs| - 1]) + cs[|cs| - 1].size
  }

  function TotalSize(css: seq<seq<Candidate>>): nat {
    if css == [] then 0 else TotalSize(css[..|css| - 1]) + SizeOf(css[|css| - 1])
  }

  lemma SizeOfSnoc(cs: seq<Candidate>, c: Candidate)
    ensures SizeOf(cs + [c]) == SizeOf(cs) + c.size
  {
    assert (cs + [c])[..|cs|] == cs;
  }

  lemma {:induction false} TotalSizeUpdate(css: seq<seq<Candidate>>, q: nat, cs: seq<Candidate>)
    requires q < |css|
    ensures TotalSize(css[q := cs]) == TotalSize(css) - SizeOf(css[q]) + SizeOf(cs)
  {
    var n := |css| - 1;
    if q == n {
      assert css[q := cs][..n] == css[..n];
    } else {
      TotalSizeUpdate(css[..n], q, cs);
      assert css[q := cs][..n] == css[..n][q := cs];
    }
  }

  lemma {:induction false} TotalSizeEmpty(n: nat)
    ensures TotalSize(seq(n, _ => [])) == 0
  {
    if n > 0 {
      TotalSizeEmpty(n - 1);
      assert seq<seq<Candidate>>(n, _ => [])[..n - 1] == seq<seq<Candidate>>(n - 1, _ => []);
    }
  }

  // ----- Runs: offers and decisions

  ghost predicate ValidOffer(css: seq<seq<Candidate>>, o: Offer) {
    o.query < |css| && o.rank < |css[o.query]|
  }

  ghost predicate ValidOffers(css: seq<seq<Candidate>>, offers: seq<Offer>) {
    forall i | 0 <= i < |offers| :: ValidOffer(css, offers[i])
  }

  function At(css: seq<seq<Candidate>>, o: Offer): Candidate
    requires ValidOffer(css, o)
  {
    css[o.query][o.rank]
  }

  /** What query `q` has received after the decisions `taken` on the first |taken| offers. */
  ghost function Included(css: seq<seq<Candidate>>, offers: seq<Offer>, taken: seq<bool>, q: nat): seq<Candidate>
    requires |taken| <= |offers| && ValidOffers(css, offers)
    decreases |taken|
  {
    if taken == [] then [] else
      var n := |taken| - 1;
      var before := Included(css, offers, taken[..n], q);
      if taken[n] && offers[n].query == q then before + [At(css, offers[n])] else before
  }

  /** How many offers of query `q` were turned down. */
  ghost function Omitted(offers: seq<Offer>, taken: seq<bool>, q: nat): nat
    requires |taken| <= |offers|
    decreases |taken|
  {
    if taken == [] then 0 else
      var n := |taken| - 1;
      Omitted(offers, taken[..n], q) + if !taken[n] && offers[n].query == q then 1 else 0
  }

  /** Bytes spent by the decisions `taken` on the first |taken| offers. */
  ghost function Spent(css: seq<seq<Candidate>>, offers: seq<Offer>, taken: seq<bool>): nat
    requires |taken| <= |offers| && ValidOffers(css, offers)
    decreases |taken|
  {
    if taken == [] then 0 else
      var n := |taken| - 1;
      Spent(css, offers, taken[..n]) + if taken[n] then At(css, offers[n]).size else 0
  }

  /** The ranks of query `q` in the order they were offered. */
  ghost function RanksOf(offers: seq<Offer>, q: nat): seq<nat> {
    if offers == [] then [] else
      var n := |offers| - 1;
      var before := RanksOf(offers[..n], q);
      if offers[n].query == q then before + [offers[n].rank] else before
  }

  lemma RanksOfSnoc(offers: seq<Offer>, o: Offer, q: nat)
    ensures RanksOf(offers + [o], q) == if o.query == q then RanksOf(offers, q) + [o.rank] else RanksOf(offers, q)
  {
    assert (offers + [o])[..|offers|] == offers;
  }

  /** lo, lo + 1, ..., hi - 1 */
  ghost function Range(lo: nat, hi: nat): (s: seq<nat>)
    ensures |s| == Max(0, hi - lo) && forall i | 0 <= i < |s| :: s[i] == lo + i
  {
    if lo >= hi then [] else Range(lo, hi - 1) + [hi - 1]
  }

  /** The output of a run. */
  ghost function Outcome(css: seq<seq<Candidate>>, offers: seq<Offer>, taken: seq<bool>): (out: AllocOutput)
    requires |taken| <= |offers| && ValidOffers(css, offers)
    ensures |out.included| == |out.omitted| == |css|
    decreases |taken|
  {
    if taken == [] then NewOutput(|css|) else
      var n := |taken| - 1;
      var before := Outcome(css, offers, taken[..n]);
      if taken[n] then Accept(before, offers[n].query, At(css, offers[n])) else Decline(before, offers[n].query)
  }

  /** Every candidate is offered, each query's candidates in rank order. */
  ghost predicate OffersAllInOrder(css: seq<seq<Candidate>>, offers: seq<Offer>) {
    && ValidOffers(css, offers)
    && forall q | 0 <= q < |css| :: RanksOf(offers, q) == Range(0, |css[q]|)
  }

  /** An offer is accepted exactly when it still fits what earlier acceptances left over. */
  ghost predicate TakesWhatFits(css: seq<seq<Candidate>>, offers: seq<Offer>, taken: seq<bool>, budget: int)
    requires |taken| <= |offers| && ValidOffers(css, offers)
    decreases |taken|
  {
    taken != [] ==>
      var n := |taken| - 1;
      && TakesWhatFits(css, offers, taken[..n], budget)
      && (taken[n] <==> Spent(css, offers, taken[..n]) + At(css, offers[n]).size <= budget)
  }

  // ----- One more decision

  lemma OutcomeStep(css: seq<seq<Candidate>>, offers: seq<Offer>, taken: seq<bool>, o: Offer)
    requires |taken| == |offers| && ValidOffers(css, offers) && ValidOffer(css, o)
    ensures ValidOffers(css, offers + [o])
    ensures Outcome(css, offers + [o], taken + [true]) == Accept(Outcome(css, offers, taken), o.query, At(css, o))
    ensures Outcome(css, offers + [o], taken + [false]) == Decline(Outcome(css, offers, taken), o.query)
  {
    assert (taken + [true])[..|taken|] == taken && (taken + [false])[..|taken|] == taken;
    OutcomePrefix(css, offers, [o], taken);
  }

  lemma {:induction false} OutcomePrefix(css: seq<seq<Candidate>>, offers: seq<Offer>, more: seq<Offer>,
                                         taken: seq<bool>)
    requires |taken| <= |offers| && ValidOffers(css, offers) && ValidOffers(css, offers + more)
    ensures Outcome(css, offers + more, taken) == Outcome(css, offers, taken)
    decreases |taken|
  {
    if taken != [] {
      OutcomePrefix(css, offers, more, taken[..|taken| - 1]);
    }
  }

  /** Query by query, the output of a run is the projection of the run. */
  lemma {:induction false} OutcomeProjects(css: seq<seq<Candidate>>, offers: seq<Offer>, taken: seq<bool>)
    requires |taken| <= |offers| && ValidOffers(css, offers)
    ensures var out := Outcome(css, offers, taken);
            && (forall q | 0 <= q < |css| :: out.included[q] == Included(css, offers, taken, q))
            && (forall q | 0 <= q < |css| :: out.omitted[q] == Omitted(offers, taken, q))
            && out.byteBudgetUsed == Spent(css, offers, taken)
            && (out.budgetExceeded <==> false in taken)
    decreases |taken|
  {
    if taken != [] {
      OutcomeProjects(css, offers, taken[..|taken| - 1]);
      assert taken == taken[..|taken| - 1] + [taken[|taken| - 1]];
    }
  }

  lemma {:induction false} SpentPrefix(css: seq<seq<Candidate>>, offers: seq<Offer>, more: seq<Offer>, taken: seq<bool>)
    requires |taken| <= |offers| && ValidOffers(css, offers) && ValidOffers(css, offers + more)
    ensures Spent(css, offers + more, taken) == Spent(css, offers, taken)
    decreases |taken|
  {
    if taken != [] {
      SpentPrefix(css, offers, more, taken[..|taken| - 1]);
    }
  }

  lemma {:induction false} ProjectionPrefix(css: seq<seq<Candidate>>, offers: seq<Offer>, more: seq<Offer>,
                                            taken: seq<bool>, q: nat)
    requires |taken| <= |offers| && ValidOffers(css, offers) && ValidOffers(css, offers + more)
    ensures Included(css, offers + more, taken, q) == Included(css, offers, taken, q)
    ensures Omitted(offers + more, taken, q) == Omitted(offers, taken, q)
    decreases |taken|
  {
    if taken != [] {
      ProjectionPrefix(css, offers, more, taken[..|taken| - 1], q);
    }
  }

  lemma {:induction false} TakesWhatFitsPrefix(css: seq<seq<Candidate>>, offers: seq<Offer>, more: seq<Offer>,
                                               taken: seq<bool>, budget: int)
    requires |taken| <= |offers| && ValidOffers(css, offers) && ValidOffers(css, offers + more)
    ensures TakesWhatFits(css, offers + more, taken, budget) == TakesWhatFits(css, offers, taken, budget)
    decreases |taken|
  {
    if taken != [] {
      TakesWhatFitsPrefix(css, offers, more, taken[..|taken| - 1], budget);
      SpentPrefix(css, offers, more, taken[..|taken| - 1]);
    }
  }

  /** Appending a decision keeps the acceptance rule when the decision follows it. */
  lemma TakesWhatFitsStep(css: seq<seq<Candidate>>, offers: seq<Offer>, taken: seq<bool>, o: Offer, b: bool,
                          budget: int)
    requires |taken| == |offers| && ValidOffers(css, offers) && ValidOffer(css, o)
    requires TakesWhatFits(css, offers, taken, budget)
    requires b <==> Spent(css, offers, taken) + At(css, o).size <= budget
    ensures ValidOffers(css, offers + [o])
    ensures TakesWhatFits(css, offers + [o], taken + [b], budget)
  {
    TakesWhatFitsPrefix(css, offers, [o], taken, budget);
    SpentPrefix(css, offers, [o], taken);
    assert (taken + [b])[..|taken|] == taken;
  }

  /** What the rule says about the decision at position `i`. */
  lemma {:induction false} DecisionAt(css: seq<seq<Candidate>>, offers: seq<Offer>, taken: seq<bool>, budget: int,
                                      i: nat)
    requires i < |taken| <= |offers| && ValidOffers(css, offers)
    requires TakesWhatFits(css, offers, taken, budget)
    ensures taken[i] <==> Spent(css, offers, taken[..i]) + At(css, offers[i]).size <= budget
    decreases |taken|
  {
    var n := |taken| - 1;
    if i < n {
      DecisionAt(css, offers, taken[..n], budget, i);
      assert taken[..n][..i] == taken[..i];
    }
  }

  // ----- The contract

  /** What the budget allocators promise on every input. */
  ghost predicate BudgetContract(input: AllocInput, out: AllocOutput) {
    && |out.included| == |out.omitted| == |input.candidates|
    && (forall q | 0 <= q < |input.candidates| :: |out.included[q]| + out.omitted[q] == |input.candidates[q]|)
    && out.byteBudgetUsed == TotalSize(out.included)
    && out.byteBudgetUsed <= Max(0, input.budget)
    && (out.budgetExceeded <==> exists q :: 0 <= q < |out.omitted| && out.omitted[q] > 0)
  }

  /** `part` keeps some elements of `whole`, in their order; `at` are their positions. */
  ghost predicate PicksInOrder<T>(part: seq<T>, whole: seq<T>, at: seq<nat>) {
    && |at| == |part|
    && (forall i | 0 <= i < |at| :: at[i] < |whole| && part[i] == whole[at[i]])
    && (forall i, j | 0 <= i < j < |at| :: at[i] < at[j])
  }

  ghost predicate Subsequence<T>(part: seq<T>, whole: seq<T>) {
    exists at :: PicksInOrder(part, whole, at)
  }

  ghost predicate InOrder(input: AllocInput, out: AllocOutput) {
    && |out.included| == |input.candidates|
    && forall q | 0 <= q < |input.candidates| :: Subsequence(out.included[q], input.candidates[q])
  }

  // ----- From runs to the contract

  /** The ranks of query `q` that were accepted. */
  ghost function TakenRanks(offers: seq<Offer>, taken: seq<bool>, q: nat): seq<nat>
    requires |taken| <= |offers|
    decreases |taken|
  {
    if taken == [] then [] else
      var n := |taken| - 1;
      var before := TakenRanks(offers, taken[..n], q);
      if taken[n] && offers[n].query == q then before + [offers[n].rank] else before
  }

  lemma {:induction false} CountsAddUp(css: seq<seq<Candidate>>, offers: seq<Offer>, taken: seq<bool>, q: nat)
    requires |taken| <= |offers| && ValidOffers(css, offers)
    ensures |Included(css, offers, taken, q)| + Omitted(offers, taken, q) == |RanksOf(offers[..|taken|], q)|
    decreases |taken|
  {
    if taken != [] {
      var n := |taken| - 1;
      CountsAddUp(css, offers, taken[..n], q);
      assert offers[..|taken|][..n] == offers[..n];
    }
  }

  /** Acceptances of a query offered in rank order form an in-order selection of its candidates. */
  lemma {:induction false} TakenInOrder(css: seq<seq<Candidate>>, offers: seq<Offer>, taken: seq<bool>, q: nat)
    requires |taken| <= |offers| && ValidOffers(css, offers) && q < |css|
    requires RanksOf(offers[..|taken|], q) <= Range(0, |css[q]|)
    ensures var at := TakenRanks(offers, taken, q);
            && PicksInOrder(Included(css, offers, taken, q), css[q], at)
            && (forall i | 0 <= i < |at| :: at[i] < |RanksOf(offers[..|taken|], q)|)
    decreases |taken|
  {
    if taken != [] {
      var n := |taken| - 1;
      assert offers[..|taken|][..n] == offers[..n];
      TakenInOrder(css, offers, taken[..n], q);
      if offers[n].query == q {
        var before := RanksOf(offers[..n], q);
        assert RanksOf(offers[..|taken|], q)[|before|] == offers[n].rank;
        assert offers[n].rank == |before|;
      }
    }
  }

  /** What all queries have received after the decisions `taken`. */
  ghost function AllIncluded(css: seq<seq<Candidate>>, offers: seq<Offer>, taken: seq<bool>): (inc: seq<seq<Candidate>>)
    requires |taken| <= |offers| && ValidOffers(css, offers)
    ensures |inc| == |css| && forall q | 0 <= q < |css| :: inc[q] == Included(css, offers, taken, q)
  {
    seq(|css|, q requires 0 <= q < |css| => Included(css, offers, taken, q))
  }

  lemma AllIncludedStep(css: seq<seq<Candidate>>, offers: seq<Offer>, taken: seq<bool>)
    requires 0 < |taken| <= |offers| && ValidOffers(css, offers)
    ensures var n := |taken| - 1;
            var before, o := AllIncluded(css, offers, taken[..n]), offers[n];
            AllIncluded(css, offers, taken) ==
            if taken[n] then before[o.query := before[o.query] + [At(css, o)]] else before
  {
  }

  lemma {:induction false} AllIncludedSize(css: seq<seq<Candidate>>, offers: seq<Offer>, taken: seq<bool>)
    requires |taken| <= |offers| && ValidOffers(css, offers)
    ensures TotalSize(AllIncluded(css, offers, taken)) == Spent(css, offers, taken)
    decreases |taken|
  {
    if taken == [] {
      assert AllIncluded(css, offers, taken) == seq(|css|, _ => []);
      TotalSizeEmpty(|css|);
    } else {
      var n := |taken| - 1;
      var o, before := offers[n], AllIncluded(css, offers, taken[..n]);
      AllIncludedSize(css, offers, taken[..n]);
      AllIncludedStep(css, offers, taken);
      if taken[n] {
        TotalSizeUpdate(before, o.query, before[o.query] + [At(css, o)]);
        SizeOfSnoc(before[o.query], At(css, o));
      }
    }
  }

  lemma SpentIsTotal(css: seq<seq<Candidate>>, offers: seq<Offer>, taken: seq<bool>, inc: seq<seq<Candidate>>)
    requires |taken| <= |offers| && ValidOffers(css, offers)
    requires |inc| == |css| && forall q | 0 <= q < |css| :: inc[q] == Included(css, offers, taken, q)
    ensures TotalSize(inc) == Spent(css, offers, taken)
  {
    assert inc == AllIncluded(css, offers, taken);
    AllIncludedSize(css, offers, taken);
  }

  lemma {:induction false} OmittedOnlyIfDeclined(offers: seq<Offer>, taken: seq<bool>, q: nat)
    requires |taken| <= |offers| && Omitted(offers, taken, q) > 0
    ensures false in taken
    decreases |taken|
  {
    var n := |taken| - 1;
    if taken[n] {
      OmittedOnlyIfDeclined(offers, taken[..n], q);
    }
  }

  lemma {:induction false} DeclinedQuery(offers: seq<Offer>, taken: seq<bool>) returns (q: nat)
    requires |taken| <= |offers| && false in taken
    ensures Omitted(offers, taken, q) > 0 && exists i | 0 <= i < |taken| :: offers[i].query == q
    decreases |taken|
  {
    var n := |taken| - 1;
    if !taken[n] {
      q := offers[n].query;
    } else {
      assert taken == taken[..n] + [taken[n]];
      q := DeclinedQuery(offers, taken[..n]);
    }
  }

  /** A run that makes as many offers as there are candidates yields an output that meets the contract. */
  lemma RunConserves(input: AllocInput, offers: seq<Offer>, taken: seq<bool>, out: AllocOutput)
    requires ValidOffers(input.candidates, offers) && |taken| == |offers|
    requires forall q | 0 <= q < |input.candidates| :: |RanksOf(offers, q)| == |input.candidates[q]|
    requires out == Outcome(input.candidates, offers, taken)
    requires out.byteBudgetUsed <= Max(0, input.budget)
    ensures BudgetContract(input, out)
  {
    var css := input.candidates;
    assert offers[..|taken|] == offers;
    OutcomeProjects(css, offers, taken);
    forall q | 0 <= q < |css|
      ensures |out.included[q]| + out.omitted[q] == |css[q]|
    {
      CountsAddUp(css, offers, taken, q);
    }
    SpentIsTotal(css, offers, taken, out.included);
    if false in taken {
      var q := DeclinedQuery(offers, taken);
      assert out.omitted[q] > 0;
    }
    if q :| 0 <= q < |css| && out.omitted[q] > 0 {
      OmittedOnlyIfDeclined(offers, taken, q);
    }
  }

  /** A run that offers every candidate once, in rank order, includes in-order selections. */
  lemma RunMeetsContract(input: AllocInput, offers: seq<Offer>, taken: seq<bool>, out: AllocOutput)
    requires OffersAllInOrder(input.candidates, offers) && |taken| == |offers|
    requires out == Outcome(input.candidates, offers, taken)
    requires out.byteBudgetUsed <= Max(0, input.budget)
    ensures BudgetContract(input, out) && InOrder(input, out)
  {
    var css := input.candidates;
    assert offers[..|taken|] == offers;
    RunConserves(input, offers, taken, out);
    OutcomeProjects(css, offers, taken);
    forall q | 0 <= q < |css|
      ensures Subsequence(out.included[q], css[q])
    {
      TakenInOrder(css, offers, taken, q);
    }
  }

  // ----- When nothing has to be dropped

  ghost function AllTrue(n: nat): (s: seq<bool>)
    ensures |s| == n && forall i | 0 <= i < n :: s[i]
  {
    seq(n, _ => true)
  }

  lemma {:induction false} AllTakenIncludesPrefix(css: seq<seq<Candidate>>, offers: seq<Offer>, q: nat)
    requires ValidOffers(css, offers) && q < |css| && RanksOf(offers, q) <= Range(0, |css[q]|)
    ensures Included(css, offers, AllTrue(|offers|), q) == css[q][..|RanksOf(offers, q)|]
  {
    if offers != [] {
      var n := |offers| - 1;
      var init, last := offers[..n], offers[n..];
      AllTakenIncludesPrefix(css, init, q);
      assert init + last == offers && AllTrue(|offers|)[..n] == AllTrue(n);
      ProjectionPrefix(css, init, last, AllTrue(n), q);
      var before := RanksOf(init, q);
      if offers[n].query == q {
        assert RanksOf(offers, q)[|before|] == offers[n].rank == |before|;
        assert css[q][..|before| + 1] == css[q][..|before|] + [css[q][|before|]];
      }
    }
  }

  /** The offers of a complete run weigh as much as all candidates together. */
  lemma AllTakenSpendsTotal(css: seq<seq<Candidate>>, offers: seq<Offer>)
    requires OffersAllInOrder(css, offers)
    ensures Spent(css, offers, AllTrue(|offers|)) == TotalSize(css)
  {
    forall q | 0 <= q < |css|
      ensures css[q] == Included(css, offers, AllTrue(|offers|), q)
    {
      AllTakenIncludesPrefix(css, offers, q);
    }
    SpentIsTotal(css, offers, AllTrue(|offers|), css);
  }

  lemma {:induction false} SpentMonotone(css: seq<seq<Candidate>>, offers: seq<Offer>, taken: seq<bool>, n: nat)
    requires |taken| <= n <= |offers| && ValidOffers(css, offers)
    ensures Spent(css, offers, taken) <= Spent(css, offers, AllTrue(n))
    decreases n
  {
    if n > 0 {
      assert AllTrue(n)[..n - 1] == AllTrue(n - 1);
      if |taken| == n {
        SpentMonotone(css, offers, taken[..n - 1], n - 1);
      } else {
        SpentMonotone(css, offers, taken, n - 1);
      }
    }
  }

  /** A run that takes whatever fits declines something exactly when not everything fits. */
  lemma DeclinesIffTooMuch(css: seq<seq<Candidate>>, offers: seq<Offer>, taken: seq<bool>, budget: int)
    requires |taken| == |offers| && ValidOffers(css, offers)
    requires TakesWhatFits(css, offers, taken, budget) && 0 <= budget
    ensures false in taken <==> Spent(css, offers, AllTrue(|offers|)) > budget
    ensures Spent(css, offers, taken) <= budget
  {
    SpentWithin(css, offers, taken, budget);
    if Spent(css, offers, AllTrue(|offers|)) <= budget {
      forall i | 0 <= i < |taken|
        ensures taken[i]
      {
        DecisionAt(css, offers, taken, budget, i);
        SpentMonotone(css, offers, taken[..i], i);
        assert AllTrue(i + 1)[..i] == AllTrue(i);
        SpentMonotone(css, offers, AllTrue(i + 1), |offers|);
      }
    } else {
      assert (forall i | 0 <= i < |taken| :: taken[i]) ==> taken == AllTrue(|offers|);
    }
  }

  lemma {:induction false} SpentWithin(css: seq<seq<Candidate>>, offers: seq<Offer>, taken: seq<bool>, budget: int)
    requires |taken| <= |offers| && ValidOffers(css, offers)
    requires TakesWhatFits(css, offers, taken, budget)
    ensures Spent(css, offers, taken) <= Max(0, budget)
    decreases |taken|
  {
    if taken != [] {
      SpentWithin(css, offers, taken[..|taken| - 1], budget);
    }
  }

  /** The acceptance rule leaves no choice: equal offers get equal decisions. */
  lemma {:induction false} DecisionsDetermined(css: seq<seq<Candidate>>, offers: seq<Offer>, a: seq<bool>,
                                               b: seq<bool>, budget: int)
    requires ValidOffers(css, offers) && |a| == |b| <= |offers|
    requires TakesWhatFits(css, offers, a, budget) && TakesWhatFits(css, offers, b, budget)
    ensures a == b
    decreases |a|
  {
    if a != [] {
      var n := |a| - 1;
      DecisionsDetermined(css, offers, a[..n], b[..n], budget);
      assert a == a[..n] + [a[n]] && b == b[..n] + [b[n]];
    }
  }

  // ----- The query-major order

  /** All offers of the first `q` queries, then the first `k` offers of query `q`. */
  ghost function FlatOffers(css: seq<seq<Candidate>>, q: nat, k: nat): seq<Offer>
    requires q <= |css| && (k > 0 ==> q < |css| && k <= |css[q]|)
    decreases q, k
  {
    if k > 0 then FlatOffers(css, q, k - 1) + [Offer(q, k - 1)]
    else if q > 0 then FlatOffers(css, q - 1, |css[q - 1]|)
    else []
  }

  lemma {:induction false} FlatOffersRanks(css: seq<seq<Candidate>>, q: nat, k: nat, p: nat)
    requires q <= |css| && (k > 0 ==> q < |css| && k <= |css[q]|) && p < |css|
    ensures ValidOffers(css, FlatOffers(css, q, k))
    ensures RanksOf(FlatOffers(css, q, k), p) == Range(0, if p < q then |css[p]| else if p == q then k else 0)
    decreases q, k
  {
    if k > 0 {
      FlatOffersRanks(css, q, k - 1, p);
      var before := FlatOffers(css, q, k - 1);
      assert (before + [Offer(q, k - 1)])[..|before|] == before;
    } else if q > 0 {
      FlatOffersRanks(css, q - 1, |css[q - 1]|, p);
    }
  }

  lemma FlatOffersAllInOrder(css: seq<seq<Candidate>>)
    ensures OffersAllInOrder(css, FlatOffers(css, |css|, 0))
  {
    assert css == [] ==> FlatOffers(css, |css|, 0) == [];
    forall p | 0 <= p < |css|
      ensures ValidOffers(css, FlatOffers(css, |css|, 0))
      ensures RanksOf(FlatOffers(css, |css|, 0), p) == Range(0, |css[p]|)
    {
      FlatOffersRanks(css, |css|, 0, p);
    }
  }
}
