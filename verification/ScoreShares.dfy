/** The score-proportional allocator (internal/search/allocators.go): weighted shares, then a spill. */
module ScoreShares {
  import opened Arithmetic
  import opened Allocation
  import opened Rounds
  import opened Apportionment

  // ----- Weights

  /** A query weighs what its best candidate scores. */
  function TopScores(css: seq<seq<Candidate>>): (weights: seq<real>)
    ensures |weights| == |css|
    ensures forall q | 0 <= q < |css| :: weights[q] == if css[q] == [] then 0.0 else css[q][0].relevance
  {
    seq(|css|, q requires 0 <= q < |css| => if css[q] == [] then 0.0 else css[q][0].relevance)
  }

  function Ones(n: nat): (weights: seq<real>)
    ensures |weights| == n && forall q | 0 <= q < n :: weights[q] == 1.0
  {
    seq(n, _ => 1.0)
  }

  /** The weights actually used: all equal when the scores do not add up to anything positive. */
  function Weights(css: seq<seq<Candidate>>): (weights: seq<real>)
    ensures |weights| == |css|
  {
    var scores := TopScores(css);
    if SumReal(scores) <= 0.0 then Ones(|css|) else scores
  }

  ghost predicate NonNegativeTops(css: seq<seq<Candidate>>) {
    forall q | 0 <= q < |css| && css[q] != [] :: css[q][0].relevance >= 0.0
  }

  lemma {:induction false} OnesSum(n: nat)
    ensures SumReal(Ones(n)) == n as real
  {
    if n > 0 {
      OnesSum(n - 1);
      assert Ones(n)[..n - 1] == Ones(n - 1);
    }
  }

  lemma WeightsPositive(css: seq<seq<Candidate>>)
    requires css != []
    ensures SumReal(Weights(css)) > 0.0
    ensures NonNegativeTops(css) ==> forall q | 0 <= q < |css| :: Weights(css)[q] >= 0.0
  {
    OnesSum(|css|);
  }

  lemma {:induction false} SumPositiveIff(s: seq<real>)
    requires forall i | 0 <= i < |s| :: s[i] >= 0.0
    ensures SumReal(s) >= 0.0 && (SumReal(s) > 0.0 <==> exists i :: 0 <= i < |s| && s[i] > 0.0)
  {
    if s != [] {
      var n := |s| - 1;
      SumPositiveIff(s[..n]);
      if i :| 0 <= i < n && s[i] > 0.0 {
        assert s[..n][i] > 0.0;
      }
    }
  }

  /** A query weighs its top score, nothing if it found nothing; only if no score is positive do all weigh the same. */
  lemma WeightsFollowScores(css: seq<seq<Candidate>>, q: nat)
    requires NonNegativeTops(css) && q < |css|
    ensures Weights(css)[q] ==
            if exists p :: 0 <= p < |css| && css[p] != [] && css[p][0].relevance > 0.0 then
              if css[q] == [] then 0.0 else css[q][0].relevance
            else 1.0
  {
    var tops := TopScores(css);
    SumPositiveIff(tops);
    if p :| 0 <= p < |css| && css[p] != [] && css[p][0].relevance > 0.0 {
      assert tops[p] > 0.0;
    }
  }

  // ----- Phase one: what fits a query's own share

  /** The first `k` offers of query `q`. */
  ghost function RankOffers(q: nat, k: nat): seq<Offer> {
    if k == 0 then [] else RankOffers(q, k - 1) + [Offer(q, k - 1)]
  }

  /** The offers phase one makes when query `q` stops after `next[q]` candidates. */
  ghost function PrefixOffers(next: seq<nat>): seq<Offer> {
    if next == [] then [] else PrefixOffers(next[..|next| - 1]) + RankOffers(|next| - 1, next[|next| - 1])
  }

  lemma {:induction false} RankOffersRanks(q: nat, k: nat, p: nat)
    ensures RanksOf(RankOffers(q, k), p) == if p == q then Range(0, k) else []
    ensures forall i | 0 <= i < |RankOffers(q, k)| :: RankOffers(q, k)[i].query == q && RankOffers(q, k)[i].rank < k
  {
    if k > 0 {
      RankOffersRanks(q, k - 1, p);
      var before := RankOffers(q, k - 1);
      assert (before + [Offer(q, k - 1)])[..|before|] == before;
    }
  }

  lemma {:induction false} RanksOfConcat(a: seq<Offer>, b: seq<Offer>, q: nat)
    ensures RanksOf(a + b, q) == RanksOf(a, q) + RanksOf(b, q)
  {
    if b == [] {
      assert a + b == a;
      assert RanksOf(a, q) + RanksOf(b, q) == RanksOf(a, q);
    } else {
      var n := |b| - 1;
      RanksOfConcat(a, b[..n], q);
      assert (a + b)[..|a + b| - 1] == a + b[..n];
      if b[n].query == q {
        assert RanksOf(a, q) + (RanksOf(b[..n], q) + [b[n].rank]) == RanksOf(a, q) + RanksOf(b[..n], q) + [b[n].rank];
      }
    }
  }

  lemma {:induction false} PrefixOffersRanks(css: seq<seq<Candidate>>, next: seq<nat>, p: nat)
    requires |next| <= |css| && forall q | 0 <= q < |next| :: next[q] <= |css[q]|
    ensures ValidOffers(css, PrefixOffers(next))
    ensures RanksOf(PrefixOffers(next), p) == if p < |next| then Range(0, next[p]) else []
  {
    if next != [] {
      var n := |next| - 1;
      PrefixOffersRanks(css, next[..n], p);
      RankOffersRanks(n, next[n], p);
      RanksOfConcat(PrefixOffers(next[..n]), RankOffers(n, next[n]), p);
    }
  }

  /** `k` is where a ranking first outgrows its share. */
  ghost predicate StopsAt(cs: seq<Candidate>, share: int, k: nat) {
    && k <= |cs|
    && (k > 0 ==> SizeOf(cs[..k]) <= share)
    && (k < |cs| ==> SizeOf(cs[..k + 1]) > share)
  }

  lemma SizeOfPrefix(cs: seq<Candidate>, k: nat)
    requires k < |cs|
    ensures SizeOf(cs[..k + 1]) == SizeOf(cs[..k]) + cs[k].size
  {
    assert cs[..k + 1][..k] == cs[..k];
  }

  ghost function TakenSoFar(css: seq<seq<Candidate>>, next: seq<nat>): seq<seq<Candidate>>
    requires |next| <= |css| && forall q | 0 <= q < |next| :: next[q] <= |css[q]|
  {
    seq(|css|, q requires 0 <= q < |css| => if q < |next| then css[q][..next[q]] else [])
  }

  lemma PrefixIncluded(css: seq<seq<Candidate>>, next: seq<nat>, q: nat)
    requires |next| <= |css| && forall p | 0 <= p < |next| :: next[p] <= |css[p]|
    requires q < |css|
    ensures ValidOffers(css, PrefixOffers(next))
    ensures Included(css, PrefixOffers(next), AllTrue(|PrefixOffers(next)|), q) ==
            if q < |next| then css[q][..next[q]] else []
  {
    PrefixOffersRanks(css, next, q);
    AllTakenIncludesPrefix(css, PrefixOffers(next), q);
  }

  /** Phase one spends exactly the prefixes it includes. */
  lemma PrefixSpent(css: seq<seq<Candidate>>, next: seq<nat>)
    requires |next| <= |css| && forall q | 0 <= q < |next| :: next[q] <= |css[q]|
    ensures ValidOffers(css, PrefixOffers(next))
    ensures Spent(css, PrefixOffers(next), AllTrue(|PrefixOffers(next)|)) == TotalSize(TakenSoFar(css, next))
  {
    var offers := PrefixOffers(next);
    PrefixOffersRanks(css, next, 0);
    forall q | 0 <= q < |css|
      ensures TakenSoFar(css, next)[q] == Included(css, offers, AllTrue(|offers|), q)
    {
      PrefixIncluded(css, next, q);
    }
    SpentIsTotal(css, offers, AllTrue(|offers|), TakenSoFar(css, next));
  }

  lemma {:induction false} SharesBoundTotal(inc: seq<seq<Candidate>>, shares: seq<int>, k: nat)
    requires k <= |inc| == |shares|
    requires forall q | 0 <= q < |inc| :: 0 <= shares[q] && SizeOf(inc[q]) <= shares[q]
    ensures TotalSize(inc[..k]) <= Sum(shares[..k])
  {
    if k > 0 {
      SharesBoundTotal(inc, shares, k - 1);
      assert inc[..k][..k - 1] == inc[..k - 1];
      assert shares[..k][..k - 1] == shares[..k - 1];
    }
  }

  lemma {:induction false} AllTrueFits(css: seq<seq<Candidate>>, offers: seq<Offer>, n: nat, budget: int)
    requires ValidOffers(css, offers) && n <= |offers|
    requires Spent(css, offers, AllTrue(n)) <= budget
    ensures TakesWhatFits(css, offers, AllTrue(n), budget)
  {
    if n > 0 {
      assert AllTrue(n)[..n - 1] == AllTrue(n - 1);
      AllTrueFits(css, offers, n - 1, budget);
    }
  }

  /** Shares that add up to the budget keep phase one within it. */
  lemma PhaseOneFits(css: seq<seq<Candidate>>, next: seq<nat>, shares: seq<int>, budget: int)
    requires |next| == |css| == |shares|
    requires forall q | 0 <= q < |css| :: StopsAt(css[q], shares[q], next[q]) && shares[q] >= 0
    requires Sum(shares) == budget
    ensures ValidOffers(css, PrefixOffers(next))
    ensures TakesWhatFits(css, PrefixOffers(next), AllTrue(|PrefixOffers(next)|), budget)
  {
    PrefixSpent(css, next);
    var inc := TakenSoFar(css, next);
    SharesBoundTotal(inc, shares, |css|);
    assert inc[..|css|] == inc && shares[..|css|] == shares;
    AllTrueFits(css, PrefixOffers(next), |PrefixOffers(next)|, budget);
  }

  /** A run in which every offer has been accepted. */
  ghost predicate FullRun(css: seq<seq<Candidate>>, offers: seq<Offer>, out: AllocOutput) {
    ValidOffers(css, offers) && out == Outcome(css, offers, AllTrue(|offers|))
  }

  lemma FullRunStep(css: seq<seq<Candidate>>, offers: seq<Offer>, o: Offer, out: AllocOutput)
    requires FullRun(css, offers, out) && ValidOffer(css, o)
    ensures FullRun(css, offers + [o], Accept(out, o.query, At(css, o)))
  {
    OutcomeStep(css, offers, AllTrue(|offers|), o);
    assert AllTrue(|offers|) + [true] == AllTrue(|offers + [o]|);
  }

  /** Phase one: each query takes its leading candidates until one does not fit its share. */
  method TakeShares(css: seq<seq<Candidate>>, shares: seq<int>) returns (out: AllocOutput, next: seq<nat>)
    requires |shares| == |css|
    ensures |next| == |css| && forall q | 0 <= q < |css| :: StopsAt(css[q], shares[q], next[q])
    ensures FullRun(css, PrefixOffers(next), out)
  {
    out, next := NewOutput(|css|), [];
    for qi := 0 to |css|
      invariant |next| == qi && forall q | 0 <= q < qi :: StopsAt(css[q], shares[q], next[q])
      invariant FullRun(css, PrefixOffers(next), out)
    {
      var k;
      out, k := TakeShare(css, qi, shares[qi], out, PrefixOffers(next));
      assert (next + [k])[..qi] == next;
      next := next + [k];
    }
  }

  method TakeShare(css: seq<seq<Candidate>>, qi: nat, share: int, before: AllocOutput, ghost offers: seq<Offer>)
    returns (out: AllocOutput, k: nat)
    requires qi < |css| && FullRun(css, offers, before)
    ensures StopsAt(css[qi], share, k)
    ensures FullRun(css, offers + RankOffers(qi, k), out)
  {
    var cs := css[qi];
    out, k := before, 0;
    var qUsed: nat := 0;
    assert offers + RankOffers(qi, 0) == offers;
    while k < |cs|
      invariant k <= |cs| && qUsed == SizeOf(cs[..k])
      invariant k > 0 ==> qUsed <= share
      invariant FullRun(css, offers + RankOffers(qi, k), out)
    {
      var c := cs[k];
      SizeOfPrefix(cs, k);
      if qUsed + c.size > share {
        break;
      }
      FullRunStep(css, offers + RankOffers(qi, k), Offer(qi, k), out);
      assert offers + RankOffers(qi, k) + [Offer(qi, k)] == offers + RankOffers(qi, k + 1);
      out := Accept(out, qi, c);
      qUsed := qUsed + c.size;
      k := k + 1;
    }
  }

  // ----- Phase two: the spill

  /** From position `from` on, an offer is accepted exactly when it fits the leftover pool. */
  ghost predicate SpillsFrom(css: seq<seq<Candidate>>, offers: seq<Offer>, taken: seq<bool>, from: nat, budget: int)
    requires |taken| <= |offers| && ValidOffers(css, offers)
    decreases |taken|
  {
    |taken| > from ==>
      var n := |taken| - 1;
      && SpillsFrom(css, offers, taken[..n], from, budget)
      && (taken[n] <==> At(css, offers[n]).size <= budget - Spent(css, offers, taken[..n]))
  }

  lemma {:induction false} SpillsFromPrefix(css: seq<seq<Candidate>>, offers: seq<Offer>, more: seq<Offer>,
                                            taken: seq<bool>, from: nat, budget: int)
    requires |taken| <= |offers| && ValidOffers(css, offers) && ValidOffers(css, offers + more)
    ensures SpillsFrom(css, offers + more, taken, from, budget) == SpillsFrom(css, offers, taken, from, budget)
    decreases |taken|
  {
    if |taken| > from {
      SpillsFromPrefix(css, offers, more, taken[..|taken| - 1], from, budget);
      SpentPrefix(css, offers, more, taken[..|taken| - 1]);
    }
  }

  /** A spill on top of a first phase that followed the rule follows the rule throughout. */
  lemma {:induction false} SpillKeepsRule(css: seq<seq<Candidate>>, offers: seq<Offer>, taken: seq<bool>, from: nat,
                                          budget: int)
    requires from <= |taken| <= |offers| && ValidOffers(css, offers)
    requires SpillsFrom(css, offers, taken, from, budget)
    requires TakesWhatFits(css, offers, taken[..from], budget)
    ensures TakesWhatFits(css, offers, taken, budget)
    decreases |taken|
  {
    if |taken| > from {
      assert taken[..|taken| - 1][..from] == taken[..from];
      SpillKeepsRule(css, offers, taken[..|taken| - 1], from, budget);
    } else {
      assert taken[..from] == taken;
    }
  }

  ghost predicate SpillRun(css: seq<seq<Candidate>>, offers: seq<Offer>, taken: seq<bool>, from: nat, budget: int,
                           out: AllocOutput, leftover: int) {
    && ValidOffers(css, offers) && from <= |taken| == |offers| && taken[..from] == AllTrue(from)
    && SpillsFrom(css, offers, taken, from, budget)
    && out == Outcome(css, offers, taken)
    && leftover == budget - out.byteBudgetUsed
  }

  lemma SpillOffer(css: seq<seq<Candidate>>, offers: seq<Offer>, taken: seq<bool>, from: nat, budget: int, o: Offer,
                   out: AllocOutput, leftover: int)
    requires SpillRun(css, offers, taken, from, budget, out, leftover) && ValidOffer(css, o)
    ensures if At(css, o).size <= leftover then
              SpillRun(css, offers + [o], taken + [true], from, budget, Accept(out, o.query, At(css, o)),
                leftover - At(css, o).size)
            else
              SpillRun(css, offers + [o], taken + [false], from, budget, Decline(out, o.query), leftover)
  {
    OutcomeProjects(css, offers, taken);
    OutcomeStep(css, offers, taken, o);
    SpillsFromPrefix(css, offers, [o], taken, from, budget);
    SpentPrefix(css, offers, [o], taken);
    assert (taken + [true])[..|taken|] == taken && (taken + [false])[..|taken|] == taken;
    assert (taken + [true])[..from] == taken[..from] && (taken + [false])[..from] == taken[..from];
  }

  /** How often each query has been offered something when round `r` has reached query `qi`. */
  ghost predicate OfferedAfter(css: seq<seq<Candidate>>, next: seq<nat>, offered: seq<nat>, r: nat, qi: nat)
    requires StartsWithin(css, next)
  {
    && |offered| == |css|
    && forall q | 0 <= q < |css| ::
         offered[q] == Min(|css[q]| - next[q], r + if q < qi then 1 else 0)
  }

  lemma OfferedAdvances(css: seq<seq<Candidate>>, next: seq<nat>, offered: seq<nat>, r: nat, qi: nat)
    requires StartsWithin(css, next) && qi < |css| && OfferedAfter(css, next, offered, r, qi)
    ensures next[qi] + offered[qi] < |css[qi]| ==>
              offered[qi] == r && OfferedAfter(css, next, offered[qi := r + 1], r, qi + 1)
    ensures next[qi] + offered[qi] >= |css[qi]| ==>
              next[qi] + r >= |css[qi]| && OfferedAfter(css, next, offered, r, qi + 1)
  {
  }

  /** The spill has finished `r` rounds and reached query `qi` of the next one. */
  ghost predicate SpillAt(css: seq<seq<Candidate>>, next: seq<nat>, first: seq<Offer>, taken: seq<bool>, budget: int,
                          r: nat, qi: nat, out: AllocOutput, leftover: int, offered: seq<nat>)
    requires StartsWithin(css, next) && qi <= |css|
  {
    && SpillRun(css, first + RoundOffers(css, next, r, qi), taken, |first|, budget, out, leftover)
    && OfferedAfter(css, next, offered, r, qi)
  }

  lemma SpillAdvances(css: seq<seq<Candidate>>, next: seq<nat>, first: seq<Offer>, taken: seq<bool>, budget: int,
                      r: nat, qi: nat, out: AllocOutput, leftover: int, offered: seq<nat>)
    requires StartsWithin(css, next) && qi < |css|
    requires SpillAt(css, next, first, taken, budget, r, qi, out, leftover, offered)
    ensures var idx := next[qi] + offered[qi];
            if idx >= |css[qi]| then
              SpillAt(css, next, first, taken, budget, r, qi + 1, out, leftover, offered)
            else if css[qi][idx].size <= leftover then
              SpillAt(css, next, first, taken + [true], budget, r, qi + 1, Accept(out, qi, css[qi][idx]),
                      leftover - css[qi][idx].size, offered[qi := offered[qi] + 1])
            else
              SpillAt(css, next, first, taken + [false], budget, r, qi + 1, Decline(out, qi),
                      leftover, offered[qi := offered[qi] + 1])
  {
    OfferedAdvances(css, next, offered, r, qi);
    if next[qi] + offered[qi] < |css[qi]| {
      var offers, o := first + RoundOffers(css, next, r, qi), Offer(qi, next[qi] + r);
      SpillOffer(css, offers, taken, |first|, budget, o, out, leftover);
      assert offers + [o] == first + RoundOffers(css, next, r, qi + 1);
    }
  }

  /** One round of the spill. */
  method SpillRound(css: seq<seq<Candidate>>, next: seq<nat>, budget: int, r: nat, ghost first: seq<Offer>,
                    outBefore: AllocOutput, leftoverBefore: int, offeredBefore: seq<nat>, ghost takenBefore: seq<bool>)
    returns (out: AllocOutput, leftover: int, offered: seq<nat>, ghost taken: seq<bool>)
    requires StartsWithin(css, next)
    requires SpillAt(css, next, first, takenBefore, budget, r, 0, outBefore, leftoverBefore, offeredBefore)
    ensures SpillAt(css, next, first, taken, budget, r, |css|, out, leftover, offered)
  {
    out, leftover, offered, taken := outBefore, leftoverBefore, offeredBefore, takenBefore;
    for qi := 0 to |css|
      invariant SpillAt(css, next, first, taken, budget, r, qi, out, leftover, offered)
    {
      var cs := css[qi];
      var idx := next[qi] + offered[qi];
      SpillAdvances(css, next, first, taken, budget, r, qi, out, leftover, offered);
      if idx < |cs| {
        var c := cs[idx];
        offered := offered[qi := offered[qi] + 1];
        if c.size <= leftover {
          out, leftover, taken := Accept(out, qi, c), leftover - c.size, taken + [true];
        } else {
          out, taken := Decline(out, qi), taken + [false];
        }
      }
    }
  }

  lemma SpillNextRound(css: seq<seq<Candidate>>, next: seq<nat>, first: seq<Offer>, taken: seq<bool>, budget: int,
                       r: nat, out: AllocOutput, leftover: int, offered: seq<nat>)
    requires StartsWithin(css, next)
    requires SpillAt(css, next, first, taken, budget, r, |css|, out, leftover, offered)
    ensures SpillAt(css, next, first, taken, budget, r + 1, 0, out, leftover, offered)
  {
  }

  lemma SpillStarts(css: seq<seq<Candidate>>, next: seq<nat>, first: seq<Offer>, budget: int, out: AllocOutput,
                    offered: seq<nat>)
    requires StartsWithin(css, next) && FullRun(css, first, out)
    requires |offered| == |css| && forall q | 0 <= q < |css| :: offered[q] == 0
    ensures SpillAt(css, next, first, AllTrue(|first|), budget, 0, 0, out, budget - out.byteBudgetUsed, offered)
  {
    assert first + RoundOffers(css, next, 0, 0) == first;
  }

  /** Phase two: the pool left over is offered round by round, starting where each query stopped. */
  method Spill(css: seq<seq<Candidate>>, next: seq<nat>, budget: int, before: AllocOutput, ghost first: seq<Offer>)
    returns (out: AllocOutput, ghost rounds: nat, ghost taken: seq<bool>)
    requires StartsWithin(css, next) && FullRun(css, first, before)
    ensures forall q | 0 <= q < |css| :: |css[q]| <= next[q] + rounds
    ensures var offers := first + RoundOffers(css, next, rounds, 0);
            SpillRun(css, offers, taken, |first|, budget, out, budget - out.byteBudgetUsed)
  {
    out, taken := before, AllTrue(|first|);
    var leftover := budget - out.byteBudgetUsed;
    var maxRank := LongestRest(css, next);
    var offered: seq<nat> := seq(|css|, _ => 0);
    SpillStarts(css, next, first, budget, out, offered);
    for r := 0 to maxRank
      invariant SpillAt(css, next, first, taken, budget, r, 0, out, leftover, offered)
    {
      out, leftover, offered, taken := SpillRound(css, next, budget, r, first, out, leftover, offered, taken);
      SpillNextRound(css, next, first, taken, budget, r, out, leftover, offered);
    }
    rounds := maxRank;
  }

  method LongestRest(css: seq<seq<Candidate>>, next: seq<nat>) returns (maxRank: nat)
    requires StartsWithin(css, next)
    ensures forall q | 0 <= q < |css| :: |css[q]| <= next[q] + maxRank
  {
    maxRank := 0;
    for i := 0 to |css|
      invariant forall q | 0 <= q < i :: |css[q]| <= next[q] + maxRank
    {
      if |css[i]| - next[i] > maxRank {
        maxRank := |css[i]| - next[i];
      }
    }
  }

  // ----- Both phases

  lemma RangeConcat(mid: nat, hi: nat)
    requires mid <= hi
    ensures Range(0, mid) + Range(mid, hi) == Range(0, hi)
  {
  }

  lemma BothPhasesOfferAll(css: seq<seq<Candidate>>, next: seq<nat>, r: nat)
    requires StartsWithin(css, next) && forall q | 0 <= q < |css| :: |css[q]| <= next[q] + r
    requires ValidOffers(css, PrefixOffers(next) + RoundOffers(css, next, r, 0))
    ensures OffersAllInOrder(css, PrefixOffers(next) + RoundOffers(css, next, r, 0))
  {
    forall q | 0 <= q < |css|
      ensures RanksOf(PrefixOffers(next) + RoundOffers(css, next, r, 0), q) == Range(0, |css[q]|)
    {
      PrefixOffersRanks(css, next, q);
      RoundOffersRanks(css, next, r, 0, q);
      RanksOfConcat(PrefixOffers(next), RoundOffers(css, next, r, 0), q);
      RangeConcat(next[q], |css[q]|);
    }
  }

  lemma SpillOrder(css: seq<seq<Candidate>>, next: seq<nat>, r: nat)
    requires StartsWithin(css, next)
    ensures RoundByRound(PrefixOffers(next) + RoundOffers(css, next, r, 0), next, |PrefixOffers(next)|)
  {
    RoundOffersInOrder(css, next, r, 0);
    var first, rest := PrefixOffers(next), RoundOffers(css, next, r, 0);
    forall i, j | |first| <= i < j < |first + rest|
      ensures OfferedBefore(next, (first + rest)[i], (first + rest)[j])
    {
      assert OfferedBefore(next, rest[i - |first|], rest[j - |first|]);
    }
  }

  /**
   Apportions the budget by top score, then spills what is left round by round. With non-negative
   scores the two phases together follow the same strict rule as a single greedy run.
   */
  method ScoreProportional(input: AllocInput)
    returns (out: AllocOutput, ghost shares: seq<int>, ghost next: seq<nat>, ghost offers: seq<Offer>,
      ghost taken: seq<bool>)
    ensures OffersAllInOrder(input.candidates, offers) && |taken| == |offers|
    ensures out == Outcome(input.candidates, offers, taken)
    ensures input.candidates != [] ==>
              && |next| == |shares| == |input.candidates|
              && (forall q | 0 <= q < |next| :: StopsAt(input.candidates[q], shares[q], next[q]))
              && PrefixOffers(next) <= offers && RoundByRound(offers, next, |PrefixOffers(next)|)
              && taken[..|PrefixOffers(next)|] == AllTrue(|PrefixOffers(next)|)
              && SpillsFrom(input.candidates, offers, taken, |PrefixOffers(next)|, input.budget)
    ensures NonNegativeTops(input.candidates) && input.budget >= 0 ==>
              && (input.candidates != [] ==>
                    var weights := Weights(input.candidates);
                    SumReal(weights) > 0.0 && QuotaRule(weights, SumReal(weights), input.budget, shares))
              && TakesWhatFits(input.candidates, offers, taken, input.budget)
              && BudgetContract(input, out) && InOrder(input, out)
              && (out.budgetExceeded <==> TotalSize(input.candidates) > input.budget)
  {
    var css := input.candidates;
    shares, next, offers, taken := [], [], [], [];
    if css == [] {
      out := NewOutput(0);
      RunComplete(input, [], []);
      return;
    }
    var weights := Weights(css);
    WeightsPositive(css);
    var computed, bonus := LargestRemainder(weights, SumReal(weights), input.budget);
    shares := computed;
    var stops;
    out, stops := TakeShares(css, computed);
    next := stops;
    ghost var rounds;
    out, rounds, taken := Spill(css, stops, input.budget, out, PrefixOffers(next));
    offers := PrefixOffers(next) + RoundOffers(css, next, rounds, 0);
    BothPhasesOfferAll(css, next, rounds);
    SpillOrder(css, next, rounds);
    if NonNegativeTops(css) && input.budget >= 0 {
      PhaseOneFits(css, next, shares, input.budget);
      TakesWhatFitsPrefix(css, PrefixOffers(next), RoundOffers(css, next, rounds, 0), AllTrue(|PrefixOffers(next)|),
        input.budget);
      SpillKeepsRule(css, offers, taken, |PrefixOffers(next)|, input.budget);
      RunComplete(input, offers, taken);
    }
  }
}
