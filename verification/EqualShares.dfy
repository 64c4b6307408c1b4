/** The equal-budget allocator (internal/search/allocators.go): fixed caps, no redistribution. */
module EqualShares {
  import opened Arithmetic
  import opened Allocation

  /** Integer division and remainder that truncate toward zero. */
  function TruncDiv(a: int, b: int): int
    requires b > 0
  {
    if a >= 0 then a / b else -(-a / b)
  }

  function TruncMod(a: int, b: int): int
    requires b > 0
  {
    a - TruncDiv(a, b) * b
  }

  /** The bytes each of `n` queries may spend: one extra byte for the first `remainder` of them. */
  function EvenCaps(share: int, remainder: int, n: nat): (caps: seq<int>)
    ensures |caps| == n
    ensures forall q | 0 <= q < n :: caps[q] == share + if q < remainder then 1 else 0
  {
    seq(n, q => share + if q < remainder then 1 else 0)
  }

  function Caps(budget: int, n: nat): (caps: seq<int>)
    ensures |caps| == n
  {
    if n == 0 then [] else EvenCaps(TruncDiv(budget, n), TruncMod(budget, n), n)
  }

  lemma {:induction false} EvenCapsSum(share: int, remainder: int, n: nat, q: nat)
    requires q <= n && 0 <= remainder
    ensures Sum(EvenCaps(share, remainder, n)[..q]) == q * share + if q < remainder then q else remainder
  {
    if q > 0 {
      EvenCapsSum(share, remainder, n, q - 1);
      assert EvenCaps(share, remainder, n)[..q][..q - 1] == EvenCaps(share, remainder, n)[..q - 1];
      assert q * share == (q - 1) * share + share;
    }
  }

  lemma DivisionSplits(budget: int, n: nat)
    requires n > 0 && budget >= 0
    ensures 0 <= TruncDiv(budget, n) && 0 <= TruncMod(budget, n) < n
    ensures budget == n * TruncDiv(budget, n) + TruncMod(budget, n)
  {
    assert budget == budget / n * n + budget % n;
  }

  /** The caps hand out the whole budget, and no two of them differ by more than one byte. */
  lemma CapsShareBudget(budget: int, n: nat)
    requires n > 0 && budget >= 0
    ensures Sum(Caps(budget, n)) == budget
    ensures forall p: nat, q: nat | p < n && q < n :: 0 <= Caps(budget, n)[p] <= Caps(budget, n)[q] + 1
    ensures forall p: nat, q: nat | p < q < n :: Caps(budget, n)[p] >= Caps(budget, n)[q]
  {
    var share, remainder := TruncDiv(budget, n), TruncMod(budget, n);
    DivisionSplits(budget, n);
    EvenCapsSum(share, remainder, n, n);
    assert Caps(budget, n)[..n] == Caps(budget, n);
  }

  lemma NegativeCaps(budget: int, n: nat, q: nat)
    requires q < n && budget < 0
    ensures Caps(budget, n)[q] <= 0
  {
    var d := -budget / n;
    assert -budget == d * n + -budget % n;
    assert TruncMod(budget, n) == budget + d * n <= 0;
  }

  /** The positions picked when one ranking is cut to `cap` bytes, skipping whatever does not fit. */
  ghost function FitsAt(cs: seq<Candidate>, cap: int): (at: seq<nat>)
    ensures forall i | 0 <= i < |at| :: at[i] < |cs|
  {
    if cs == [] then [] else
      var n := |cs| - 1;
      var before := FitsAt(cs[..n], cap);
      if SizeOf(Fits(cs[..n], cap)) + cs[n].size <= cap then before + [n] else before
  }

  ghost function Fits(cs: seq<Candidate>, cap: int): seq<Candidate> {
    if cs == [] then [] else
      var n := |cs| - 1;
      var before := Fits(cs[..n], cap);
      if SizeOf(before) + cs[n].size <= cap then before + [cs[n]] else before
  }

  lemma {:induction false} FitsInOrder(cs: seq<Candidate>, cap: int)
    ensures PicksInOrder(Fits(cs, cap), cs, FitsAt(cs, cap))
  {
    if cs != [] {
      FitsInOrder(cs[..|cs| - 1], cap);
    }
  }

  /** What the kept candidates before rank `k` take. */
  ghost function KeptBefore(cs: seq<Candidate>, at: seq<nat>, k: nat): nat
    requires forall i | 0 <= i < |at| :: at[i] < |cs|
  {
    if at == [] then 0
    else KeptBefore(cs, at[..|at| - 1], k) + if at[|at| - 1] < k then cs[at[|at| - 1]].size else 0
  }

  lemma {:induction false} KeptBeforeAll(cs: seq<Candidate>, more: seq<Candidate>, at: seq<nat>, k: nat)
    requires cs <= more && forall i | 0 <= i < |at| :: at[i] < |cs|
    ensures KeptBefore(cs, at, k) == KeptBefore(more, at, k)
    ensures k >= |cs| ==> KeptBefore(cs, at, k) == KeptBefore(cs, at, |cs|)
  {
    if at != [] {
      KeptBeforeAll(cs, more, at[..|at| - 1], k);
    }
  }

  lemma {:induction false} KeptIsSize(cs: seq<Candidate>, cap: int)
    ensures KeptBefore(cs, FitsAt(cs, cap), |cs|) == SizeOf(Fits(cs, cap))
  {
    if cs != [] {
      var n := |cs| - 1;
      var before := FitsAt(cs[..n], cap);
      KeptIsSize(cs[..n], cap);
      KeptBeforeAll(cs[..n], cs, before, n);
      KeptBeforeAll(cs[..n], cs, before, n + 1);
      SizeOfSnoc(Fits(cs[..n], cap), cs[n]);
      assert (before + [n])[..|before|] == before;
    }
  }

  lemma KeptBeforeSnoc(cs: seq<Candidate>, at: seq<nat>, n: nat, k: nat)
    requires n < |cs| && forall i | 0 <= i < |at| :: at[i] < |cs|
    ensures KeptBefore(cs, at + [n], k) == KeptBefore(cs, at, k) + if n < k then cs[n].size else 0
  {
    assert (at + [n])[..|at|] == at;
  }

  /** A candidate is kept exactly when it fits what the kept ones of better rank leave of the cap: none is final. */
  lemma {:induction false} KeptIffItFits(cs: seq<Candidate>, cap: int, k: nat)
    requires k < |cs|
    ensures k in FitsAt(cs, cap) <==> KeptBefore(cs, FitsAt(cs, cap), k) + cs[k].size <= cap
  {
    var n := |cs| - 1;
    var before := FitsAt(cs[..n], cap);
    KeptBeforeAll(cs[..n], cs, before, k);
    KeptBeforeSnoc(cs, before, n, k);
    if k < n {
      KeptIffItFits(cs[..n], cap, k);
    } else {
      KeptIsSize(cs[..n], cap);
    }
  }

  lemma {:induction false} FitsSize(cs: seq<Candidate>, cap: int)
    ensures SizeOf(Fits(cs, cap)) <= Max(0, cap)
    ensures |Fits(cs, cap)| <= |cs|
    ensures SizeOf(Fits(cs, cap)) <= SizeOf(cs)
    ensures 0 <= cap ==> (|Fits(cs, cap)| == |cs| <==> SizeOf(cs) <= cap)
    ensures |Fits(cs, cap)| == |cs| ==> SizeOf(Fits(cs, cap)) == SizeOf(cs)
  {
    if cs != [] {
      var n := |cs| - 1;
      FitsSize(cs[..n], cap);
      SizeOfSnoc(Fits(cs[..n], cap), cs[n]);
    }
  }

  lemma FitsSnoc(cs: seq<Candidate>, n: nat, cap: int)
    requires n < |cs|
    ensures Fits(cs[..n + 1], cap) ==
            if SizeOf(Fits(cs[..n], cap)) + cs[n].size <= cap then Fits(cs[..n], cap) + [cs[n]] else Fits(cs[..n], cap)
  {
    assert cs[..n + 1][..n] == cs[..n];
  }

  /** An offer is accepted exactly when it still fits what its own query has left of its cap. */
  ghost predicate TakesWithinCaps(css: seq<seq<Candidate>>, offers: seq<Offer>, taken: seq<bool>, caps: seq<int>)
    requires |taken| <= |offers| && ValidOffers(css, offers) && |caps| == |css|
    decreases |taken|
  {
    taken != [] ==>
      var n := |taken| - 1;
      var q := offers[n].query;
      && TakesWithinCaps(css, offers, taken[..n], caps)
      && (taken[n] <==> SizeOf(Included(css, offers, taken[..n], q)) + At(css, offers[n]).size <= caps[q])
  }

  /** Ranks that come in order come one by one. */
  lemma NextRank(offers: seq<Offer>, n: nat, q: nat, m: nat)
    requires n < |offers| && RanksOf(offers[..n + 1], q) <= Range(0, m)
    ensures RanksOf(offers[..n], q) <= Range(0, m)
    ensures if offers[n].query == q then
              var k := |RanksOf(offers[..n], q)|;
              k < m && offers[n].rank == k && |RanksOf(offers[..n + 1], q)| == k + 1
            else RanksOf(offers[..n + 1], q) == RanksOf(offers[..n], q)
  {
    var before := RanksOf(offers[..n], q);
    assert offers[..n + 1] == offers[..n] + [offers[n]];
    RanksOfSnoc(offers[..n], offers[n], q);
    if offers[n].query == q {
      assert RanksOf(offers[..n + 1], q)[|before|] == offers[n].rank;
    }
  }

  lemma IncludedStep(css: seq<seq<Candidate>>, offers: seq<Offer>, taken: seq<bool>, caps: seq<int>, q: nat)
    requires 0 < |taken| <= |offers| && ValidOffers(css, offers) && q < |css| == |caps|
    requires TakesWithinCaps(css, offers, taken, caps)
    ensures var n := |taken| - 1;
            var before, c := Included(css, offers, taken[..n], q), At(css, offers[n]);
            Included(css, offers, taken, q) == if offers[n].query == q && SizeOf(before) + c.size <= caps[q]
              then before + [c] else before
  {
  }

  /** What query `q` has so far is its ranking so far, cut to its own cap. */
  ghost predicate IsCut(css: seq<seq<Candidate>>, offers: seq<Offer>, taken: seq<bool>, caps: seq<int>, q: nat)
    requires |taken| <= |offers| && ValidOffers(css, offers) && q < |css| == |caps|
  {
    var k := |RanksOf(offers[..|taken|], q)|;
    k <= |css[q]| && Included(css, offers, taken, q) == Fits(css[q][..k], caps[q])
  }

  lemma StaysCut(css: seq<seq<Candidate>>, offers: seq<Offer>, taken: seq<bool>, caps: seq<int>, q: nat)
    requires 0 < |taken| <= |offers| && ValidOffers(css, offers) && q < |css| == |caps|
    requires RanksOf(offers[..|taken|], q) <= Range(0, |css[q]|) && TakesWithinCaps(css, offers, taken, caps)
    requires IsCut(css, offers, taken[..|taken| - 1], caps, q)
    ensures IsCut(css, offers, taken, caps, q)
  {
    var n := |taken| - 1;
    NextRank(offers, n, q, |css[q]|);
    IncludedStep(css, offers, taken, caps, q);
    if offers[n].query == q {
      CutFurther(css[q], offers[n].rank, caps[q], Included(css, offers, taken[..n], q),
        Included(css, offers, taken, q));
    }
  }

  lemma CutFurther(cs: seq<Candidate>, k: nat, cap: int, before: seq<Candidate>, now: seq<Candidate>)
    requires k < |cs| && before == Fits(cs[..k], cap)
    requires now == if SizeOf(before) + cs[k].size <= cap then before + [cs[k]] else before
    ensures now == Fits(cs[..k + 1], cap)
  {
    FitsSnoc(cs, k, cap);
  }

  /** Each query ends up with its own ranking cut to its own cap, whatever the other queries did. */
  lemma {:induction false} CapsAreSeparate(css: seq<seq<Candidate>>, offers: seq<Offer>, taken: seq<bool>,
                                           caps: seq<int>, q: nat)
    requires |taken| <= |offers| && ValidOffers(css, offers) && q < |css| == |caps|
    requires RanksOf(offers[..|taken|], q) <= Range(0, |css[q]|)
    requires TakesWithinCaps(css, offers, taken, caps)
    ensures IsCut(css, offers, taken, caps, q)
    decreases |taken|
  {
    if taken != [] {
      NextRank(offers, |taken| - 1, q, |css[q]|);
      CapsAreSeparate(css, offers, taken[..|taken| - 1], caps, q);
      StaysCut(css, offers, taken, caps, q);
    }
  }

  lemma {:induction false} CapsBoundTotal(inc: seq<seq<Candidate>>, caps: seq<int>, k: nat)
    requires k <= |inc| == |caps|
    requires forall q | 0 <= q < |caps| :: SizeOf(inc[q]) <= Max(0, caps[q])
    ensures (forall q | 0 <= q < |caps| :: caps[q] >= 0) ==> TotalSize(inc[..k]) <= Sum(caps[..k])
    ensures (forall q | 0 <= q < |caps| :: caps[q] <= 0) ==> TotalSize(inc[..k]) == 0
  {
    if k > 0 {
      CapsBoundTotal(inc, caps, k - 1);
      assert inc[..k][..k - 1] == inc[..k - 1];
      assert caps[..k][..k - 1] == caps[..k - 1];
    }
  }

  lemma CapsKeepBudget(inc: seq<seq<Candidate>>, budget: int)
    requires forall q | 0 <= q < |inc| :: SizeOf(inc[q]) <= Max(0, Caps(budget, |inc|)[q])
    ensures TotalSize(inc) <= Max(0, budget)
  {
    var caps := Caps(budget, |inc|);
    CapsBoundTotal(inc, caps, |inc|);
    assert inc[..|inc|] == inc && caps[..|inc|] == caps;
    if inc != [] && budget >= 0 {
      CapsShareBudget(budget, |inc|);
    } else {
      forall q | 0 <= q < |inc| ensures caps[q] <= 0 {
        NegativeCaps(budget, |inc|, q);
      }
    }
  }

  /** What a finished run guarantees. */
  lemma CapsComplete(input: AllocInput, offers: seq<Offer>, taken: seq<bool>, caps: seq<int>)
    requires OffersAllInOrder(input.candidates, offers) && |taken| == |offers|
    requires caps == Caps(input.budget, |input.candidates|)
    requires TakesWithinCaps(input.candidates, offers, taken, caps)
    ensures var css, out := input.candidates, Outcome(input.candidates, offers, taken);
            && BudgetContract(input, out) && InOrder(input, out)
            && (forall q | 0 <= q < |css| :: out.included[q] == Fits(css[q], caps[q]))
  {
    var css, out := input.candidates, Outcome(input.candidates, offers, taken);
    OutcomeProjects(css, offers, taken);
    assert offers[..|taken|] == offers;
    forall q | 0 <= q < |css|
      ensures out.included[q] == Fits(css[q], caps[q])
      ensures SizeOf(out.included[q]) <= Max(0, caps[q])
    {
      CapsAreSeparate(css, offers, taken, caps, q);
      assert css[q][..|css[q]|] == css[q];
      FitsSize(css[q], caps[q]);
    }
    SpentIsTotal(css, offers, taken, out.included);
    CapsKeepBudget(out.included, input.budget);
    RunMeetsContract(input, offers, taken, out);
  }

  /** Something is dropped exactly when some query outgrows its own cap. */
  lemma DropsIffSomeCapTooSmall(input: AllocInput, out: AllocOutput)
    requires BudgetContract(input, out) && input.budget >= 0
    requires forall q | 0 <= q < |input.candidates| ::
               out.included[q] == Fits(input.candidates[q], Caps(input.budget, |input.candidates|)[q])
    ensures out.budgetExceeded <==>
            exists q :: 0 <= q < |input.candidates|
                     && SizeOf(input.candidates[q]) > Caps(input.budget, |input.candidates|)[q]
  {
    var css, caps := input.candidates, Caps(input.budget, |input.candidates|);
    forall q | 0 <= q < |css|
      ensures out.omitted[q] > 0 <==> SizeOf(css[q]) > caps[q]
    {
      CapsShareBudget(input.budget, |css|);
      assert |out.included[q]| + out.omitted[q] == |css[q]|;
      FitsSize(css[q], caps[q]);
    }
  }

  /** A run within caps, together with the output it has produced. */
  ghost predicate CapRun(css: seq<seq<Candidate>>, offers: seq<Offer>, taken: seq<bool>, caps: seq<int>,
                         out: AllocOutput) {
    && ValidOffers(css, offers) && |taken| == |offers| && |caps| == |css|
    && TakesWithinCaps(css, offers, taken, caps)
    && out == Outcome(css, offers, taken)
  }

  /** One query's ranking against its cap; the running total lives in `out.byteBudgetUsed`. */
  method FillCap(css: seq<seq<Candidate>>, qi: nat, capBytes: int, before: AllocOutput,
                 ghost takenBefore: seq<bool>, ghost caps: seq<int>)
    returns (out: AllocOutput, ghost taken: seq<bool>)
    requires qi < |css| == |caps| && capBytes == caps[qi]
    requires CapRun(css, FlatOffers(css, qi, 0), takenBefore, caps, before)
    ensures CapRun(css, FlatOffers(css, qi + 1, 0), taken, caps, out)
  {
    var cs := css[qi];
    out, taken := before, takenBefore;
    var qUsed: nat := 0;
    FlatOffersRanks(css, qi, 0, qi);
    NothingYet(css, FlatOffers(css, qi, 0), taken, qi);
    for k := 0 to |cs|
      invariant CapRun(css, FlatOffers(css, qi, k), taken, caps, out)
      invariant qUsed == SizeOf(Included(css, FlatOffers(css, qi, k), taken, qi))
    {
      var c := cs[k];
      CapOffer(css, FlatOffers(css, qi, k), taken, Offer(qi, k), caps, out);
      assert FlatOffers(css, qi, k + 1) == FlatOffers(css, qi, k) + [Offer(qi, k)];
      if qUsed + c.size <= capBytes {
        out := Accept(out, qi, c);
        qUsed := qUsed + c.size;
        taken := taken + [true];
      } else {
        out := Decline(out, qi);
        taken := taken + [false];
      }
    }
  }

  /** Gives every query its fixed cap; unused bytes of one query never reach another. */
  method EqualBudget(input: AllocInput) returns (out: AllocOutput)
    ensures BudgetContract(input, out) && InOrder(input, out)
    ensures forall q | 0 <= q < |input.candidates| ::
              out.included[q] == Fits(input.candidates[q], Caps(input.budget, |input.candidates|)[q])
    ensures input.budget >= 0 ==>
              (out.budgetExceeded <==>
               exists q :: 0 <= q < |input.candidates|
                        && SizeOf(input.candidates[q]) > Caps(input.budget, |input.candidates|)[q])
  {
    var css, n := input.candidates, |input.candidates|;
    out := NewOutput(n);
    if n == 0 {
      return;
    }
    var share, remainder := TruncDiv(input.budget, n), TruncMod(input.budget, n);
    ghost var taken: seq<bool> := [];
    ghost var caps := EvenCaps(share, remainder, n);
    for qi := 0 to n
      invariant CapRun(css, FlatOffers(css, qi, 0), taken, caps, out)
    {
      var capBytes := share;
      if qi < remainder {
        capBytes := capBytes + 1;
      }
      out, taken := FillCap(css, qi, capBytes, out, taken, caps);
    }
    FlatOffersAllInOrder(css);
    CapsComplete(input, FlatOffers(css, n, 0), taken, caps);
    if input.budget >= 0 {
      DropsIffSomeCapTooSmall(input, out);
    }
  }

  lemma NothingYet(css: seq<seq<Candidate>>, offers: seq<Offer>, taken: seq<bool>, q: nat)
    requires |taken| == |offers| && ValidOffers(css, offers) && RanksOf(offers, q) == []
    ensures Included(css, offers, taken, q) == []
  {
    assert offers[..|taken|] == offers;
    CountsAddUp(css, offers, taken, q);
  }

  /** One more offer extends the run. */
  lemma CapOffer(css: seq<seq<Candidate>>, offers: seq<Offer>, taken: seq<bool>, o: Offer, caps: seq<int>,
                 out: AllocOutput)
    requires CapRun(css, offers, taken, caps, out) && ValidOffer(css, o)
    ensures ValidOffers(css, offers + [o])
    ensures var spent := SizeOf(Included(css, offers, taken, o.query));
            if spent + At(css, o).size <= caps[o.query] then
              && CapRun(css, offers + [o], taken + [true], caps, Accept(out, o.query, At(css, o)))
              && SizeOf(Included(css, offers + [o], taken + [true], o.query)) == spent + At(css, o).size
            else
              && CapRun(css, offers + [o], taken + [false], caps, Decline(out, o.query))
              && SizeOf(Included(css, offers + [o], taken + [false], o.query)) == spent
  {
    OutcomeStep(css, offers, taken, o);
    ProjectionPrefix(css, offers, [o], taken, o.query);
    TakesWithinCapsPrefix(css, offers, [o], taken, caps);
    assert (taken + [true])[..|taken|] == taken && (taken + [false])[..|taken|] == taken;
    SizeOfSnoc(Included(css, offers, taken, o.query), At(css, o));
  }

  lemma {:induction false} TakesWithinCapsPrefix(css: seq<seq<Candidate>>, offers: seq<Offer>, more: seq<Offer>,
                                                 taken: seq<bool>, caps: seq<int>)
    requires |taken| <= |offers| && ValidOffers(css, offers) && ValidOffers(css, offers + more) && |caps| == |css|
    ensures TakesWithinCaps(css, offers + more, taken, caps) == TakesWithinCaps(css, offers, taken, caps)
    decreases |taken|
  {
    if taken != [] {
      var n := |taken| - 1;
      TakesWithinCapsPrefix(css, offers, more, taken[..n], caps);
      ProjectionPrefix(css, offers, more, taken[..n], offers[n].query);
    }
  }

  lemma OnlyHit(hit: Candidate)
    ensures SizeOf([hit]) == hit.size && TotalSize([[hit], []]) == hit.size
  {
    SizeOfSnoc([], hit);
    assert [] + [hit] == [hit];
    var css: seq<seq<Candidate>> := [[hit], []];
    assert css[..1] == [[hit]] && css[..1][..0] == [];
    assert TotalSize(css) == TotalSize(css[..1]) + SizeOf([]);
  }

  /**
   Dropping for budget is not the same as having too much, idle shares stay idle: of 61 bytes for one
   query and none for the other nothing is returned, although a hundred may be.
   */
  lemma DropsAlthoughTotalFits(input: AllocInput, hit: Candidate, out: AllocOutput)
    requires input.candidates == [[hit], []] && hit.size == 61 && input.budget == 100
    requires BudgetContract(input, out)
    requires forall q | 0 <= q < 2 :: out.included[q] == Fits(input.candidates[q], Caps(100, 2)[q])
    ensures TotalSize(input.candidates) < input.budget
    ensures out.included == [[], []] && out.omitted[0] == 1 && out.budgetExceeded
  {
    OnlyHit(hit);
    FitsSize([hit], 50);
    FitsSize([], 50);
    assert Caps(100, 2) == [50, 50];
  }
}
