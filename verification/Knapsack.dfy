/** The 0/1 knapsack allocator (`knapsackGreedy` in internal/search/allocators.go). */
module Knapsack {
  import opened Allocation
  import opened Bits

  datatype Item = Item(query: nat, cand: Candidate)

  // ----- Selections and their worth

  function Value(items: seq<Item>, chosen: seq<bool>): real
    requires |chosen| <= |items|
    decreases |chosen|
  {
    if chosen == [] then 0.0 else
      var n := |chosen| - 1;
      Value(items, chosen[..n]) + if chosen[n] then items[n].cand.relevance else 0.0
  }

  function Weight(items: seq<Item>, chosen: seq<bool>): nat
    requires |chosen| <= |items|
    decreases |chosen|
  {
    if chosen == [] then 0 else
      var n := |chosen| - 1;
      Weight(items, chosen[..n]) + if chosen[n] then items[n].cand.size else 0
  }

  // ----- The two-dimensional recurrence

  /** The best relevance the first `n` items reach with `w` bytes. */
  ghost function Best(items: seq<Item>, n: nat, w: nat): real
    requires n <= |items|
    decreases n, 0
  {
    if n == 0 then 0.0
    else if Takes(items, n - 1, w) then Best(items, n - 1, w - items[n - 1].cand.size) + items[n - 1].cand.relevance
    else Best(items, n - 1, w)
  }

  /** Item `i` is worth taking with `w` bytes: strictly better than leaving it out. */
  ghost predicate Takes(items: seq<Item>, i: nat, w: nat)
    requires i < |items|
    decreases i, 1
  {
    && items[i].cand.size <= w
    && Best(items, i, w - items[i].cand.size) + items[i].cand.relevance > Best(items, i, w)
  }

  /** The selection the recurrence stands for. */
  ghost function Choice(items: seq<Item>, n: nat, w: nat): (chosen: seq<bool>)
    requires n <= |items|
    ensures |chosen| == n
    decreases n
  {
    if n == 0 then []
    else if Takes(items, n - 1, w) then Choice(items, n - 1, w - items[n - 1].cand.size) + [true]
    else Choice(items, n - 1, w) + [false]
  }

  /** The recurrence's selection fits and is worth what the recurrence says. */
  lemma {:induction false} ChoiceWorth(items: seq<Item>, n: nat, w: nat)
    requires n <= |items|
    ensures Weight(items, Choice(items, n, w)) <= w
    ensures Value(items, Choice(items, n, w)) == Best(items, n, w)
    decreases n
  {
    if n > 0 {
      var size := items[n - 1].cand.size;
      if Takes(items, n - 1, w) {
        ChoiceWorth(items, n - 1, w - size);
        WorthSnoc(items, Choice(items, n - 1, w - size), true);
      } else {
        ChoiceWorth(items, n - 1, w);
        WorthSnoc(items, Choice(items, n - 1, w), false);
      }
    }
  }

  lemma WorthSnoc(items: seq<Item>, chosen: seq<bool>, b: bool)
    requires |chosen| < |items|
    ensures Value(items, chosen + [b]) == Value(items, chosen) + if b then items[|chosen|].cand.relevance else 0.0
    ensures Weight(items, chosen + [b]) == Weight(items, chosen) + if b then items[|chosen|].cand.size else 0
  {
    assert (chosen + [b])[..|chosen|] == chosen;
  }

  /** No selection that fits is worth more. */
  lemma {:induction false} BestBounds(items: seq<Item>, chosen: seq<bool>, w: nat)
    requires |chosen| <= |items| && Weight(items, chosen) <= w
    ensures Value(items, chosen) <= Best(items, |chosen|, w)
    decreases |chosen|
  {
    if chosen != [] {
      var n := |chosen| - 1;
      if chosen[n] {
        BestBounds(items, chosen[..n], w - items[n].cand.size);
      } else {
        BestBounds(items, chosen[..n], w);
      }
    }
  }

  /** `k` is the last position at which two selections differ. */
  ghost predicate LastDifference(a: seq<bool>, b: seq<bool>, k: nat)
    requires |a| == |b|
  {
    k < |a| && a[k] != b[k] && a[k + 1..] == b[k + 1..]
  }

  /**
   Ties drop the later item: any other selection that fits and is worth as much takes, at the last
   position where the two differ, an item the recurrence leaves out.
   */
  lemma {:induction false} TiesDropLaterItem(items: seq<Item>, other: seq<bool>, w: nat) returns (k: nat)
    requires |other| <= |items| && Weight(items, other) <= w
    requires Value(items, other) == Best(items, |other|, w)
    requires other != Choice(items, |other|, w)
    ensures LastDifference(Choice(items, |other|, w), other, k)
    ensures !Choice(items, |other|, w)[k] && other[k]
    decreases |other|
  {
    var n := |other| - 1;
    var choice := Choice(items, |other|, w);
    if choice[n] == other[n] {
      var v := if other[n] then w - items[n].cand.size else w;
      assert choice == Choice(items, n, v) + [choice[n]];
      assert other == other[..n] + [other[n]];
      k := TiesDropLaterItem(items, other[..n], v);
      assert choice[k + 1..] == Choice(items, n, v)[k + 1..] + [choice[n]];
      assert other[k + 1..] == other[..n][k + 1..] + [other[n]];
    } else {
      k := n;
      if choice[n] {
        BestBounds(items, other[..n], w);
        assert false;
      }
    }
  }

  // ----- When is something left out?

  lemma {:induction false} BestMonotone(items: seq<Item>, n: nat, v: nat, w: nat)
    requires n <= |items| && v <= w
    ensures Best(items, n, v) <= Best(items, n, w)
  {
    ChoiceWorth(items, n, v);
    BestBounds(items, Choice(items, n, v), w);
  }

  lemma {:induction false} LeavingOutCosts(items: seq<Item>, chosen: seq<bool>)
    requires |chosen| <= |items| && forall i | 0 <= i < |chosen| :: items[i].cand.relevance > 0.0
    ensures Value(items, chosen) <= Value(items, AllTrue(|chosen|))
    ensures false in chosen ==> Value(items, chosen) < Value(items, AllTrue(|chosen|))
    decreases |chosen|
  {
    if chosen != [] {
      var n := |chosen| - 1;
      LeavingOutCosts(items, chosen[..n]);
      assert chosen == chosen[..n] + [chosen[n]];
      assert AllTrue(|chosen|)[..n] == AllTrue(n);
    }
  }

  lemma {:induction false} TakenAllPositive(items: seq<Item>, n: nat, w: nat, i: nat)
    requires i < n <= |items| && Choice(items, n, w) == AllTrue(n)
    ensures items[i].cand.relevance > 0.0
    decreases n
  {
    assert Choice(items, n, w)[n - 1];
    if i == n - 1 {
      BestMonotone(items, i, w - items[i].cand.size, w);
    } else {
      assert Choice(items, n - 1, w - items[n - 1].cand.size) == Choice(items, n, w)[..n - 1] == AllTrue(n - 1);
      TakenAllPositive(items, n - 1, w - items[n - 1].cand.size, i);
    }
  }

  /** Everything is taken exactly when everything fits and every item adds relevance. */
  lemma TakesAllIff(items: seq<Item>, w: nat)
    ensures false !in Choice(items, |items|, w) <==>
            Weight(items, AllTrue(|items|)) <= w && forall i | 0 <= i < |items| :: items[i].cand.relevance > 0.0
  {
    var n, choice := |items|, Choice(items, |items|, w);
    ChoiceWorth(items, n, w);
    if false !in choice {
      forall i | 0 <= i < n ensures choice[i] {
        assert choice[i] in choice;
      }
      assert choice == AllTrue(n);
      forall i | 0 <= i < n
        ensures items[i].cand.relevance > 0.0
      {
        TakenAllPositive(items, n, w, i);
      }
    } else if Weight(items, AllTrue(n)) <= w && forall i | 0 <= i < n :: items[i].cand.relevance > 0.0 {
      BestBounds(items, AllTrue(n), w);
      LeavingOutCosts(items, choice);
      assert false;
    }
  }

  // ----- Items and offers

  /** Item `i` stands for offer `i`. */
  ghost predicate ItemsOf(css: seq<seq<Candidate>>, offers: seq<Offer>, items: seq<Item>) {
    && ValidOffers(css, offers) && |items| == |offers|
    && forall i | 0 <= i < |items| :: items[i] == Item(offers[i].query, At(css, offers[i]))
  }

  lemma {:induction false} WeightIsSpent(css: seq<seq<Candidate>>, offers: seq<Offer>, items: seq<Item>,
                                         chosen: seq<bool>)
    requires ItemsOf(css, offers, items) && |chosen| <= |items|
    ensures Weight(items, chosen) == Spent(css, offers, chosen)
    decreases |chosen|
  {
    if chosen != [] {
      WeightIsSpent(css, offers, items, chosen[..|chosen| - 1]);
    }
  }

  method Flatten(css: seq<seq<Candidate>>) returns (items: seq<Item>)
    ensures ItemsOf(css, FlatOffers(css, |css|, 0), items)
  {
    items := [];
    for qi := 0 to |css|
      invariant ItemsOf(css, FlatOffers(css, qi, 0), items)
    {
      var cs := css[qi];
      for k := 0 to |cs|
        invariant ItemsOf(css, FlatOffers(css, qi, k), items)
      {
        items := items + [Item(qi, cs[k])];
      }
    }
  }

  // ----- The in-place rows

  /** A row of the bit matrix records the decisions on item `i` for all capacities above `low`. */
  ghost predicate RowDecided(items: seq<Item>, row: seq<bv64>, budget: nat, i: nat, low: int)
    requires i < |items|
  {
    && |row| == Words(budget)
    && forall w | 0 <= w <= budget :: BitOf(row, w) <==> w > low && Takes(items, i, w)
  }

  /** `dp` holds the next row of the recurrence above `low`, and the previous row up to `low`. */
  ghost predicate DpBetween(items: seq<Item>, dp: seq<real>, i: nat, low: int)
    requires i < |items|
  {
    forall w | 0 <= w < |dp| :: dp[w] == if w > low then Best(items, i + 1, w) else Best(items, i, w)
  }

  lemma SetBitDecides(items: seq<Item>, row: seq<bv64>, budget: nat, i: nat, w: nat)
    requires i < |items| && w <= budget && RowDecided(items, row, budget, i, w)
    ensures Takes(items, i, w) ==> RowDecided(items, SetBit(row, w), budget, i, w - 1)
    ensures !Takes(items, i, w) ==> RowDecided(items, row, budget, i, w - 1)
  {
    forall v | 0 <= v <= budget
      ensures BitOf(SetBit(row, w), v) <==> v == w || BitOf(row, v)
    {
      SetBitSets(row, w, v);
    }
  }

  /** The inner loop: capacities descend, so `dp[w - size]` still holds the previous row. */
  method FillRow(items: seq<Item>, dp: array<real>, take: array<seq<bv64>>, budget: nat, i: nat)
    requires i < |items| == take.Length && dp.Length == budget + 1
    requires DpBetween(items, dp[..], i, budget) && take[i] == BlankRow(Words(budget))
    modifies dp, take
    ensures DpBetween(items, dp[..], i, -1) && RowDecided(items, take[i], budget, i, -1)
    ensures forall r | 0 <= r < take.Length && r != i :: take[r] == old(take[r])
  {
    var size, val := items[i].cand.size, items[i].cand.relevance;
    var w := budget;
    forall v | 0 <= v <= budget ensures !BitOf(take[i], v) {
      BlankRowHasNoBit(Words(budget), v);
    }
    while w >= size
      invariant -1 <= w <= budget
      invariant DpBetween(items, dp[..], i, w)
      invariant RowDecided(items, take[i], budget, i, w)
      invariant forall r | 0 <= r < take.Length && r != i :: take[r] == old(take[r])
    {
      SetBitDecides(items, take[i], budget, i, w);
      assert dp[..][w] == Best(items, i, w) && dp[..][w - size] == Best(items, i, w - size);
      if dp[w - size] + val > dp[w] {
        dp[w] := dp[w - size] + val;
        take[i] := SetBit(take[i], w);
      }
      w := w - 1;
    }
  }

  // ----- The allocator

  method DecideRows(items: seq<Item>, budget: nat) returns (take: array<seq<bv64>>)
    ensures fresh(take) && take.Length == |items|
    ensures forall i | 0 <= i < |items| :: RowDecided(items, take[i], budget, i, -1)
  {
    var n := |items|;
    var dp := new real[budget + 1](_ => 0.0);
    take := new seq<bv64>[n](_ => BlankRow(Words(budget)));
    for i := 0 to n
      invariant i < n ==> DpBetween(items, dp[..], i, budget)
      invariant forall r | 0 <= r < i :: RowDecided(items, take[r], budget, r, -1)
      invariant forall r | i <= r < n :: take[r] == BlankRow(Words(budget))
    {
      FillRow(items, dp, take, budget, i);
    }
  }

  lemma ChoiceSplits(items: seq<Item>, i: nat, w: nat, rest: seq<bool>)
    requires i < |items|
    ensures Takes(items, i, w) ==>
              Choice(items, i + 1, w) + rest == Choice(items, i, w - items[i].cand.size) + ([true] + rest)
    ensures !Takes(items, i, w) ==> Choice(items, i + 1, w) + rest == Choice(items, i, w) + ([false] + rest)
  {
  }

  /** Walks the rows backwards; `w` is the capacity that remains for the items before `i`. */
  method Reconstruct(items: seq<Item>, take: array<seq<bv64>>, budget: nat) returns (chosen: array<bool>)
    requires take.Length == |items|
    requires forall i | 0 <= i < |items| :: RowDecided(items, take[i], budget, i, -1)
    ensures fresh(chosen) && chosen[..] == Choice(items, |items|, budget)
  {
    var n := |items|;
    chosen := new bool[n](_ => false);
    var w: nat := budget;
    var i := n;
    while i > 0
      invariant 0 <= i <= n && w <= budget
      invariant Choice(items, n, budget) == Choice(items, i, w) + chosen[i..]
      invariant forall k | 0 <= k < i :: !chosen[k]
    {
      ChoiceSplits(items, i - 1, w, chosen[i..]);
      i := i - 1;
      assert BitOf(take[i], w) <==> Takes(items, i, w) by {
        assert RowDecided(items, take[i], budget, i, -1);
      }
      if BitOf(take[i], w) {
        chosen[i] := true;
        w := w - items[i].cand.size;
      }
      assert chosen[i..] == [chosen[i]] + chosen[i + 1..];
    }
    assert chosen[0..] == chosen[..];
  }

  method Assemble(css: seq<seq<Candidate>>, items: seq<Item>, chosen: array<bool>, ghost offers: seq<Offer>)
    returns (out: AllocOutput)
    requires ItemsOf(css, offers, items) && chosen.Length == |items|
    ensures out == Outcome(css, offers, chosen[..])
  {
    out := NewOutput(|css|);
    for i := 0 to |items|
      invariant out == Outcome(css, offers, chosen[..i])
    {
      var it := items[i];
      assert chosen[..i + 1][..i] == chosen[..i];
      if chosen[i] {
        out := Accept(out, it.query, it.cand);
      } else {
        out := Decline(out, it.query);
      }
    }
    assert chosen[..chosen.Length] == chosen[..];
  }

  /** `chosen` fits, and no selection of offers that fits is worth more. */
  ghost predicate Optimal(css: seq<seq<Candidate>>, offers: seq<Offer>, items: seq<Item>, chosen: seq<bool>,
                          budget: nat)
    requires ItemsOf(css, offers, items)
  {
    && |chosen| == |offers| && Spent(css, offers, chosen) <= budget
    && forall other: seq<bool> :: |other| == |offers| && Spent(css, offers, other) <= budget ==>
         Value(items, other) <= Value(items, chosen)
  }

  /** Among equally good selections, `chosen` is the one that leaves out the later items. */
  ghost predicate DropsLaterTies(css: seq<seq<Candidate>>, offers: seq<Offer>, items: seq<Item>, chosen: seq<bool>,
                                 budget: nat)
    requires ItemsOf(css, offers, items) && |chosen| == |offers|
  {
    forall other: seq<bool> ::
      (|other| == |offers| && Spent(css, offers, other) <= budget
       && Value(items, other) == Value(items, chosen) && other != chosen) ==>
        exists k: nat :: LastDifference(chosen, other, k) && !chosen[k] && other[k]
  }

  lemma ChoiceIsBest(css: seq<seq<Candidate>>, offers: seq<Offer>, items: seq<Item>, budget: nat)
    requires ItemsOf(css, offers, items)
    ensures Optimal(css, offers, items, Choice(items, |items|, budget), budget)
    ensures DropsLaterTies(css, offers, items, Choice(items, |items|, budget), budget)
  {
    var chosen := Choice(items, |items|, budget);
    ChoiceWorth(items, |items|, budget);
    WeightIsSpent(css, offers, items, chosen);
    forall other: seq<bool> | |other| == |offers| && Spent(css, offers, other) <= budget
      ensures Value(items, other) <= Value(items, chosen)
      ensures Value(items, other) == Value(items, chosen) && other != chosen ==>
                exists k: nat :: LastDifference(chosen, other, k) && !chosen[k] && other[k]
    {
      WeightIsSpent(css, offers, items, other);
      BestBounds(items, other, budget);
      if Value(items, other) == Value(items, chosen) && other != chosen {
        var k := TiesDropLaterItem(items, other, budget);
      }
    }
  }

  ghost predicate AllPositive(css: seq<seq<Candidate>>) {
    forall q, k | 0 <= q < |css| && 0 <= k < |css[q]| :: css[q][k].relevance > 0.0
  }

  /** Which candidates occur among the items of a complete run: all of them. */
  lemma AllPositiveItems(css: seq<seq<Candidate>>, items: seq<Item>)
    requires ItemsOf(css, FlatOffers(css, |css|, 0), items)
    ensures AllPositive(css) <==> forall i | 0 <= i < |items| :: items[i].cand.relevance > 0.0
  {
    if forall i | 0 <= i < |items| :: items[i].cand.relevance > 0.0 {
      forall q, k | 0 <= q < |css| && 0 <= k < |css[q]|
        ensures css[q][k].relevance > 0.0
      {
        var i := FlatPosition(css, |css|, 0, q, k);
        assert items[i].cand == css[q][k];
      }
    }
  }

  lemma {:induction false} FlatPosition(css: seq<seq<Candidate>>, q: nat, k: nat, q0: nat, k0: nat) returns (i: nat)
    requires q <= |css| && (k > 0 ==> q < |css| && k <= |css[q]|)
    requires q0 < |css| && k0 < |css[q0]| && (q0 < q || (q0 == q && k0 < k))
    ensures i < |FlatOffers(css, q, k)| && FlatOffers(css, q, k)[i] == Offer(q0, k0)
    decreases q, k
  {
    if k > 0 {
      if q0 == q && k0 == k - 1 {
        i := |FlatOffers(css, q, k)| - 1;
      } else {
        i := FlatPosition(css, q, k - 1, q0, k0);
      }
    } else {
      i := FlatPosition(css, q - 1, |css[q - 1]|, q0, k0);
    }
  }

  method KnapsackGreedy(input: AllocInput)
    returns (out: AllocOutput, ghost offers: seq<Offer>, ghost items: seq<Item>, ghost chosen: seq<bool>)
    ensures OffersAllInOrder(input.candidates, offers) && ItemsOf(input.candidates, offers, items)
    ensures input.budget <= 0 ==> out == NewOutput(|input.candidates|)
    ensures input.budget > 0 ==>
              && |chosen| == |offers| && out == Outcome(input.candidates, offers, chosen)
              && Optimal(input.candidates, offers, items, chosen, input.budget)
              && DropsLaterTies(input.candidates, offers, items, chosen, input.budget)
              && BudgetContract(input, out) && InOrder(input, out)
              && (out.budgetExceeded <==> TotalSize(input.candidates) > input.budget || !AllPositive(input.candidates))
  {
    var css, budget := input.candidates, input.budget;
    out := NewOutput(|css|);
    var flat := Flatten(css);
    items, offers, chosen := flat, FlatOffers(css, |css|, 0), [];
    FlatOffersAllInOrder(css);
    if |flat| == 0 || budget <= 0 {
      if budget > 0 {
        ChoiceIsBest(css, offers, items, budget);
        KnapsackContract(input, offers, items);
      }
      return;
    }
    var take := DecideRows(flat, budget);
    var picks := Reconstruct(flat, take, budget);
    chosen := picks[..];
    out := Assemble(css, flat, picks, offers);
    ChoiceIsBest(css, offers, items, budget);
    KnapsackContract(input, offers, items);
  }

  lemma KnapsackContract(input: AllocInput, offers: seq<Offer>, items: seq<Item>)
    requires input.budget > 0 && offers == FlatOffers(input.candidates, |input.candidates|, 0)
    requires ItemsOf(input.candidates, offers, items)
    ensures var out := Outcome(input.candidates, offers, Choice(items, |items|, input.budget));
            && BudgetContract(input, out) && InOrder(input, out)
            && (out.budgetExceeded <==> TotalSize(input.candidates) > input.budget || !AllPositive(input.candidates))
  {
    var css, chosen := input.candidates, Choice(items, |items|, input.budget);
    FlatOffersAllInOrder(css);
    OutcomeProjects(css, offers, chosen);
    ChoiceWorth(items, |items|, input.budget);
    WeightIsSpent(css, offers, items, chosen);
    RunMeetsContract(input, offers, chosen, Outcome(css, offers, chosen));
    TakesAllIff(items, input.budget);
    WeightIsSpent(css, offers, items, AllTrue(|items|));
    AllTakenSpendsTotal(css, offers);
    AllPositiveItems(css, items);
  }

  /** Without a positive budget the early return counts nothing, so conservation holds only for empty input. */
  lemma EarlyReturnConserves(input: AllocInput)
    requires input.budget <= 0
    ensures BudgetContract(input, NewOutput(|input.candidates|)) <==>
            forall q | 0 <= q < |input.candidates| :: input.candidates[q] == []
  {
    var css, out := input.candidates, NewOutput(|input.candidates|);
    assert out.included == seq(|css|, _ => []);
    TotalSizeEmpty(|css|);
    if q :| 0 <= q < |css| && css[q] != [] {
      assert |out.included[q]| + out.omitted[q] == 0;
    }
  }
}
