/** Largest-remainder apportionment (`largestRemainder` in internal/search/allocators.go). */
module Apportionment {
  import opened Arithmetic

  /** Conversion of a real to an integer that truncates toward zero. */
  function Trunc(x: real): int {
    if x >= 0.0 then x.Floor else -((-x).Floor)
  }

  function Quota(w: real, total: real, budget: int): real
    requires total != 0.0
  {
    w / total * (budget as real)
  }

  datatype Frac = Frac(idx: nat, part: real)

  /** Larger parts first, ties to the lower index. */
  predicate Precedes(a: Frac, b: Frac) {
    if a.part != b.part then a.part > b.part else a.idx < b.idx
  }

  ghost predicate Ranked(fs: seq<Frac>) {
    forall i, j | 0 <= i < j < |fs| :: Precedes(fs[i], fs[j])
  }

  function SumReal(s: seq<real>): real {
    if s == [] then 0.0 else SumReal(s[..|s| - 1]) + s[|s| - 1]
  }

  function SumParts(fs: seq<Frac>): real {
    if fs == [] then 0.0 else SumParts(fs[..|fs| - 1]) + fs[|fs| - 1].part
  }

  // ----- The sort

  function Insert(f: Frac, fs: seq<Frac>): (r: seq<Frac>)
    ensures |r| == |fs| + 1
    ensures forall x :: x in r <==> x == f || x in fs
    decreases |fs|
  {
    if fs == [] then [f]
    else
      var n := |fs| - 1;
      if Precedes(f, fs[n]) then Insert(f, fs[..n]) + [fs[n]] else fs + [f]
  }

  function Rank(fs: seq<Frac>): (r: seq<Frac>)
    ensures |r| == |fs|
    ensures forall x :: x in r <==> x in fs
  {
    if fs == [] then [] else Insert(fs[|fs| - 1], Rank(fs[..|fs| - 1]))
  }

  lemma {:induction false} InsertRanked(f: Frac, fs: seq<Frac>)
    requires Ranked(fs) && forall i | 0 <= i < |fs| :: fs[i].idx != f.idx
    ensures Ranked(Insert(f, fs))
    ensures SumParts(Insert(f, fs)) == SumParts(fs) + f.part
    decreases |fs|
  {
    if fs != [] {
      var n := |fs| - 1;
      if Precedes(f, fs[n]) {
        InsertRanked(f, fs[..n]);
        var r := Insert(f, fs[..n]);
        forall i | 0 <= i < |r|
          ensures Precedes(r[i], fs[n])
        {
          assert r[i] in r;
        }
        assert (r + [fs[n]])[..|r|] == r;
      } else {
        assert (fs + [f])[..|fs|] == fs;
      }
    }
  }

  ghost predicate DistinctIdx(fs: seq<Frac>) {
    forall i, j | 0 <= i < j < |fs| :: fs[i].idx != fs[j].idx
  }

  lemma {:induction false} RankRanked(fs: seq<Frac>)
    requires DistinctIdx(fs)
    ensures Ranked(Rank(fs)) && SumParts(Rank(fs)) == SumParts(fs)
  {
    if fs != [] {
      var n := |fs| - 1;
      RankRanked(fs[..n]);
      var r := Rank(fs[..n]);
      forall i | 0 <= i < |r|
        ensures r[i].idx != fs[n].idx
      {
        assert r[i] in r;
      }
      InsertRanked(fs[n], r);
    }
  }

  // ----- Sums

  lemma {:induction false} SumUpdate(s: seq<int>, i: nat, v: int)
    requires i < |s|
    ensures Sum(s[i := v]) == Sum(s) - s[i] + v
  {
    var n := |s| - 1;
    if i == n {
      assert s[i := v][..n] == s[..n];
    } else {
      SumUpdate(s[..n], i, v);
      assert s[i := v][..n] == s[..n][i := v];
    }
  }

  lemma QuotaLinear(w: real, total: real, budget: int)
    requires total != 0.0
    ensures Quota(w, total, budget) == w * ((budget as real) / total)
  {
  }

  lemma {:induction false} QuotasSum(weights: seq<real>, total: real, budget: int, quotas: seq<real>)
    requires total != 0.0 && |quotas| == |weights|
    requires forall i | 0 <= i < |weights| :: quotas[i] == Quota(weights[i], total, budget)
    ensures SumReal(quotas) == SumReal(weights) * ((budget as real) / total)
  {
    if weights != [] {
      var n := |weights| - 1;
      QuotasSum(weights[..n], total, budget, quotas[..n]);
      QuotaLinear(weights[n], total, budget);
    }
  }

  /** Floors and parts split the quotas. */
  lemma {:induction false} PartsSum(quotas: seq<real>, floors: seq<int>, fracs: seq<Frac>)
    requires |quotas| == |floors| == |fracs|
    requires forall i | 0 <= i < |quotas| :: fracs[i].part == quotas[i] - (floors[i] as real)
    ensures SumParts(fracs) == SumReal(quotas) - (Sum(floors) as real)
  {
    if quotas != [] {
      var n := |quotas| - 1;
      PartsSum(quotas[..n], floors[..n], fracs[..n]);
    }
  }

  lemma {:induction false} PartsBound(fs: seq<Frac>)
    requires forall i | 0 <= i < |fs| :: 0.0 <= fs[i].part < 1.0
    ensures 0.0 <= SumParts(fs) <= |fs| as real
    ensures fs != [] ==> SumParts(fs) < |fs| as real
  {
    if fs != [] {
      PartsBound(fs[..|fs| - 1]);
    }
  }

  /** Trailing zero parts add nothing. */
  lemma {:induction false} ZeroTail(fs: seq<Frac>, k: nat)
    requires k <= |fs|
    requires forall i | k <= i < |fs| :: fs[i].part == 0.0
    ensures SumParts(fs) == SumParts(fs[..k])
    decreases |fs|
  {
    if k < |fs| {
      ZeroTail(fs[..|fs| - 1], k);
      assert fs[..|fs| - 1][..k] == fs[..k];
    } else {
      assert fs[..k] == fs;
    }
  }

  /** The first |parts' sum| entries of a ranking all have a positive part. */
  lemma WinnersPositive(fs: seq<Frac>, remaining: nat, k: nat)
    requires Ranked(fs) && forall i | 0 <= i < |fs| :: 0.0 <= fs[i].part < 1.0
    requires SumParts(fs) == remaining as real && k < remaining && k < |fs|
    ensures fs[k].part > 0.0
  {
    if fs[k].part == 0.0 {
      forall i | k <= i < |fs|
        ensures fs[i].part == 0.0
      {
        assert i > k ==> Precedes(fs[k], fs[i]);
      }
      ZeroTail(fs, k);
      PartsBound(fs[..k]);
    }
  }

  // ----- The apportionment

  /** Shares are quotas rounded toward zero; `bonus` lists who got one extra byte. */
  ghost predicate RoundedQuotas(weights: seq<real>, total: real, budget: int, shares: seq<int>, bonus: set<nat>)
    requires total != 0.0
  {
    && |shares| == |weights|
    && forall i | 0 <= i < |shares| ::
         shares[i] == Trunc(Quota(weights[i], total, budget)) + if i in bonus then 1 else 0
  }

  function PartOf(weights: seq<real>, total: real, budget: int, i: nat): Frac
    requires total != 0.0 && i < |weights|
  {
    var q := Quota(weights[i], total, budget);
    Frac(i, q - (Trunc(q) as real))
  }

  /** A winner's fractional part is at least a loser's; if equal, the winner comes earlier. */
  ghost predicate LargestPartsWin(weights: seq<real>, total: real, budget: int, bonus: set<nat>)
    requires total != 0.0
  {
    forall i: nat, j: nat | i < |weights| && j < |weights| && i in bonus && j !in bonus ::
      Precedes(PartOf(weights, total, budget, i), PartOf(weights, total, budget, j))
  }

  /** Whoever got an extra byte had more left over than whoever did not, or as much and the lower index. */
  lemma ExtraByteGoesToLargest(weights: seq<real>, total: real, budget: int, bonus: set<nat>, i: nat, j: nat)
    requires total != 0.0 && LargestPartsWin(weights, total, budget, bonus)
    requires i < |weights| && j < |weights| && i in bonus && j !in bonus
    ensures var p, q := Quota(weights[i], total, budget), Quota(weights[j], total, budget);
            var leftP, leftQ := p - Trunc(p) as real, q - Trunc(q) as real;
            leftP > leftQ || (leftP == leftQ && i < j)
  {
  }

  /** What `largestRemainder` promises for non-negative weights that sum to `total`. */
  ghost predicate QuotaRule(weights: seq<real>, total: real, budget: int, shares: seq<int>)
    requires total != 0.0
  {
    && |shares| == |weights|
    && Sum(shares) == budget
    && forall i | 0 <= i < |shares| ::
         var q := Quota(weights[i], total, budget);
         0.0 <= q && (shares[i] == q.Floor || (q != q.Floor as real && shares[i] == q.Floor + 1))
  }

  ghost predicate WithBonus(floors: seq<int>, shares: seq<int>, bonus: set<nat>) {
    && |shares| == |floors|
    && forall i | 0 <= i < |shares| :: shares[i] == floors[i] + if i in bonus then 1 else 0
  }

  /** The first loop: every exact share is cut to a whole number of bytes, its rest is remembered. */
  method CutShares(weights: seq<real>, total: real, budget: int)
    returns (floors: seq<int>, fracs: seq<Frac>, assignedBytes: int)
    requires total != 0.0
    ensures |floors| == |weights| && PartsOf(weights, total, budget, fracs)
    ensures forall k | 0 <= k < |floors| :: floors[k] == Trunc(Quota(weights[k], total, budget))
    ensures assignedBytes == Sum(floors)
  {
    floors, fracs, assignedBytes := [], [], 0;
    for i := 0 to |weights|
      invariant |floors| == |fracs| == i
      invariant forall k | 0 <= k < i :: floors[k] == Trunc(Quota(weights[k], total, budget))
      invariant forall k | 0 <= k < i :: fracs[k] == PartOf(weights, total, budget, k)
      invariant assignedBytes == Sum(floors)
    {
      var exact := Quota(weights[i], total, budget);
      var floor := Trunc(exact);
      assert (floors + [floor])[..i] == floors;
      floors := floors + [floor];
      assignedBytes := assignedBytes + floor;
      fracs := fracs + [Frac(i, exact - (floor as real))];
    }
  }

  /** The second loop: one extra byte for each of the first `remaining` entries of the ranking. */
  method AddBonus(floors: seq<int>, ranked: seq<Frac>, remaining: int)
    returns (shares: seq<int>, ghost n: nat, ghost bonus: set<nat>)
    requires |ranked| == |floors| && forall k | 0 <= k < |ranked| :: ranked[k].idx < |floors|
    requires forall k, l | 0 <= k < l < |ranked| :: ranked[k].idx != ranked[l].idx
    ensures n <= |ranked| && (n >= remaining || n == |ranked|) && (n == 0 || n <= remaining)
    ensures bonus == set k | 0 <= k < n :: ranked[k].idx
    ensures WithBonus(floors, shares, bonus) && Sum(shares) == Sum(floors) + n
  {
    shares, bonus := floors, {};
    var i := 0;
    while i < remaining && i < |ranked|
      invariant 0 <= i <= |ranked| && (i == 0 || i <= remaining)
      invariant bonus == set k | 0 <= k < i :: ranked[k].idx
      invariant WithBonus(floors, shares, bonus)
      invariant Sum(shares) == Sum(floors) + i
    {
      var winner := ranked[i].idx;
      assert winner !in bonus;
      SumUpdate(shares, winner, shares[winner] + 1);
      shares := shares[winner := shares[winner] + 1];
      bonus := bonus + {winner};
      i := i + 1;
    }
    n := i;
  }

  method LargestRemainder(weights: seq<real>, total: real, budget: int)
    returns (shares: seq<int>, ghost bonus: set<nat>)
    requires total > 0.0
    ensures RoundedQuotas(weights, total, budget, shares, bonus)
    ensures LargestPartsWin(weights, total, budget, bonus)
    ensures (forall i | 0 <= i < |weights| :: weights[i] >= 0.0) && total == SumReal(weights) && budget >= 0 ==>
              QuotaRule(weights, total, budget, shares)
  {
    var floors, fracs, assignedBytes := CutShares(weights, total, budget);
    var remaining := budget - assignedBytes;
    var ranked := Rank(fracs);
    RankedAreParts(weights, total, budget, fracs);
    ghost var n;
    shares, n, bonus := AddBonus(floors, ranked, remaining);
    BonusLargest(weights, total, budget, ranked, n, bonus);
    if (forall k | 0 <= k < |weights| :: weights[k] >= 0.0) && total == SumReal(weights) && budget >= 0 {
      Rounding(weights, total, budget, floors, fracs, ranked, n, shares, bonus);
    }
  }

  ghost predicate PartsOf(weights: seq<real>, total: real, budget: int, fracs: seq<Frac>)
    requires total != 0.0
  {
    && |fracs| == |weights|
    && forall k | 0 <= k < |fracs| :: fracs[k] == PartOf(weights, total, budget, k)
  }

  /** A ranking of the parts names every index exactly once. */
  ghost predicate RankingOf(weights: seq<real>, total: real, budget: int, ranked: seq<Frac>)
    requires total != 0.0
  {
    && |ranked| == |weights| && Ranked(ranked)
    && (forall k | 0 <= k < |ranked| ::
          ranked[k].idx < |weights| && ranked[k] == PartOf(weights, total, budget, ranked[k].idx))
    && (forall k, l | 0 <= k < l < |ranked| :: ranked[k].idx != ranked[l].idx)
    && (forall i: nat | i < |weights| :: PartOf(weights, total, budget, i) in ranked)
  }

  lemma RankedAreParts(weights: seq<real>, total: real, budget: int, fracs: seq<Frac>)
    requires total != 0.0 && PartsOf(weights, total, budget, fracs)
    ensures RankingOf(weights, total, budget, Rank(fracs))
    ensures SumParts(Rank(fracs)) == SumParts(fracs)
  {
    RankRanked(fracs);
    var ranked := Rank(fracs);
    forall k | 0 <= k < |ranked|
      ensures ranked[k].idx < |weights| && ranked[k] == PartOf(weights, total, budget, ranked[k].idx)
    {
      assert ranked[k] in fracs;
    }
    forall k, l | 0 <= k < l < |ranked|
      ensures ranked[k].idx != ranked[l].idx
    {
      assert Precedes(ranked[k], ranked[l]);
    }
    forall i: nat | i < |weights|
      ensures PartOf(weights, total, budget, i) in ranked
    {
      assert fracs[i] in fracs;
    }
  }

  lemma BonusLargest(weights: seq<real>, total: real, budget: int, ranked: seq<Frac>, n: nat, bonus: set<nat>)
    requires total != 0.0 && RankingOf(weights, total, budget, ranked) && n <= |ranked|
    requires bonus == set k | 0 <= k < n :: ranked[k].idx
    ensures LargestPartsWin(weights, total, budget, bonus)
  {
    forall i: nat, j: nat | i < |weights| && j < |weights| && i in bonus && j !in bonus
      ensures Precedes(PartOf(weights, total, budget, i), PartOf(weights, total, budget, j))
    {
      var k :| 0 <= k < n && ranked[k].idx == i;
      var l :| 0 <= l < |ranked| && ranked[l] == PartOf(weights, total, budget, j);
      assert l >= n;
    }
  }

  lemma NonNegativeQuota(w: real, total: real, budget: int)
    requires total > 0.0 && w >= 0.0 && budget >= 0
    ensures Quota(w, total, budget) >= 0.0
  {
    assert w / total >= 0.0;
  }

  lemma QuotasSumToBudget(weights: seq<real>, total: real, budget: int, quotas: seq<real>)
    requires total > 0.0 && total == SumReal(weights) && |quotas| == |weights|
    requires forall i | 0 <= i < |weights| :: quotas[i] == Quota(weights[i], total, budget)
    ensures SumReal(quotas) == budget as real
  {
    QuotasSum(weights, total, budget, quotas);
    var b := budget as real;
    assert total * (b / total) == b;
  }

  ghost function Quotas(weights: seq<real>, total: real, budget: int): (quotas: seq<real>)
    requires total != 0.0
    ensures |quotas| == |weights| && forall i | 0 <= i < |weights| :: quotas[i] == Quota(weights[i], total, budget)
  {
    seq(|weights|, k requires 0 <= k < |weights| => Quota(weights[k], total, budget))
  }

  /** When the weights sum to the total, the parts sum to what the floors left over. */
  lemma PartsLeftOver(weights: seq<real>, total: real, budget: int, floors: seq<int>, fracs: seq<Frac>)
    requires total > 0.0 && total == SumReal(weights)
    requires |floors| == |weights| && forall k | 0 <= k < |floors| ::
             floors[k] == Trunc(Quota(weights[k], total, budget))
    requires PartsOf(weights, total, budget, fracs)
    ensures SumParts(fracs) == (budget - Sum(floors)) as real
  {
    var quotas := Quotas(weights, total, budget);
    QuotasSumToBudget(weights, total, budget, quotas);
    PartsSum(quotas, floors, fracs);
  }

  /** Non-negative weights that sum to the total: everything is handed out, nobody is off by a byte. */
  lemma Rounding(weights: seq<real>, total: real, budget: int, floors: seq<int>, fracs: seq<Frac>, ranked: seq<Frac>,
                 n: nat, shares: seq<int>, bonus: set<nat>)
    requires total > 0.0 && total == SumReal(weights) && budget >= 0
    requires forall k | 0 <= k < |weights| :: weights[k] >= 0.0
    requires |floors| == |weights| && forall k | 0 <= k < |floors| ::
             floors[k] == Trunc(Quota(weights[k], total, budget))
    requires PartsOf(weights, total, budget, fracs)
    requires RankingOf(weights, total, budget, ranked) && SumParts(ranked) == SumParts(fracs)
    requires n <= |ranked| && (n >= budget - Sum(floors) || n == |ranked|)
    requires n == 0 || n <= budget - Sum(floors)
    requires bonus == set k | 0 <= k < n :: ranked[k].idx
    requires WithBonus(floors, shares, bonus)
    requires Sum(shares) == Sum(floors) + n
    ensures QuotaRule(weights, total, budget, shares)
  {
    forall k: nat | k < |weights|
      ensures var q := Quota(weights[k], total, budget);
              q >= 0.0 && floors[k] == q.Floor && 0.0 <= PartOf(weights, total, budget, k).part < 1.0
    {
      NonNegativeQuota(weights[k], total, budget);
    }
    PartsLeftOver(weights, total, budget, floors, fracs);
    var remaining := budget - Sum(floors);
    assert forall k | 0 <= k < |ranked| :: 0.0 <= ranked[k].part < 1.0;
    PartsBound(ranked);
    assert n == remaining;
    forall i | 0 <= i < |shares|
      ensures var q := Quota(weights[i], total, budget);
              0.0 <= q && (shares[i] == q.Floor || (q != q.Floor as real && shares[i] == q.Floor + 1))
    {
      if i in bonus {
        var k :| 0 <= k < n && ranked[k].idx == i;
        WinnersPositive(ranked, remaining, k);
        assert ranked[k] == PartOf(weights, total, budget, i);
      }
    }
  }
}
