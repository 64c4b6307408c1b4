/**
 The window that covers the most (internal/db/snippet.go): probes at site starts only, yet no window
 anywhere covers more distinct terms, or as many and more occurrences.
 */
module SnippetWindow {
  import opened FiniteSets
  import opened SnippetSites

  const BUDGET_RUNES := 400

  function Budget(n: nat): nat {
    if n < BUDGET_RUNES then n else BUDGET_RUNES
  }

  function Clamp(v: int, lo: int, hi: int): int {
    var top := if hi < lo then lo else hi;
    if v < lo then lo else if v > top then top else v
  }

  predicate Within(s: Site, from: int, to: int) {
    from <= s.start && s.end <= to
  }

  /** Sites by start, none of them empty, all of them inside the content. */
  ghost predicate WellPlaced(sites: seq<Site>, n: nat) {
    && (forall i, j | 0 <= i < j < |sites| :: sites[i].start <= sites[j].start)
    && forall s <- sites :: s.start < s.end <= n
  }

  function Covered(sites: seq<Site>, from: int, to: int): seq<Site> {
    if sites == [] then []
    else
      var before, last := Covered(sites[..|sites| - 1], from, to), sites[|sites| - 1];
      if Within(last, from, to) then before + [last] else before
  }

  lemma {:induction false} CoveredAre(sites: seq<Site>, from: int, to: int)
    ensures forall s :: s in Covered(sites, from, to) <==> s in sites && Within(s, from, to)
  {
    if sites != [] {
      CoveredAre(sites[..|sites| - 1], from, to);
      assert sites == sites[..|sites| - 1] + [sites[|sites| - 1]];
    }
  }

  // ----- Scores

  function Terms(sites: seq<Site>): set<nat> {
    set s | s in sites :: s.termIdx
  }

  datatype Score = Score(distinct: nat, total: nat)

  predicate Beats(a: Score, b: Score) {
    a.distinct > b.distinct || (a.distinct == b.distinct && a.total > b.total)
  }

  function ScoreAt(sites: seq<Site>, from: int, to: int): Score {
    var covered := Covered(sites, from, to);
    Score(|Terms(covered)|, |covered|)
  }

  /** A window that covers all another one covers is not beaten by it. */
  lemma CoveringMore(sites: seq<Site>, from: int, to: int, from': int, to': int)
    requires forall s <- sites | Within(s, from, to) :: Within(s, from', to')
    ensures !Beats(ScoreAt(sites, from, to), ScoreAt(sites, from', to'))
  {
    CoveredAre(sites, from, to);
    CoveredAre(sites, from', to');
    MoreCovered(sites, from, to, from', to');
    SubsetIsNoLarger(Terms(Covered(sites, from, to)), Terms(Covered(sites, from', to')));
  }

  lemma {:induction false} MoreCovered(sites: seq<Site>, from: int, to: int, from': int, to': int)
    requires forall s <- sites | Within(s, from, to) :: Within(s, from', to')
    ensures |Covered(sites, from, to)| <= |Covered(sites, from', to')|
  {
    if sites != [] {
      MoreCovered(sites[..|sites| - 1], from, to, from', to');
    }
  }

  lemma {:induction false} NoneLater(sites: seq<Site>, from: int, to: int, i: nat)
    requires i <= |sites| && forall s <- sites[i..] :: !Within(s, from, to)
    ensures Covered(sites, from, to) == Covered(sites[..i], from, to)
  {
    if i < |sites| {
      var n := |sites| - 1;
      assert sites[n] == sites[i..][n - i] && sites[..n][i..] == sites[i..][..n - i] && sites[..n][..i] == sites[..i];
      NoneLater(sites[..n], from, to, i);
    } else {
      assert sites[..i] == sites;
    }
  }

  /** Once a site starts at or after the end, no later one can be covered. */
  lemma StopsEarly(sites: seq<Site>, n: nat, from: int, to: int, i: nat)
    requires WellPlaced(sites, n) && i < |sites| && sites[i].start >= to
    ensures Covered(sites, from, to) == Covered(sites[..i], from, to)
  {
    forall s <- sites[i..]
      ensures !Within(s, from, to)
    {
      var j :| 0 <= j < |sites[i..]| && sites[i..][j] == s;
      assert sites[i + j] == s;
    }
    NoneLater(sites, from, to, i);
  }

  /** The scan that stops early counts like a full one. */
  method CountInWindow(sites: seq<Site>, ghost n: nat, from: int, to: int) returns (distinct: nat, total: nat)
    requires WellPlaced(sites, n)
    ensures Score(distinct, total) == ScoreAt(sites, from, to)
  {
    var seen: set<nat> := {};
    distinct, total := 0, 0;
    assert sites[..|sites|] == sites;
    for i := 0 to |sites|
      invariant Counted(sites[..i], from, to, seen, distinct, total)
    {
      var s := sites[i];
      if s.start >= to {
        StopsEarly(sites, n, from, to, i);
        break;
      }
      CountsOne(sites, i, from, to, seen, distinct, total);
      if s.start < from || s.end > to {
        continue;
      }
      total := total + 1;
      if s.termIdx !in seen {
        seen := seen + {s.termIdx};
        distinct := distinct + 1;
      }
    }
  }

  ghost predicate Counted(sites: seq<Site>, from: int, to: int, seen: set<nat>, distinct: nat, total: nat) {
    seen == Terms(Covered(sites, from, to)) && distinct == |seen| && total == |Covered(sites, from, to)|
  }

  lemma CountsOne(sites: seq<Site>, i: nat, from: int, to: int, seen: set<nat>, distinct: nat, total: nat)
    requires i < |sites| && Counted(sites[..i], from, to, seen, distinct, total)
    ensures if !Within(sites[i], from, to) then Counted(sites[..i + 1], from, to, seen, distinct, total)
            else if sites[i].termIdx in seen then Counted(sites[..i + 1], from, to, seen, distinct, total + 1)
            else Counted(sites[..i + 1], from, to, seen + {sites[i].termIdx}, distinct + 1, total + 1)
  {
    assert sites[..i + 1][..i] == sites[..i];
    if Within(sites[i], from, to) {
      assert Terms(Covered(sites[..i], from, to) + [sites[i]]) == seen + {sites[i].termIdx};
    }
  }

  method SitesIn(sites: seq<Site>, ghost n: nat, from: int, to: int) returns (covered: seq<Site>)
    requires WellPlaced(sites, n)
    ensures covered == Covered(sites, from, to)
  {
    covered := [];
    assert sites[..|sites|] == sites;
    for i := 0 to |sites|
      invariant covered == Covered(sites[..i], from, to)
    {
      assert sites[..i + 1][..i] == sites[..i];
      if sites[i].start >= to {
        StopsEarly(sites, n, from, to, i);
        break;
      }
      if sites[i].start >= from && sites[i].end <= to {
        covered := covered + [sites[i]];
      }
    }
  }

  // ----- The search

  function Candidate(s: Site, n: nat): int {
    Clamp(s.start, 0, n - Budget(n))
  }

  function ScoreFrom(sites: seq<Site>, n: nat, from: int): Score {
    ScoreAt(sites, from, from + Budget(n))
  }

  datatype Probe = Probe(from: int, score: Score)

  function ProbeAt(sites: seq<Site>, n: nat, s: Site): Probe {
    Probe(Candidate(s, n), ScoreFrom(sites, n, Candidate(s, n)))
  }

  function Probes(sites: seq<Site>, n: nat): seq<Probe> {
    seq(|sites|, i requires 0 <= i < |sites| => ProbeAt(sites, n, sites[i]))
  }

  /** The first of the best. */
  function FirstBest(probes: seq<Probe>): Probe
    requires probes != []
  {
    var n := |probes| - 1;
    if n == 0 || Beats(probes[n].score, FirstBest(probes[..n]).score) then probes[n] else FirstBest(probes[..n])
  }

  lemma {:induction false} FirstBestIsBest(probes: seq<Probe>)
    requires probes != [] && forall i, j | 0 <= i < j < |probes| :: probes[i].from <= probes[j].from
    ensures FirstBest(probes) in probes
    ensures FirstBest(probes).from <= probes[|probes| - 1].from
    ensures forall p <- probes :: !Beats(p.score, FirstBest(probes).score)
    ensures forall p <- probes | p.from < FirstBest(probes).from :: Beats(FirstBest(probes).score, p.score)
  {
    var n := |probes| - 1;
    if n > 0 {
      FirstBestIsBest(probes[..n]);
      var before, first := FirstBest(probes[..n]), FirstBest(probes);
      forall i | 0 <= i <= n
        ensures !Beats(probes[i].score, first.score)
        ensures probes[i].from < first.from ==> Beats(first.score, probes[i].score)
      {
        if i < n {
          assert probes[i] in probes[..n];
          StaysBeaten(probes[i].score, before.score, first.score);
        }
      }
    }
  }

  lemma StaysBeaten(a: Score, before: Score, first: Score)
    requires !Beats(a, before) && (first == before || Beats(first, before))
    ensures !Beats(a, first)
    ensures Beats(before, a) || Beats(first, before) ==> Beats(first, a)
  {
  }

  /** Where a search that starts below every score stands after `i` probes. */
  ghost predicate BestSoFar(probes: seq<Probe>, i: nat, from: int, distinct: int, total: int)
    requires i <= |probes|
  {
    if i == 0 then from == 0 && distinct == -1 && total == -1
    else distinct >= 0 && total >= 0 && FirstBest(probes[..i]) == Probe(from, Score(distinct, total))
  }

  lemma NextProbe(probes: seq<Probe>, i: nat, from: int, distinct: int, total: int)
    requires i < |probes| && BestSoFar(probes, i, from, distinct, total)
    ensures var p := probes[i];
            if p.score.distinct > distinct || (p.score.distinct == distinct && p.score.total > total)
            then BestSoFar(probes, i + 1, p.from, p.score.distinct, p.score.total)
            else BestSoFar(probes, i + 1, from, distinct, total)
  {
    assert probes[..i + 1][..i] == probes[..i];
  }

  function Best(sites: seq<Site>, n: nat): Probe
    requires sites != []
  {
    FirstBest(Probes(sites, n))
  }

  lemma ProbesAreProbes(sites: seq<Site>, n: nat)
    requires sites != []
    ensures forall p <- Probes(sites, n) :: 0 <= p.from <= n - Budget(n) && p.score == ScoreFrom(sites, n, p.from)
    ensures forall j | 0 <= j < |sites| :: ProbeAt(sites, n, sites[j]) in Probes(sites, n)
  {
    var probes := Probes(sites, n);
    forall j | 0 <= j < |sites|
      ensures ProbeAt(sites, n, sites[j]) in probes
    {
      assert probes[j] == ProbeAt(sites, n, sites[j]);
    }
  }

  lemma BestIsProbe(sites: seq<Site>, n: nat)
    requires WellPlaced(sites, n) && sites != []
    ensures 0 <= Best(sites, n).from <= n - Budget(n)
    ensures Best(sites, n).score == ScoreFrom(sites, n, Best(sites, n).from)
  {
    FirstBestIsBest(Probes(sites, n));
    ProbesAreProbes(sites, n);
  }

  lemma BestIsBest(sites: seq<Site>, n: nat)
    requires WellPlaced(sites, n) && sites != []
    ensures forall j | 0 <= j < |sites| :: !Beats(ProbeAt(sites, n, sites[j]).score, Best(sites, n).score)
    ensures forall j | 0 <= j < |sites| && ProbeAt(sites, n, sites[j]).from < Best(sites, n).from ::
              Beats(Best(sites, n).score, ProbeAt(sites, n, sites[j]).score)
  {
    FirstBestIsBest(Probes(sites, n));
    ProbesAreProbes(sites, n);
  }

  /** Whatever a window covers, some probe covers too: slide it right to its first site, or to the end. */
  lemma ProbeCovers(sites: seq<Site>, n: nat, x: int, some: nat) returns (j: nat)
    requires WellPlaced(sites, n) && some < |sites| && Within(sites[some], x, x + Budget(n))
    ensures j <= some
    ensures var from := ProbeAt(sites, n, sites[j]).from;
            && from <= sites[some].start
            && forall s <- sites | Within(s, x, x + Budget(n)) :: Within(s, from, from + Budget(n))
  {
    j := 0;
    while !Within(sites[j], x, x + Budget(n))
      invariant j <= some && forall i | 0 <= i < j :: !Within(sites[i], x, x + Budget(n))
      decreases some - j
    {
      j := j + 1;
    }
  }

  /** The window from `x` covers fewer terms, or as many and no more occurrences. */
  ghost predicate NotBeaten(sites: seq<Site>, n: nat, x: int, from: int, to: int) {
    var there, here := Covered(sites, x, x + Budget(n)), Covered(sites, from, to);
    |Terms(there)| < |Terms(here)| || (|Terms(there)| == |Terms(here)| && |there| <= |here|)
  }

  /** No window of the budget's size, anywhere, beats this one. */
  ghost predicate Optimal(sites: seq<Site>, n: nat, from: int, to: int) {
    forall x: int :: NotBeaten(sites, n, x, from, to)
  }

  lemma CoveringNothing(sites: seq<Site>, from: int, to: int)
    requires forall s <- sites :: !Within(s, from, to)
    ensures ScoreAt(sites, from, to) == Score(0, 0)
  {
    CoveredAre(sites, from, to);
    assert |Covered(sites, from, to)| > 0 ==> Covered(sites, from, to)[0] in Covered(sites, from, to);
    assert Terms([]) == {};
  }

  /** What a window scores, some probe at or before its sites scores too. */
  lemma SomeProbeMatches(sites: seq<Site>, n: nat, x: int, some: nat) returns (j: nat)
    requires WellPlaced(sites, n) && some < |sites| && Within(sites[some], x, x + Budget(n))
    ensures j < |sites| && ProbeAt(sites, n, sites[j]).from <= sites[some].start
    ensures !Beats(ScoreFrom(sites, n, x), ProbeAt(sites, n, sites[j]).score)
  {
    j := ProbeCovers(sites, n, x, some);
    var from := Candidate(sites[j], n);
    CoveringMore(sites, x, x + Budget(n), from, from + Budget(n));
  }

  /** The probes are complete: no window anywhere beats the best of them. */
  lemma ProbesAreComplete(sites: seq<Site>, n: nat, x: int)
    requires WellPlaced(sites, n) && sites != []
    ensures !Beats(ScoreFrom(sites, n, x), Best(sites, n).score)
  {
    if some: nat :| some < |sites| && Within(sites[some], x, x + Budget(n)) {
      var j := SomeProbeMatches(sites, n, x, some);
      BestIsBest(sites, n);
    } else {
      CoveringNothing(sites, x, x + Budget(n));
    }
  }

  lemma BestIsOptimal(sites: seq<Site>, n: nat, best: int, upTo: int)
    requires WellPlaced(sites, n) && sites != []
    requires best == Best(sites, n).from && upTo == best + Budget(n)
    ensures Optimal(sites, n, best, upTo)
  {
    BestIsProbe(sites, n);
    forall x: int
      ensures NotBeaten(sites, n, x, best, upTo)
    {
      ProbesAreComplete(sites, n, x);
    }
  }

  /** A window that covers what an optimal one covers is optimal. */
  lemma StillOptimal(sites: seq<Site>, n: nat, best: int, upTo: int, from: int, to: int)
    requires Optimal(sites, n, best, upTo)
    requires forall s <- sites | Within(s, best, upTo) :: Within(s, from, to)
    ensures Optimal(sites, n, from, to)
  {
    CoveringMore(sites, best, upTo, from, to);
    forall x: int
      ensures NotBeaten(sites, n, x, from, to)
    {
      assert NotBeaten(sites, n, x, best, upTo);
    }
  }

  /** Among equally good windows the best probe is earliest: no other one starts covering before it. */
  lemma EarliestAmongBest(sites: seq<Site>, n: nat, x: int, some: nat)
    requires WellPlaced(sites, n) && some < |sites| && Within(sites[some], x, x + Budget(n))
    requires !Beats(Best(sites, n).score, ScoreFrom(sites, n, x))
    ensures Best(sites, n).from <= sites[some].start
  {
    var j := SomeProbeMatches(sites, n, x, some);
    BestIsBest(sites, n);
  }

  // ----- Re-centring

  /** The extent of the sites inside a window: where the first starts and the last ends. */
  ghost predicate Spans(sites: seq<Site>, from: int, to: int, lo: int, hi: int) {
    && (exists s <- sites :: Within(s, from, to) && s.start == lo)
    && (exists s <- sites :: Within(s, from, to) && s.end == hi)
    && forall s <- sites | Within(s, from, to) :: lo <= s.start && s.end <= hi
  }

  ghost predicate Bounds(sites: seq<Site>, from: int, to: int, lo: int, hi: int) {
    if forall s <- sites :: !Within(s, from, to) then lo == -1 && hi == -1 else Spans(sites, from, to, lo, hi)
  }

  method AnchorBounds(anchors: seq<Site>, from: int, to: int) returns (lo: int, hi: int)
    requires forall s <- anchors :: s.start < s.end
    ensures Bounds(anchors, from, to, lo, hi)
  {
    lo, hi := -1, -1;
    assert anchors[..|anchors|] == anchors;
    for i := 0 to |anchors|
      invariant Bounds(anchors[..i], from, to, lo, hi)
    {
      var a := anchors[i];
      assert anchors[..i + 1] == anchors[..i] + [a];
      Extends(anchors[..i], a, from, to, lo, hi);
      if a.start < from || a.end > to {
        continue;
      }
      if lo == -1 || a.start < lo {
        lo := a.start;
      }
      if hi == -1 || a.end > hi {
        hi := a.end;
      }
    }
  }

  lemma Extends(before: seq<Site>, a: Site, from: int, to: int, lo: int, hi: int)
    requires Bounds(before, from, to, lo, hi)
    requires a.start < a.end && forall s <- before :: s.start < s.end
    ensures if !Within(a, from, to) then Bounds(before + [a], from, to, lo, hi)
            else Bounds(before + [a], from, to, if lo == -1 || a.start < lo then a.start else lo,
                        if hi == -1 || a.end > hi then a.end else hi)
  {
    var after := before + [a];
    assert a in after && forall s <- before :: s in after;
    if !forall s <- before :: !Within(s, from, to) {
      var s :| s in before && Within(s, from, to) && s.start == lo;
      var e :| e in before && Within(e, from, to) && e.end == hi;
      assert s in after && e in after;
    }
  }

  /**
   The window [from, to) has as much room in front of the extent [lo, hi) as behind it, or one rune less;
   only where the content ends does one side get less, and then the other side gets the rest.
   */
  predicate Balanced(lo: int, hi: int, n: nat, from: int, to: int) {
    && from <= lo && hi <= to
    && (from > 0 ==> to - hi <= lo - from + 1)
    && (to < n ==> lo - from <= to - hi)
  }

  /** There is only one such window of a given size inside the content. */
  lemma BalancedOnce(lo: int, hi: int, n: nat, from: int, from': int, size: int)
    requires 0 <= from <= n - size && 0 <= from' <= n - size
    requires Balanced(lo, hi, n, from, from + size) && Balanced(lo, hi, n, from', from' + size)
    ensures from == from'
  {
  }

  ghost predicate CentresOn(covered: seq<Site>, n: nat, best: int, from: int, lo: int, hi: int) {
    && Bounds(covered, best, best + Budget(n), lo, hi)
    && if lo < 0 then from == best else Balanced(lo, hi, n, from, from + Budget(n))
  }

  /** The result: the best probe's coverage kept, with the slack split around it. */
  ghost predicate Recentres(covered: seq<Site>, n: nat, best: int, from: int) {
    && (exists lo, hi :: CentresOn(covered, n, best, from, lo, hi))
    && forall s <- covered :: Within(s, from, from + Budget(n))
  }

  /** What fits a window still fits once the slack is split around it. */
  lemma Recentred(covered: seq<Site>, n: nat, best: int, lo: int, hi: int)
    requires 0 <= best <= n - Budget(n)
    requires Bounds(covered, best, best + Budget(n), lo, hi) && lo >= 0
    requires forall s <- covered :: Within(s, best, best + Budget(n)) && s.start < s.end
    ensures var from := Clamp(lo - (Budget(n) - (hi - lo)) / 2, 0, n - Budget(n));
            0 <= from <= n - Budget(n) && Recentres(covered, n, best, from)
  {
    var from := Clamp(lo - (Budget(n) - (hi - lo)) / 2, 0, n - Budget(n));
    ClampBalances(lo, hi, n, best);
    assert CentresOn(covered, n, best, from, lo, hi);
  }

  lemma ClampBalances(lo: int, hi: int, n: nat, best: int)
    requires 0 <= best <= lo < hi <= best + Budget(n) <= n
    ensures var from := Clamp(lo - (Budget(n) - (hi - lo)) / 2, 0, n - Budget(n));
            0 <= from <= n - Budget(n) && Balanced(lo, hi, n, from, from + Budget(n))
  {
  }

  /** The best probe; with nothing to cover, the leading window. */
  function BestStart(sites: seq<Site>, n: nat): int {
    if sites == [] then 0 else Best(sites, n).from
  }

  lemma ProbeIs(sites: seq<Site>, n: nat, i: nat, cand: int, distinct: nat, total: nat)
    requires i < |sites| && cand == Candidate(sites[i], n)
             && Score(distinct, total) == ScoreAt(sites, cand, cand + Budget(n))
    ensures Probes(sites, n)[i] == Probe(cand, Score(distinct, total))
  {
  }

  method TryProbe(sites: seq<Site>, n: nat, i: nat) returns (cand: int, distinct: nat, total: nat)
    requires WellPlaced(sites, n) && i < |sites|
    ensures Probes(sites, n)[i] == Probe(cand, Score(distinct, total))
  {
    var budget := if BUDGET_RUNES < n then BUDGET_RUNES else n;
    cand := Clamp(sites[i].start, 0, n - budget);
    distinct, total := CountInWindow(sites, n, cand, cand + budget);
    ProbeIs(sites, n, i, cand, distinct, total);
  }

  method FindBest(sites: seq<Site>, n: nat) returns (bestFrom: int)
    requires WellPlaced(sites, n)
    ensures bestFrom == BestStart(sites, n)
  {
    ghost var probes := Probes(sites, n);
    bestFrom := 0;
    var bestDistinct: int, bestTotal: int := -1, -1;
    for i := 0 to |sites|
      invariant BestSoFar(probes, i, bestFrom, bestDistinct, bestTotal)
    {
      var cand, distinct, total := TryProbe(sites, n, i);
      NextProbe(probes, i, bestFrom, bestDistinct, bestTotal);
      if distinct > bestDistinct || (distinct == bestDistinct && total > bestTotal) {
        bestDistinct, bestTotal, bestFrom := distinct, total, cand;
      }
    }
    assert probes[..|sites|] == probes;
  }

  /** The window that the earliest best probe leads to, centred on what that probe covers. */
  ghost predicate IsBestWindow(sites: seq<Site>, n: nat, from: int) {
    var best := BestStart(sites, n);
    Recentres(Covered(sites, best, best + Budget(n)), n, best, from)
  }

  method DensestWindow(sites: seq<Site>, n: nat) returns (from: int, to: int)
    requires WellPlaced(sites, n)
    ensures 0 <= from && to == from + Budget(n) <= n
    ensures IsBestWindow(sites, n, from)
    ensures sites != [] ==> Optimal(sites, n, from, to)
  {
    var bestFrom := FindBest(sites, n);
    from := RecentreOn(sites, n, bestFrom);
    to := from + Budget(n);
    BestWindowIsOptimal(sites, n, from);
  }

  /** Splits the slack around what the best probe covers. */
  method RecentreOn(sites: seq<Site>, n: nat, best: int) returns (from: int)
    requires WellPlaced(sites, n) && best == BestStart(sites, n)
    ensures 0 <= from <= n - Budget(n) && IsBestWindow(sites, n, from)
  {
    BestInRange(sites, n);
    var anchors := SitesIn(sites, n, best, best + Budget(n));
    AreProper(sites, n, best, best + Budget(n));
    from := RecentreAround(anchors, n, best);
  }

  lemma BestWindowIsOptimal(sites: seq<Site>, n: nat, from: int)
    requires WellPlaced(sites, n) && IsBestWindow(sites, n, from)
    ensures sites != [] ==> Optimal(sites, n, from, from + Budget(n))
  {
    if sites != [] {
      RecentredOptimal(sites, n, BestStart(sites, n), from, from + Budget(n));
    }
  }

  lemma BestInRange(sites: seq<Site>, n: nat)
    requires WellPlaced(sites, n)
    ensures 0 <= BestStart(sites, n) <= n - Budget(n)
  {
    if sites != [] {
      BestIsProbe(sites, n);
    }
  }

  method RecentreAround(anchors: seq<Site>, n: nat, best: int) returns (from: int)
    requires 0 <= best <= n - Budget(n)
    requires forall s <- anchors :: Within(s, best, best + Budget(n)) && s.start < s.end
    ensures 0 <= from <= n - Budget(n) && Recentres(anchors, n, best, from)
  {
    var budget := Budget(n);
    var spanLo, spanHi := AnchorBounds(anchors, best, best + budget);
    if spanLo < 0 {
      assert CentresOn(anchors, n, best, best, spanLo, spanHi);
      return best;
    }
    var slack := budget - (spanHi - spanLo);
    from := Clamp(spanLo - slack / 2, 0, n - budget);
    Recentred(anchors, n, best, spanLo, spanHi);
  }

  lemma AreProper(sites: seq<Site>, n: nat, from: int, to: int)
    requires WellPlaced(sites, n)
    ensures forall s <- Covered(sites, from, to) :: Within(s, from, to) && s.start < s.end
  {
    CoveredAre(sites, from, to);
  }

  lemma RecentredOptimal(sites: seq<Site>, n: nat, best: int, from: int, to: int)
    requires to == from + Budget(n)
    requires WellPlaced(sites, n) && sites != [] && best == Best(sites, n).from
    requires Recentres(Covered(sites, best, best + Budget(n)), n, best, from)
    ensures Optimal(sites, n, from, to)
  {
    BestIsOptimal(sites, n, best, best + Budget(n));
    RecentredCovers(sites, n, best, from);
    StillOptimal(sites, n, best, best + Budget(n), from, to);
  }

  lemma RecentredCovers(sites: seq<Site>, n: nat, best: int, from: int)
    requires Recentres(Covered(sites, best, best + Budget(n)), n, best, from)
    ensures forall s <- sites | Within(s, best, best + Budget(n)) :: Within(s, from, from + Budget(n))
  {
    CoveredAre(sites, best, best + Budget(n));
  }
}
