/**
 Excerpts (internal/db/snippet.go): the best window is trimmed inward to lines or sentences without
 losing what it covers.
 */
module Snippet {
  import opened SnippetSites
  import opened SnippetWindow

  // ----- Whole lines

  predicate LineStart(runes: string, p: nat)
    requires p <= |runes|
  {
    p == 0 || runes[p - 1] == '\n'
  }

  /** A stretch of whole lines. */
  predicate Aligned(runes: string, from: nat, to: nat, p: int, q: int)
    requires to <= |runes|
  {
    from <= p < q <= to && LineStart(runes, p) && runes[q - 1] == '\n'
  }

  /** The longest stretch of whole lines, or the window itself. */
  ghost predicate SnapsToLines(runes: string, from: nat, to: nat, p: int, q: int)
    requires to <= |runes|
  {
    if exists x, y :: Aligned(runes, from, to, x, y)
    then Aligned(runes, from, to, p, q) && forall x, y | Aligned(runes, from, to, x, y) :: p <= x && y <= q
    else p == from && q == to
  }

  /** Keeps the longest stretch of whole lines; everything, if there is none. */
  method SnapLines(runes: string, from: nat, to: nat) returns (newFrom: nat, newTo: nat)
    requires from < to <= |runes|
    ensures from <= newFrom < newTo <= to
    ensures SnapsToLines(runes, from, to, newFrom, newTo)
  {
    newFrom := from;
    if newFrom > 0 && runes[newFrom - 1] != '\n' {
      while newFrom < to && runes[newFrom - 1] != '\n'
        invariant from <= newFrom <= to && newFrom > 0
        invariant forall p | from <= p < newFrom :: !LineStart(runes, p)
      {
        newFrom := newFrom + 1;
      }
    }
    newTo := to;
    while newTo > newFrom && runes[newTo - 1] != '\n'
      invariant newFrom <= newTo <= to
      invariant forall k | newTo <= k < to :: runes[k] != '\n'
    {
      newTo := newTo - 1;
    }
    if newFrom >= newTo {
      return from, to;
    }
    assert Aligned(runes, from, to, newFrom, newTo);
  }

  // ----- Sentences and words

  predicate IsTerminator(r: char) {
    r == '.' || r == '!' || r == '?' || r == '\n'
  }

  predicate StartsWord(runes: string, k: int)
    requires 0 < k < |runes|
  {
    runes[k - 1] == ' ' && runes[k] != ' '
  }

  predicate EndsWord(runes: string, k: int)
    requires 0 < k < |runes|
  {
    runes[k - 1] != ' ' && runes[k] == ' '
  }

  /** The first word that starts inside, or the hard edge. */
  predicate WordStart(runes: string, from: nat, to: nat, p: int)
    requires to <= |runes|
  {
    if forall k | from < k < to :: !StartsWord(runes, k) then p == from
    else from < p < to && StartsWord(runes, p) && forall k | from < k < p :: !StartsWord(runes, k)
  }

  predicate WordEnd(runes: string, from: nat, to: nat, q: int)
    requires to <= |runes|
  {
    if forall k | from < k < to :: !EndsWord(runes, k) then q == to
    else from < q < to && EndsWord(runes, q) && forall k | q < k < to :: !EndsWord(runes, k)
  }

  method WordStartForward(runes: string, from: nat, to: nat) returns (i: nat)
    requires from <= to <= |runes|
    ensures from <= i <= to && WordStart(runes, from, to, i)
  {
    i := from;
    while i < to && runes[i] != ' '
      invariant from <= i <= to
      invariant forall k | from <= k < i :: runes[k] != ' '
    {
      i := i + 1;
    }
    ghost var space := i;
    while i < to && runes[i] == ' '
      invariant from <= space <= i <= to
      invariant forall k | space <= k < i :: runes[k] == ' '
    {
      i := i + 1;
    }
    if i >= to {
      return from;
    }
    assert StartsWord(runes, i);
  }

  method WordEndBackward(runes: string, from: nat, to: nat) returns (i: nat)
    requires from <= to <= |runes|
    ensures from <= i <= to && WordEnd(runes, from, to, i)
  {
    i := to;
    while i > from && runes[i - 1] != ' '
      invariant from <= i <= to
      invariant forall k | i <= k < to :: runes[k] != ' '
    {
      i := i - 1;
    }
    ghost var space := i;
    while i > from && runes[i - 1] == ' '
      invariant from <= i <= space <= to
      invariant forall k | i <= k < space :: runes[k] == ' '
    {
      i := i - 1;
    }
    if i <= from {
      return to;
    }
    assert EndsWord(runes, i);
  }

  predicate NoTerminator(runes: string, from: nat, to: nat)
    requires to <= |runes|
  {
    forall k | from <= k < to :: !IsTerminator(runes[k])
  }

  /** Just behind the terminators and spaces at `t`. */
  predicate Behind(runes: string, t: nat, to: nat, p: int)
    requires to <= |runes|
  {
    && t < p <= to
    && (forall k | t <= k < p :: IsTerminator(runes[k]) || runes[k] == ' ')
    && (p < to ==> !IsTerminator(runes[p]) && runes[p] != ' ')
  }

  /** A clean sentence start: the edge itself, else behind the first terminator, else the first word. */
  predicate ProseStart(runes: string, from: nat, to: nat, p: int)
    requires from <= to <= |runes|
  {
    if from == 0 || IsTerminator(runes[from - 1]) then p == from
    else if NoTerminator(runes, from, to) then WordStart(runes, from, to, p)
    else exists t | from <= t < to :: IsTerminator(runes[t]) && NoTerminator(runes, from, t) && Behind(runes, t, to, p)
  }

  /** A clean sentence end: the content's end, else the last terminator, else the last word's end. */
  predicate ProseEnd(runes: string, from: nat, to: nat, q: int)
    requires from <= to <= |runes|
  {
    if to == |runes| then q == to
    else if NoTerminator(runes, from, to) then WordEnd(runes, from, to, q)
    else from < q <= to && IsTerminator(runes[q - 1]) && NoTerminator(runes, q, to)
  }

  method ProseFrom(runes: string, from: nat, to: nat) returns (newFrom: nat)
    requires from < to <= |runes|
    ensures from <= newFrom <= to && ProseStart(runes, from, to, newFrom)
  {
    if from == 0 || IsTerminator(runes[from - 1]) {
      return from;
    }
    var i := from;
    while i < to && !IsTerminator(runes[i])
      invariant from <= i <= to && NoTerminator(runes, from, i)
    {
      i := i + 1;
    }
    if i >= to {
      newFrom := WordStartForward(runes, from, to);
      return;
    }
    ghost var t := i;
    while i < to && (IsTerminator(runes[i]) || runes[i] == ' ')
      invariant t <= i <= to
      invariant i == t ==> IsTerminator(runes[i])
      invariant forall k | t <= k < i :: IsTerminator(runes[k]) || runes[k] == ' '
    {
      i := i + 1;
    }
    assert IsTerminator(runes[t]) && Behind(runes, t, to, i);
    return i;
  }

  method ProseTo(runes: string, newFrom: nat, to: nat) returns (newTo: nat)
    requires newFrom <= to <= |runes|
    ensures newFrom <= newTo <= to && ProseEnd(runes, newFrom, to, newTo)
  {
    if to == |runes| {
      return to;
    }
    var i := to;
    while i > newFrom && !IsTerminator(runes[i - 1])
      invariant newFrom <= i <= to && NoTerminator(runes, i, to)
    {
      i := i - 1;
    }
    if i > newFrom {
      return i;
    }
    newTo := WordEndBackward(runes, newFrom, to);
  }

  predicate SnapsTo(runes: string, from: nat, to: nat, p: int, q: int)
    requires from <= to <= |runes|
  {
    from <= p <= to && ProseStart(runes, from, to, p) && ProseEnd(runes, p, to, q)
  }

  /** Sentences or words at both ends, or the window itself if nothing would be left. */
  ghost predicate SnapsToProse(runes: string, from: nat, to: nat, p: int, q: int)
    requires from <= to <= |runes|
  {
    exists x, y :: SnapsTo(runes, from, to, x, y) && if x >= y then p == from && q == to else p == x && q == y
  }

  /** Both ends snapped on their own; back to the hard window if nothing would be left. */
  method SnapProse(runes: string, from: nat, to: nat) returns (newFrom: nat, newTo: nat)
    requires from < to <= |runes|
    ensures from <= newFrom < newTo <= to
    ensures SnapsToProse(runes, from, to, newFrom, newTo)
  {
    newFrom := ProseFrom(runes, from, to);
    newTo := ProseTo(runes, newFrom, to);
    assert SnapsTo(runes, from, to, newFrom, newTo);
    if newFrom >= newTo {
      return from, to;
    }
  }

  // ----- Snapping without losing an anchor

  ghost predicate Natural(runes: string, from: nat, to: nat, isCode: bool, p: int, q: int)
    requires from <= to <= |runes|
  {
    if isCode then SnapsToLines(runes, from, to, p, q) else SnapsToProse(runes, from, to, p, q)
  }

  /** Each end is the natural one, unless that would cut off a site the window contains: then it is the window's. */
  ghost predicate Trimmed(anchors: seq<Site>, from: int, to: int, p: int, q: int, a: int, b: int) {
    && a == (if exists s <- anchors :: Within(s, from, to) && s.start < p then from else p)
    && b == (if exists s <- anchors :: Within(s, from, to) && s.end > q then to else q)
  }

  ghost predicate TrimmedNaturally(runes: string, from: nat, to: nat, isCode: bool, anchors: seq<Site>, a: int, b: int)
    requires from <= to <= |runes|
  {
    exists p, q :: Natural(runes, from, to, isCode, p, q) && Trimmed(anchors, from, to, p, q, a, b)
  }

  lemma TrimsTo(anchors: seq<Site>, from: int, to: int, lo: int, hi: int, p: int, q: int)
    requires Bounds(anchors, from, to, lo, hi) && 0 <= from && forall s <- anchors :: s.start < s.end
    ensures Trimmed(anchors, from, to, p, q, if lo >= 0 && p > lo then from else p, if hi >= 0 && q < hi then to else q)
  {
  }

  /** Trims a window, but never past a site it contains. */
  method SnapWindow(runes: string, from: nat, to: nat, isCode: bool, anchors: seq<Site>)
    returns (newFrom: nat, newTo: nat)
    requires from < to <= |runes| && forall s <- anchors :: s.start < s.end
    ensures from <= newFrom < newTo <= to
    ensures forall s <- anchors | Within(s, from, to) :: Within(s, newFrom, newTo)
    ensures TrimmedNaturally(runes, from, to, isCode, anchors, newFrom, newTo)
  {
    var protectFrom, protectTo := AnchorBounds(anchors, from, to);
    if isCode {
      newFrom, newTo := SnapLines(runes, from, to);
    } else {
      newFrom, newTo := SnapProse(runes, from, to);
    }
    assert Natural(runes, from, to, isCode, newFrom, newTo);
    TrimsTo(anchors, from, to, protectFrom, protectTo, newFrom, newTo);
    if protectFrom >= 0 && newFrom > protectFrom {
      newFrom := from;
    }
    if protectTo >= 0 && newTo < protectTo {
      newTo := to;
    }
    if newFrom >= newTo {
      newFrom, newTo := from, to;
    }
  }

  // ----- Evidence

  function NotNoise(sites: seq<Site>): seq<Site> {
    if sites == [] then []
    else
      var before, last := NotNoise(sites[..|sites| - 1]), sites[|sites| - 1];
      if last.noise then before else before + [last]
  }

  /** Sites of noise terms count only when there are no others. */
  function Evidence(sites: seq<Site>): seq<Site> {
    if NotNoise(sites) == [] then sites else NotNoise(sites)
  }

  lemma {:induction false} NotNoiseAre(sites: seq<Site>)
    ensures forall s :: s in NotNoise(sites) <==> s in sites && !s.noise
  {
    if sites != [] {
      NotNoiseAre(sites[..|sites| - 1]);
      assert sites == sites[..|sites| - 1] + [sites[|sites| - 1]];
    }
  }

  lemma {:induction false} NotNoiseInOrder(sites: seq<Site>, n: nat)
    requires WellPlaced(sites, n)
    ensures WellPlaced(NotNoise(sites), n)
  {
    if sites != [] {
      var before, last := sites[..|sites| - 1], sites[|sites| - 1];
      NotNoiseInOrder(before, n);
      NotNoiseAre(before);
      assert forall s <- before :: s in sites && s.start <= last.start;
    }
  }

  method EvidenceSites(sites: seq<Site>) returns (evidence: seq<Site>)
    ensures evidence == Evidence(sites)
  {
    evidence := [];
    assert sites[..|sites|] == sites;
    for i := 0 to |sites|
      invariant evidence == NotNoise(sites[..i])
    {
      assert sites[..i + 1][..i] == sites[..i];
      if !sites[i].noise {
        evidence := evidence + [sites[i]];
      }
    }
    if |evidence| == 0 {
      return sites;
    }
  }

  // ----- The excerpt

  ghost function Located(fold: char -> char, content: string, terms: seq<Term>): seq<Site> {
    InsertionSorted(AllSites(fold, content, terms))
  }

  lemma LocatedIsWellPlaced(fold: char -> char, content: string, terms: seq<Term>)
    ensures WellPlaced(Located(fold, content, terms), |content|)
    ensures WellPlaced(Evidence(Located(fold, content, terms)), |content|)
    ensures Evidence(Located(fold, content, terms)) == [] <==> Located(fold, content, terms) == []
  {
    LocatedSites(fold, content, terms);
    var sites := Located(fold, content, terms);
    forall s <- sites
      ensures s.start < s.end <= |content|
    {
      assert Genuine(fold, content, terms, s);
    }
    forall i, j | 0 <= i < j < |sites|
      ensures sites[i].start <= sites[j].start
    {
      assert !After(sites[i], sites[j]);
    }
    NotNoiseInOrder(sites, |content|);
  }

  /** A contiguous, non-empty piece of at most the budget. */
  ghost predicate Excerpt(content: string, text: string, a: int, b: int) {
    0 <= a < b <= |content| && b - a <= BUDGET_RUNES && text == content[a..b]
  }

  /** The excerpt scores as well on the evidence as any window of the budget's size. */
  ghost predicate BestExcerpt(fold: char -> char, content: string, terms: seq<Term>, text: string, a: int, b: int) {
    Excerpt(content, text, a, b) && Optimal(Evidence(Located(fold, content, terms)), |content|, a, b)
  }

  /** The best window, trimmed to natural boundaries as far as its sites allow. */
  ghost predicate CutFromBudget(content: string, isCode: bool, anchors: seq<Site>, a: int, b: int) {
    exists from: nat :: IsBestWindow(anchors, |content|, from) && CutAt(content, isCode, anchors, from, a, b)
  }

  ghost predicate CutAt(content: string, isCode: bool, anchors: seq<Site>, from: nat, a: int, b: int) {
    from + BUDGET_RUNES <= |content| && TrimmedNaturally(content, from, from + BUDGET_RUNES, isCode, anchors, a, b)
  }

  /** The leading window, when nothing was located; else the best one for the evidence. Either is trimmed. */
  ghost predicate Extracted(fold: char -> char, content: string, isCode: bool, terms: seq<Term>, text: string,
                            fallback: bool, a: int, b: int) {
    if fallback then Excerpt(content, text, a, b) && CutAt(content, isCode, [], 0, a, b)
    else BestExcerpt(fold, content, terms, text, a, b)
         && CutFromBudget(content, isCode, Evidence(Located(fold, content, terms)), a, b)
  }

  /** Only the sites inside the window matter. */
  lemma SitesInside(content: string, from: nat, to: nat, isCode: bool, sites: seq<Site>, a: int, b: int)
    requires from <= to <= |content| && TrimmedNaturally(content, from, to, isCode, Covered(sites, from, to), a, b)
    ensures TrimmedNaturally(content, from, to, isCode, sites, a, b)
  {
    CoveredAre(sites, from, to);
    var covered := Covered(sites, from, to);
    var p, q :| Natural(content, from, to, isCode, p, q) && Trimmed(covered, from, to, p, q, a, b);
    assert Trimmed(sites, from, to, p, q, a, b);
  }

  method LeadingExcerpt(content: string, isCode: bool) returns (a: nat, b: nat)
    requires |content| > BUDGET_RUNES
    ensures a < b <= |content| && b - a <= BUDGET_RUNES && CutAt(content, isCode, [], 0, a, b)
  {
    a, b := SnapWindow(content, 0, BUDGET_RUNES, isCode, []);
  }

  method EvidentExcerpt(content: string, isCode: bool, anchors: seq<Site>) returns (a: nat, b: nat)
    requires |content| > BUDGET_RUNES && WellPlaced(anchors, |content|) && anchors != []
    ensures a < b <= |content| && b - a <= BUDGET_RUNES
    ensures Optimal(anchors, |content|, a, b) && CutFromBudget(content, isCode, anchors, a, b)
  {
    var from, to := DensestWindow(anchors, |content|);
    var covered := SitesIn(anchors, |content|, from, to);
    CoveredAre(anchors, from, to);
    a, b := SnapWindow(content, from, to, isCode, covered);
    TrimmedIsBest(content, isCode, anchors, from, a, b);
  }

  method ExtractSnippet(fold: char -> char, content: string, isCode: bool, terms: seq<Term>)
    returns (text: string, fallback: bool)
    ensures |content| <= BUDGET_RUNES ==> text == content && !fallback
    ensures fallback <==> |content| > BUDGET_RUNES && !SomeTermOccurs(fold, content, terms)
    ensures |content| > BUDGET_RUNES ==> exists a, b :: Extracted(fold, content, isCode, terms, text, fallback, a, b)
  {
    if |content| <= BUDGET_RUNES {
      return content, false;
    }
    LocatedSites(fold, content, terms);
    LocatedIsWellPlaced(fold, content, terms);
    var sites := LocateSites(fold, content, terms);
    if |sites| == 0 {
      var a, b := LeadingExcerpt(content, isCode);
      assert Extracted(fold, content, isCode, terms, content[a..b], true, a, b);
      return content[a..b], true;
    }
    var anchors := EvidenceSites(sites);
    var a, b := EvidentExcerpt(content, isCode, anchors);
    assert Extracted(fold, content, isCode, terms, content[a..b], false, a, b);
    return content[a..b], false;
  }

  lemma TrimmedIsBest(content: string, isCode: bool, anchors: seq<Site>, from: nat, a: int, b: int)
    requires from + BUDGET_RUNES <= |content| && Optimal(anchors, |content|, from, from + BUDGET_RUNES)
    requires IsBestWindow(anchors, |content|, from)
    requires var covered := Covered(anchors, from, from + BUDGET_RUNES);
             && (forall s <- covered :: Within(s, a, b))
             && TrimmedNaturally(content, from, from + BUDGET_RUNES, isCode, covered, a, b)
    ensures Optimal(anchors, |content|, a, b) && CutFromBudget(content, isCode, anchors, a, b)
  {
    CoveredAre(anchors, from, from + BUDGET_RUNES);
    StillOptimal(anchors, |content|, from, from + BUDGET_RUNES, a, b);
    SitesInside(content, from, from + BUDGET_RUNES, isCode, anchors, a, b);
    assert CutAt(content, isCode, anchors, from, a, b);
  }

  lemma ScoresWhatItCovers(sites: seq<Site>, from: int, to: int)
    ensures ScoreAt(sites, from, to).distinct > 0 <==> exists s <- sites :: Within(s, from, to)
  {
    CoveredAre(sites, from, to);
    var covered := Covered(sites, from, to);
    if s :| s in sites && Within(s, from, to) {
      assert s in covered && s.termIdx in Terms(covered);
    } else {
      CoveringNothing(sites, from, to);
    }
  }

  /** A window at least as good as any covers some site exactly when some site fits the budget. */
  lemma CoversSomeIffOneFits(sites: seq<Site>, n: nat, a: int, b: int)
    requires WellPlaced(sites, n) && n > BUDGET_RUNES && b - a <= BUDGET_RUNES && Optimal(sites, n, a, b)
    ensures (exists s <- sites :: Within(s, a, b)) <==> exists s <- sites :: s.end - s.start <= BUDGET_RUNES
  {
    ScoresWhatItCovers(sites, a, b);
    if s :| s in sites && s.end - s.start <= BUDGET_RUNES {
      assert Within(s, s.start, s.start + Budget(n));
      ScoresWhatItCovers(sites, s.start, s.start + Budget(n));
      assert NotBeaten(sites, n, s.start, a, b);
    }
  }

  // ----- When the excerpt shows evidence

  /** An occurring term counts as evidence unless it is noise and some other one is not. */
  ghost predicate CountsAsEvidence(fold: char -> char, content: string, terms: seq<Term>, t: nat) {
    && t < |terms| && Occurs(fold, content, terms[t])
    && (terms[t].noise ==> forall u | 0 <= u < |terms| && Occurs(fold, content, terms[u]) :: terms[u].noise)
  }

  ghost predicate ShownIn(fold: char -> char, content: string, term: Term, a: int, b: int) {
    exists p :: a <= p && p + |term.text| <= b && MatchAt(FoldRunes(fold, content), FoldRunes(fold, term.text), p)
  }

  ghost predicate ShowsEvidence(fold: char -> char, content: string, terms: seq<Term>, a: int, b: int) {
    exists t: nat :: CountsAsEvidence(fold, content, terms, t) && ShownIn(fold, content, terms[t], a, b)
  }

  lemma LocatedAre(fold: char -> char, content: string, terms: seq<Term>, s: Site)
    ensures s in Located(fold, content, terms) <==> s in AllSites(fold, content, terms)
  {
    SortKeeps(AllSites(fold, content, terms));
    assert s in multiset(Located(fold, content, terms)) <==> s in multiset(AllSites(fold, content, terms));
  }

  lemma GenuineOccurs(fold: char -> char, content: string, terms: seq<Term>, s: Site)
    requires s in Located(fold, content, terms)
    ensures Genuine(fold, content, terms, s) && Occurs(fold, content, terms[s.termIdx])
  {
    LocatedAre(fold, content, terms, s);
    AllSitesAre(fold, content, terms);
  }

  lemma OccurringIsLocated(fold: char -> char, content: string, terms: seq<Term>, t: nat) returns (s: Site)
    requires t < |terms| && Occurs(fold, content, terms[t])
    ensures s in Located(fold, content, terms) && s.termIdx == t && Genuine(fold, content, terms, s)
  {
    EachTermIsSited(fold, content, terms, t);
    s :| s in AllSites(fold, content, terms) && s.termIdx == t;
    LocatedAre(fold, content, terms, s);
    GenuineOccurs(fold, content, terms, s);
  }

  /** The sites that drive the window are exactly those of terms that count. */
  lemma EvidenceCounts(fold: char -> char, content: string, terms: seq<Term>, s: Site)
    requires s in Located(fold, content, terms)
    ensures s.termIdx < |terms|
    ensures s in Evidence(Located(fold, content, terms)) <==> CountsAsEvidence(fold, content, terms, s.termIdx)
  {
    var sites := Located(fold, content, terms);
    GenuineOccurs(fold, content, terms, s);
    NotNoiseAre(sites);
    if NotNoise(sites) == [] {
      forall u: nat | u < |terms| && Occurs(fold, content, terms[u])
        ensures terms[u].noise
      {
        var other := OccurringIsLocated(fold, content, terms, u);
      }
    } else {
      var other := NotNoise(sites)[0];
      assert other in NotNoise(sites);
      GenuineOccurs(fold, content, terms, other);
    }
  }

  lemma EvidenceIsLocated(sites: seq<Site>, s: Site)
    requires s in Evidence(sites)
    ensures s in sites
  {
    NotNoiseAre(sites);
  }

  /** The excerpt shows a term that counts exactly when some term that counts fits the budget. */
  lemma ShowsEvidenceIffItFits(fold: char -> char, content: string, terms: seq<Term>, text: string, a: int, b: int)
    requires |content| > BUDGET_RUNES && BestExcerpt(fold, content, terms, text, a, b)
    ensures ShowsEvidence(fold, content, terms, a, b)
            <==> exists t: nat :: CountsAsEvidence(fold, content, terms, t) && |terms[t].text| <= BUDGET_RUNES
  {
    var sites := Evidence(Located(fold, content, terms));
    LocatedIsWellPlaced(fold, content, terms);
    CoversSomeIffOneFits(sites, |content|, a, b);
    if t: nat :| CountsAsEvidence(fold, content, terms, t) && |terms[t].text| <= BUDGET_RUNES {
      var short := OccurringIsLocated(fold, content, terms, t);
      EvidenceCounts(fold, content, terms, short);
      assert short in sites;
      var s :| s in sites && Within(s, a, b);
      EvidenceIsLocated(Located(fold, content, terms), s);
      EvidenceCounts(fold, content, terms, s);
      GenuineOccurs(fold, content, terms, s);
      assert ShownIn(fold, content, terms[s.termIdx], a, b);
    }
  }

  const LONG_WORD := seq(BUDGET_RUNES + 1, _ => 'a')

  /** A word longer than the budget, searched for in itself: it occurs, and no excerpt can show it. */
  lemma LongTermIsNotShown(fold: char -> char, a: int, b: int)
    requires b - a <= BUDGET_RUNES
    ensures |LONG_WORD| > BUDGET_RUNES && CountsAsEvidence(fold, LONG_WORD, [Term(LONG_WORD, false)], 0)
    ensures !ShowsEvidence(fold, LONG_WORD, [Term(LONG_WORD, false)], a, b)
  {
    OccursInItself(fold, Term(LONG_WORD, false));
    forall t: nat | CountsAsEvidence(fold, LONG_WORD, [Term(LONG_WORD, false)], t)
      ensures !ShownIn(fold, LONG_WORD, [Term(LONG_WORD, false)][t], a, b)
    {
      assert t == 0;
    }
  }

  lemma OccursInItself(fold: char -> char, term: Term)
    requires term.text != ""
    ensures Occurs(fold, term.text, term)
  {
    var folded := FoldRunes(fold, term.text);
    assert folded[0..|folded|] == folded;
    assert MatchAt(folded, folded, 0);
  }
}
