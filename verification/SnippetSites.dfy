/**
 Where query terms occur in a chunk (internal/db/snippet.go): located rune by rune after folding,
 leftmost first without overlap, then sorted in place by start.
 */
module SnippetSites {

  /** A query term; a noise term is a stopword or a single rune. */
  datatype Term = Term(text: string, noise: bool)

  datatype Site = Site(start: nat, end: nat, termIdx: nat, noise: bool)

  function FoldRunes(fold: char -> char, s: string): string {
    seq(|s|, i requires 0 <= i < |s| => fold(s[i]))
  }

  predicate MatchAt(haystack: string, needle: string, i: int) {
    0 <= i <= i + |needle| <= |haystack| && haystack[i..i + |needle|] == needle
  }

  // ----- Searching

  method MatchesHere(haystack: string, needle: string, i: nat) returns (found: bool)
    requires i + |needle| <= |haystack|
    ensures found <==> MatchAt(haystack, needle, i)
  {
    for j := 0 to |needle|
      invariant forall k | 0 <= k < j :: haystack[i + k] == needle[k]
    {
      if haystack[i + j] != needle[j] {
        assert haystack[i..i + |needle|][j] != needle[j];
        return false;
      }
    }
    return true;
  }

  /** The first occurrence at or after `from`, or -1. */
  method IndexRunes(haystack: string, needle: string, from: nat) returns (at: int)
    ensures at >= 0 ==>
              && from <= at && MatchAt(haystack, needle, at)
              && forall k | from <= k < at :: !MatchAt(haystack, needle, k)
    ensures at < 0 ==> forall k | from <= k :: !MatchAt(haystack, needle, k)
  {
    var i := from;
    while i + |needle| <= |haystack|
      invariant from <= i
      invariant forall k | from <= k < i :: !MatchAt(haystack, needle, k)
    {
      var found := MatchesHere(haystack, needle, i);
      if found {
        return i;
      }
      i := i + 1;
    }
    return -1;
  }

  /** The occurrences of one term from `from` on: the leftmost, then the leftmost after it, and so on. */
  function TermSites(haystack: string, needle: string, termIdx: nat, noise: bool, from: nat): seq<Site>
    requires needle != ""
    decreases |haystack| - from
  {
    if from + |needle| > |haystack| then []
    else if MatchAt(haystack, needle, from) then
      [Site(from, from + |needle|, termIdx, noise)] + TermSites(haystack, needle, termIdx, noise, from + |needle|)
    else TermSites(haystack, needle, termIdx, noise, from + 1)
  }

  lemma {:induction false} NothingBefore(haystack: string, needle: string, termIdx: nat, noise: bool, from: nat,
                                         at: nat)
    requires needle != "" && from <= at && forall k | from <= k < at :: !MatchAt(haystack, needle, k)
    ensures TermSites(haystack, needle, termIdx, noise, from) == TermSites(haystack, needle, termIdx, noise, at)
    decreases at - from
  {
    if from < at {
      if from + |needle| <= |haystack| {
        NothingBefore(haystack, needle, termIdx, noise, from + 1, at);
      }
    }
  }

  lemma NextSite(haystack: string, needle: string, termIdx: nat, noise: bool, from: nat, at: nat)
    requires needle != "" && from <= at && MatchAt(haystack, needle, at)
    requires forall k | from <= k < at :: !MatchAt(haystack, needle, k)
    ensures TermSites(haystack, needle, termIdx, noise, from)
            == [Site(at, at + |needle|, termIdx, noise)] + TermSites(haystack, needle, termIdx, noise, at + |needle|)
  {
    NothingBefore(haystack, needle, termIdx, noise, from, at);
  }

  lemma NoneLeft(haystack: string, needle: string, termIdx: nat, noise: bool, from: nat)
    requires needle != "" && forall k | from <= k :: !MatchAt(haystack, needle, k)
    ensures TermSites(haystack, needle, termIdx, noise, from) == []
  {
    var beyond := if from > |haystack| then from else |haystack|;
    NothingBefore(haystack, needle, termIdx, noise, from, beyond);
  }

  /** The located sites and those still to be found make up all of them. */
  ghost predicate Splits(sites: seq<Site>, haystack: string, needle: string, termIdx: nat, noise: bool, cursor: nat)
    requires needle != ""
  {
    sites + TermSites(haystack, needle, termIdx, noise, cursor) == TermSites(haystack, needle, termIdx, noise, 0)
  }

  lemma SplitsFurther(sites: seq<Site>, haystack: string, needle: string, termIdx: nat, noise: bool, cursor: nat,
                      at: nat)
    requires needle != "" && Splits(sites, haystack, needle, termIdx, noise, cursor)
    requires cursor <= at && MatchAt(haystack, needle, at)
             && forall k | cursor <= k < at :: !MatchAt(haystack, needle, k)
    ensures Splits(sites + [Site(at, at + |needle|, termIdx, noise)], haystack, needle, termIdx, noise, at + |needle|)
  {
    NextSite(haystack, needle, termIdx, noise, cursor, at);
    var site, rest := Site(at, at + |needle|, termIdx, noise),
        TermSites(haystack, needle, termIdx, noise, at + |needle|);
    assert sites + [site] + rest == sites + ([site] + rest);
  }

  lemma SplitsAtEnd(sites: seq<Site>, haystack: string, needle: string, termIdx: nat, noise: bool, cursor: nat)
    requires needle != "" && Splits(sites, haystack, needle, termIdx, noise, cursor)
    requires forall k | cursor <= k :: !MatchAt(haystack, needle, k)
    ensures sites == TermSites(haystack, needle, termIdx, noise, 0)
  {
    NoneLeft(haystack, needle, termIdx, noise, cursor);
  }

  method LocateTerm(haystack: string, needle: string, termIdx: nat, noise: bool) returns (sites: seq<Site>)
    requires needle != ""
    ensures sites == TermSites(haystack, needle, termIdx, noise, 0)
  {
    sites := [];
    var cursor := 0;
    while true
      invariant Splits(sites, haystack, needle, termIdx, noise, cursor)
      decreases |haystack| - cursor
    {
      var at := IndexRunes(haystack, needle, cursor);
      if at < 0 {
        SplitsAtEnd(sites, haystack, needle, termIdx, noise, cursor);
        break;
      }
      SplitsFurther(sites, haystack, needle, termIdx, noise, cursor, at);
      sites := sites + [Site(at, at + |needle|, termIdx, noise)];
      cursor := at + |needle|;
    }
  }

  /** All terms, in query order; a term that folds to nothing has no occurrences. */
  function AllSites(fold: char -> char, content: string, terms: seq<Term>): seq<Site> {
    if terms == [] then []
    else
      var n := |terms| - 1;
      var before := AllSites(fold, content, terms[..n]);
      if terms[n].text == "" then before
      else before + TermSites(FoldRunes(fold, content), FoldRunes(fold, terms[n].text), n, terms[n].noise, 0)
  }

  // ----- What the occurrences are

  /** Where the search for site `k` starts. */
  ghost function SearchFrom(sites: seq<Site>, from: nat, k: nat): nat
    requires k <= |sites|
  {
    if k == 0 then from else sites[k - 1].end
  }

  ghost predicate NoMatchIn(haystack: string, needle: string, lo: nat, hi: nat) {
    forall p | lo <= p < hi :: !MatchAt(haystack, needle, p)
  }

  ghost predicate LeftmostAt(haystack: string, needle: string, sites: seq<Site>, from: nat, k: nat)
    requires k < |sites|
  {
    && MatchAt(haystack, needle, sites[k].start) && sites[k].end == sites[k].start + |needle|
    && SearchFrom(sites, from, k) <= sites[k].start
    && NoMatchIn(haystack, needle, SearchFrom(sites, from, k), sites[k].start)
  }

  ghost predicate Leftmost(haystack: string, needle: string, sites: seq<Site>, from: nat) {
    && (forall k | 0 <= k < |sites| :: LeftmostAt(haystack, needle, sites, from, k))
    && NoMatchIn(haystack, needle, SearchFrom(sites, from, |sites|), |haystack| + 1)
  }

  lemma OneMore(haystack: string, needle: string, first: Site, rest: seq<Site>, from: nat)
    requires MatchAt(haystack, needle, from) && first.start == from && first.end == from + |needle|
    requires Leftmost(haystack, needle, rest, first.end)
    ensures Leftmost(haystack, needle, [first] + rest, from)
  {
    var sites := [first] + rest;
    forall k | 0 <= k < |sites|
      ensures LeftmostAt(haystack, needle, sites, from, k)
    {
      if k > 0 {
        assert LeftmostAt(haystack, needle, rest, first.end, k - 1);
        assert SearchFrom(sites, from, k) == SearchFrom(rest, first.end, k - 1);
      }
    }
    assert SearchFrom(sites, from, |sites|) == SearchFrom(rest, first.end, |rest|);
  }

  lemma StartLater(haystack: string, needle: string, sites: seq<Site>, from: nat)
    requires !MatchAt(haystack, needle, from) && Leftmost(haystack, needle, sites, from + 1)
    ensures Leftmost(haystack, needle, sites, from)
  {
    forall k | 0 <= k < |sites|
      ensures LeftmostAt(haystack, needle, sites, from, k)
    {
      assert LeftmostAt(haystack, needle, sites, from + 1, k);
    }
  }

  /** Each site is the leftmost occurrence after its predecessor, and after the last one there is none. */
  lemma {:induction false} SitesAreLeftmost(haystack: string, needle: string, termIdx: nat, noise: bool, from: nat)
    requires needle != ""
    ensures Leftmost(haystack, needle, TermSites(haystack, needle, termIdx, noise, from), from)
    ensures forall s <- TermSites(haystack, needle, termIdx, noise, from) :: s.termIdx == termIdx && s.noise == noise
    decreases |haystack| - from
  {
    if from + |needle| > |haystack| {
    } else if MatchAt(haystack, needle, from) {
      SitesAreLeftmost(haystack, needle, termIdx, noise, from + |needle|);
      OneMore(haystack, needle, Site(from, from + |needle|, termIdx, noise),
              TermSites(haystack, needle, termIdx, noise, from + |needle|), from);
    } else {
      SitesAreLeftmost(haystack, needle, termIdx, noise, from + 1);
      StartLater(haystack, needle, TermSites(haystack, needle, termIdx, noise, from + 1), from);
    }
  }

  /** A term occurs somewhere exactly when it has a site. */
  lemma OccursIffSited(haystack: string, needle: string, termIdx: nat, noise: bool)
    requires needle != ""
    ensures TermSites(haystack, needle, termIdx, noise, 0) == [] <==> forall p: nat :: !MatchAt(haystack, needle, p)
  {
    SitesAreLeftmost(haystack, needle, termIdx, noise, 0);
    var sites := TermSites(haystack, needle, termIdx, noise, 0);
    if sites != [] {
      assert LeftmostAt(haystack, needle, sites, 0, 0);
    }
  }

  ghost predicate Occurs(fold: char -> char, content: string, term: Term) {
    term.text != "" && exists p: nat :: MatchAt(FoldRunes(fold, content), FoldRunes(fold, term.text), p)
  }

  ghost predicate SomeTermOccurs(fold: char -> char, content: string, terms: seq<Term>) {
    exists t :: 0 <= t < |terms| && Occurs(fold, content, terms[t])
  }

  /** A site is a genuine place of the term it names. */
  ghost predicate Genuine(fold: char -> char, content: string, terms: seq<Term>, s: Site) {
    && s.termIdx < |terms| && s.noise == terms[s.termIdx].noise
    && s.start < s.end <= |content| && s.end == s.start + |terms[s.termIdx].text|
    && MatchAt(FoldRunes(fold, content), FoldRunes(fold, terms[s.termIdx].text), s.start)
  }

  lemma {:induction false} AllSitesAre(fold: char -> char, content: string, terms: seq<Term>)
    ensures forall s <- AllSites(fold, content, terms) :: Genuine(fold, content, terms, s)
    ensures AllSites(fold, content, terms) != [] <==> SomeTermOccurs(fold, content, terms)
  {
    if terms != [] {
      var n := |terms| - 1;
      AllSitesAre(fold, content, terms[..n]);
      var before, term := AllSites(fold, content, terms[..n]), terms[n];
      forall s <- before
        ensures Genuine(fold, content, terms, s)
      {
        assert Genuine(fold, content, terms[..n], s);
      }
      if term.text != "" {
        var haystack, needle := FoldRunes(fold, content), FoldRunes(fold, term.text);
        SitesAreLeftmost(haystack, needle, n, term.noise, 0);
        OccursIffSited(haystack, needle, n, term.noise);
        var sites := TermSites(haystack, needle, n, term.noise, 0);
        forall k | 0 <= k < |sites|
          ensures Genuine(fold, content, terms, sites[k])
        {
          assert LeftmostAt(haystack, needle, sites, 0, k);
        }
      }
      LastTermOccurs(fold, content, terms);
    }
  }

  /** The sites of one term, in the order in which they were found. */
  function OfTerm(sites: seq<Site>, t: nat): seq<Site> {
    if sites == [] then []
    else
      var before, last := OfTerm(sites[..|sites| - 1], t), sites[|sites| - 1];
      if last.termIdx == t then before + [last] else before
  }

  lemma {:induction false} OfTermConcat(a: seq<Site>, b: seq<Site>, t: nat)
    ensures OfTerm(a + b, t) == OfTerm(a, t) + OfTerm(b, t)
  {
    if b == [] {
      assert a + b == a;
    } else {
      var n := |b| - 1;
      assert (a + b)[..|a + b| - 1] == a + b[..n];
      OfTermConcat(a, b[..n], t);
    }
  }

  lemma {:induction false} OfOneTerm(sites: seq<Site>, t: nat, u: nat)
    requires forall s <- sites :: s.termIdx == t
    ensures OfTerm(sites, u) == if u == t then sites else []
  {
    if sites != [] {
      OfOneTerm(sites[..|sites| - 1], t, u);
    }
  }

  /** No term's occurrences are left out: all of its greedy leftmost ones are among all sites, and no others. */
  lemma {:induction false} AllSitesComplete(fold: char -> char, content: string, terms: seq<Term>, t: nat)
    ensures OfTerm(AllSites(fold, content, terms), t) ==
            if t < |terms| && terms[t].text != "" then
              TermSites(FoldRunes(fold, content), FoldRunes(fold, terms[t].text), t, terms[t].noise, 0)
            else []
  {
    if terms != [] {
      var n := |terms| - 1;
      AllSitesComplete(fold, content, terms[..n], t);
      if terms[n].text != "" {
        var haystack, needle := FoldRunes(fold, content), FoldRunes(fold, terms[n].text);
        var sites := TermSites(haystack, needle, n, terms[n].noise, 0);
        SitesAreLeftmost(haystack, needle, n, terms[n].noise, 0);
        OfTermConcat(AllSites(fold, content, terms[..n]), sites, t);
        OfOneTerm(sites, n, t);
      }
    }
  }

  /** A term that occurs has a site of its own among all sites. */
  lemma {:induction false} EachTermIsSited(fold: char -> char, content: string, terms: seq<Term>, t: nat)
    requires t < |terms| && Occurs(fold, content, terms[t])
    ensures exists s <- AllSites(fold, content, terms) :: s.termIdx == t
  {
    var n := |terms| - 1;
    var haystack, needle := FoldRunes(fold, content), FoldRunes(fold, terms[t].text);
    if t < n {
      EachTermIsSited(fold, content, terms[..n], t);
    } else {
      SitesAreLeftmost(haystack, needle, n, terms[n].noise, 0);
      OccursIffSited(haystack, needle, n, terms[n].noise);
      assert TermSites(haystack, needle, n, terms[n].noise, 0)[0] in AllSites(fold, content, terms);
    }
  }

  lemma LastTermOccurs(fold: char -> char, content: string, terms: seq<Term>)
    requires terms != []
    ensures var n := |terms| - 1;
            SomeTermOccurs(fold, content, terms)
            <==> SomeTermOccurs(fold, content, terms[..n]) || Occurs(fold, content, terms[n])
  {
    var n := |terms| - 1;
    if SomeTermOccurs(fold, content, terms[..n]) {
      var t :| 0 <= t < n && Occurs(fold, content, terms[..n][t]);
      assert terms[t] == terms[..n][t];
    }
    if SomeTermOccurs(fold, content, terms) {
      var t :| 0 <= t <= n && Occurs(fold, content, terms[t]);
      assert t == n || terms[..n][t] == terms[t];
    }
  }

  // ----- Sorting

  predicate After(a: Site, b: Site) {
    a.start > b.start || (a.start == b.start && a.termIdx > b.termIdx)
  }

  ghost predicate InOrder(sites: seq<Site>) {
    forall i, j | 0 <= i < j < |sites| ::
      sites[i].start < sites[j].start
      || (sites[i].start == sites[j].start && sites[i].termIdx <= sites[j].termIdx)
  }

  function Inserted(sites: seq<Site>, s: Site): seq<Site> {
    if sites == [] || !After(sites[|sites| - 1], s) then sites + [s]
    else Inserted(sites[..|sites| - 1], s) + [sites[|sites| - 1]]
  }

  function InsertionSorted(sites: seq<Site>): seq<Site> {
    if sites == [] then [] else Inserted(InsertionSorted(sites[..|sites| - 1]), sites[|sites| - 1])
  }

  lemma {:induction false} InsertedKeeps(sites: seq<Site>, s: Site)
    ensures multiset(Inserted(sites, s)) == multiset(sites) + multiset{s}
    ensures |Inserted(sites, s)| == |sites| + 1
  {
    if sites != [] && After(sites[|sites| - 1], s) {
      var n := |sites| - 1;
      InsertedKeeps(sites[..n], s);
      assert sites == sites[..n] + [sites[n]];
    }
  }

  lemma {:induction false} InsertedAre(sites: seq<Site>, s: Site)
    ensures forall x <- Inserted(sites, s) :: x == s || x in sites
  {
    if sites != [] && After(sites[|sites| - 1], s) {
      InsertedAre(sites[..|sites| - 1], s);
    }
  }

  lemma InOrderSnoc(sites: seq<Site>, last: Site)
    requires InOrder(sites) && forall x <- sites :: !After(x, last)
    ensures InOrder(sites + [last])
  {
    var all := sites + [last];
    forall i, j | 0 <= i < j < |all|
      ensures !After(all[i], all[j])
    {
      assert j < |sites| || all[i] in sites;
    }
  }

  lemma {:induction false} InsertedInOrder(sites: seq<Site>, s: Site)
    requires InOrder(sites)
    ensures InOrder(Inserted(sites, s))
  {
    if sites != [] {
      var rest, last := sites[..|sites| - 1], sites[|sites| - 1];
      assert forall x <- rest :: !After(x, last);
      if After(last, s) {
        InsertedInOrder(rest, s);
        InsertedAre(rest, s);
        InOrderSnoc(Inserted(rest, s), last);
      } else {
        InOrderSnoc(sites, s);
      }
    }
  }

  /** The sort returns the sites it was given, in order of start and then of term. */
  lemma {:induction false} SortKeeps(sites: seq<Site>)
    ensures multiset(InsertionSorted(sites)) == multiset(sites) && |InsertionSorted(sites)| == |sites|
    ensures InOrder(InsertionSorted(sites))
  {
    if sites != [] {
      var n := |sites| - 1;
      SortKeeps(sites[..n]);
      InsertedKeeps(InsertionSorted(sites[..n]), sites[n]);
      InsertedInOrder(InsertionSorted(sites[..n]), sites[n]);
      assert sites == sites[..n] + [sites[n]];
    }
  }

  /** What is inserted below a later site leaves it in place. */
  lemma {:induction false} InsertedBelow(sites: seq<Site>, s: Site, j: nat)
    requires j <= |sites| && forall k | j <= k < |sites| :: After(sites[k], s)
    ensures Inserted(sites, s) == Inserted(sites[..j], s) + sites[j..]
    decreases |sites|
  {
    var n := |sites| - 1;
    if j <= n {
      InsertedBelow(sites[..n], s, j);
      assert sites[..n][..j] == sites[..j] && sites[..n][j..] + [sites[n]] == sites[j..];
    } else {
      assert sites[..j] == sites;
    }
  }

  /** The site at `i` takes its place among those before it. */
  function MovedInto(sites: seq<Site>, i: nat): seq<Site>
    requires i < |sites|
  {
    Inserted(sites[..i], sites[i]) + sites[i + 1..]
  }

  /** Sites from `j` on have moved up by one to make room for the one at `i`. */
  lemma ShiftedIs(was: seq<Site>, now: seq<Site>, i: nat, j: nat)
    requires j <= i < |was| == |now| && now[j] == was[i]
    requires forall k | 0 <= k < j || i < k < |was| :: now[k] == was[k]
    requires forall k | j <= k < i :: now[k + 1] == was[k] && After(was[k], was[i])
    requires j > 0 ==> !After(was[j - 1], was[i])
    ensures now == MovedInto(was, i)
  {
    var prefix, cur := was[..i], was[i];
    InsertedBelow(prefix, cur, j);
    assert Inserted(prefix[..j], cur) == was[..j] + [cur];
    assert now == was[..j] + [cur] + prefix[j..] + was[i + 1..];
  }

  /** Half way: the sites between `j` and `i` have moved up by one, all others are where they were. */
  ghost predicate Shifting(was: seq<Site>, now: seq<Site>, i: nat, j: int, cur: Site) {
    && -1 <= j < i < |was| == |now|
    && (forall k | 0 <= k <= j || i < k < |was| :: now[k] == was[k])
    && forall k | j < k < i :: now[k + 1] == was[k] && After(was[k], cur)
  }

  lemma ShiftsOne(was: seq<Site>, now: seq<Site>, i: nat, j: int, cur: Site)
    requires Shifting(was, now, i, j, cur) && j >= 0 && After(now[j], cur)
    ensures Shifting(was, now[j + 1 := now[j]], i, j - 1, cur)
  {
  }

  method InsertInPlace(sites: array<Site>, i: nat)
    requires i < sites.Length
    modifies sites
    ensures sites[..] == MovedInto(old(sites[..]), i)
  {
    ghost var was := sites[..];
    var cur := sites[i];
    var j := i - 1;
    while j >= 0 && After(sites[j], cur)
      invariant Shifting(was, sites[..], i, j, cur)
    {
      ShiftsOne(was, sites[..], i, j, cur);
      ghost var now := sites[..];
      sites[j + 1] := sites[j];
      assert sites[..] == now[j + 1 := now[j]];
      j := j - 1;
    }
    ghost var now := sites[..];
    sites[j + 1] := cur;
    assert sites[..] == now[j + 1 := cur];
    ShiftedIs(was, sites[..], i, j + 1);
  }

  ghost predicate SortedUpTo(was: seq<Site>, now: seq<Site>, i: nat) {
    i <= |was| == |now| && now == InsertionSorted(was[..i]) + was[i..]
  }

  lemma SortedFurther(was: seq<Site>, now: seq<Site>, i: nat)
    requires SortedUpTo(was, now, i) && i < |was|
    ensures SortedUpTo(was, MovedInto(now, i), i + 1)
  {
    SortedLength(was[..i]);
    FirstOfRest(InsertionSorted(was[..i]), was[i..]);
    SortedLength(was[..i + 1]);
    SortsOneMore(was, i);
    assert was[i..][1..] == was[i + 1..];
  }

  lemma SortedLength(sites: seq<Site>)
    ensures |InsertionSorted(sites)| == |sites|
  {
    SortKeeps(sites);
  }

  lemma SortsOneMore(was: seq<Site>, i: nat)
    requires i < |was|
    ensures InsertionSorted(was[..i + 1]) == Inserted(InsertionSorted(was[..i]), was[i])
  {
    assert was[..i + 1][..i] == was[..i];
  }

  lemma FirstOfRest(sorted: seq<Site>, rest: seq<Site>)
    requires rest != []
    ensures MovedInto(sorted + rest, |sorted|) == Inserted(sorted, rest[0]) + rest[1..]
  {
    var now := sorted + rest;
    assert now[..|sorted|] == sorted && now[|sorted| + 1..] == rest[1..];
  }

  method SortSitesByStart(sites: array<Site>)
    modifies sites
    ensures sites[..] == InsertionSorted(old(sites[..]))
  {
    ghost var was := sites[..];
    if sites.Length == 0 {
      return;
    }
    assert was[..0] == [] && was[0..] == was && Inserted([], was[0]) == [was[0]];
    assert MovedInto(was, 0) == was by {
      assert was == [was[0]] + was[1..];
    }
    SortedFurther(was, was, 0);
    for i := 1 to sites.Length
      invariant SortedUpTo(was, sites[..], i)
    {
      SortedFurther(was, sites[..], i);
      InsertInPlace(sites, i);
    }
    assert was[..sites.Length] == was && was[sites.Length..] == [];
  }

  method LocateSites(fold: char -> char, content: string, terms: seq<Term>) returns (sites: seq<Site>)
    ensures sites == InsertionSorted(AllSites(fold, content, terms))
  {
    if |terms| == 0 {
      return [];
    }
    var folded := FoldRunes(fold, content);
    var found: seq<Site> := [];
    for ti := 0 to |terms|
      invariant found == AllSites(fold, content, terms[..ti])
    {
      assert terms[..ti + 1][..ti] == terms[..ti];
      var needle := FoldRunes(fold, terms[ti].text);
      if |needle| == 0 {
        continue;
      }
      var more := LocateTerm(folded, needle, ti, terms[ti].noise);
      found := found + more;
    }
    assert terms[..|terms|] == terms;
    var a := new Site[|found|](i requires 0 <= i < |found| => found[i]);
    assert a[..] == found;
    SortSitesByStart(a);
    return a[..];
  }

  /** What `LocateSites` returns: genuine places in order, every one of them, and none exactly when no term occurs. */
  lemma LocatedSites(fold: char -> char, content: string, terms: seq<Term>)
    ensures var sites := InsertionSorted(AllSites(fold, content, terms));
            && InOrder(sites)
            && multiset(sites) == multiset(AllSites(fold, content, terms))
            && (forall s <- sites :: Genuine(fold, content, terms, s))
            && (sites == [] <==> !SomeTermOccurs(fold, content, terms))
  {
    var all := AllSites(fold, content, terms);
    SortKeeps(all);
    AllSitesAre(fold, content, terms);
    forall s <- InsertionSorted(all)
      ensures s in all
    {
      assert s in multiset(InsertionSorted(all));
    }
  }
}
