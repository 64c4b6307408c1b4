/** Counting and replacing substrings (`strings.Count`, `strings.Replace`), as an edit uses them. */
module Replacement {
  import opened Wrappers

  predicate OccursAt(s: string, sub: string, i: int) {
    0 <= i <= i + |sub| <= |s| && s[i..i + |sub|] == sub
  }

  /** The leftmost occurrence. */
  function IndexOf(s: string, sub: string): (r: Option<nat>)
    ensures r.Some? ==> OccursAt(s, sub, r.value)
  {
    if |sub| > |s| then None
    else if s[..|sub|] == sub then Some(0)
    else
      var rest := IndexOf(s[1..], sub);
      if rest.None? then None else
        assert s[1..][rest.value..rest.value + |sub|] == s[rest.value + 1..rest.value + 1 + |sub|];
        Some(rest.value + 1)
  }

  lemma {:induction false} IndexOfIsLeftmost(s: string, sub: string, i: nat)
    requires OccursAt(s, sub, i)
    ensures IndexOf(s, sub).Some? && IndexOf(s, sub).value <= i
  {
    if s[..|sub|] != sub {
      assert s[1..][i - 1..i - 1 + |sub|] == s[i..i + |sub|];
      IndexOfIsLeftmost(s[1..], sub, i - 1);
    }
  }

  /** The stretches between the occurrences, taken from the left without overlap. */
  function Split(s: string, sub: string): (parts: seq<string>)
    requires sub != ""
    ensures parts != []
    decreases |s|
  {
    var i := IndexOf(s, sub);
    if i.None? then [s] else [s[..i.value]] + Split(s[i.value + |sub|..], sub)
  }

  function Count(s: string, sub: string): nat
    requires sub != ""
  {
    |Split(s, sub)| - 1
  }

  function JoinWith(parts: seq<string>, sep: string): string {
    if parts == [] then "" else if |parts| == 1 then parts[0] else parts[0] + sep + JoinWith(parts[1..], sep)
  }

  /** The first `limit` occurrences replaced. */
  function Replace(s: string, sub: string, text: string, limit: nat): string
    requires sub != ""
    decreases |s|
  {
    var i := IndexOf(s, sub);
    if limit == 0 || i.None? then s
    else s[..i.value] + text + Replace(s[i.value + |sub|..], sub, text, limit - 1)
  }

  lemma {:induction false} SplitJoins(s: string, sub: string)
    requires sub != ""
    ensures JoinWith(Split(s, sub), sub) == s
    decreases |s|
  {
    var i := IndexOf(s, sub);
    if i.Some? {
      var rest := s[i.value + |sub|..];
      SplitJoins(rest, sub);
      assert ([s[..i.value]] + Split(rest, sub))[1..] == Split(rest, sub);
      assert s == s[..i.value] + s[i.value..i.value + |sub|] + rest;
    }
  }

  /** Replacing at least as many occurrences as there are exchanges exactly what is between the stretches. */
  lemma {:induction false} ReplaceAllJoins(s: string, sub: string, text: string, limit: nat)
    requires sub != "" && limit >= Count(s, sub)
    ensures Replace(s, sub, text, limit) == JoinWith(Split(s, sub), text)
    decreases |s|
  {
    var i := IndexOf(s, sub);
    if i.Some? {
      var rest := s[i.value + |sub|..];
      ReplaceAllJoins(rest, sub, text, limit - 1);
      assert ([s[..i.value]] + Split(rest, sub))[1..] == Split(rest, sub);
    }
  }

  /** What lies behind the leftmost occurrence is a text of its own. */
  lemma OccursBehind(s: string, sub: string, from: nat, k: int)
    requires from <= |s|
    ensures OccursAt(s[from..], sub, k) <==> k >= 0 && OccursAt(s, sub, from + k)
  {
    if 0 <= k <= k + |sub| <= |s| - from {
      assert s[from..][k..k + |sub|] == s[from + k..from + k + |sub|];
    }
  }

  /** Two occurrences that do not touch each other's text. */
  ghost predicate Apart(s: string, sub: string, i: int, j: int) {
    OccursAt(s, sub, i) && OccursAt(s, sub, j) && i + |sub| <= j
  }

  lemma CountStep(s: string, sub: string)
    requires sub != "" && IndexOf(s, sub).Some?
    ensures Count(s, sub) == 1 + Count(s[IndexOf(s, sub).value + |sub|..], sub)
  {
  }

  /** More than one is counted exactly when two occurrences lie apart. */
  lemma CountsManyIff(s: string, sub: string)
    requires sub != ""
    ensures Count(s, sub) > 1 <==> exists i, j :: Apart(s, sub, i, j)
  {
    var first := IndexOf(s, sub);
    if first.Some? {
      var from := first.value + |sub|;
      CountStep(s, sub);
      CountsNothingIff(s[from..], sub);
      if k :| OccursAt(s[from..], sub, k) {
        OccursBehind(s, sub, from, k);
        assert Apart(s, sub, first.value, from + k);
      }
      if i, j :| Apart(s, sub, i, j) {
        IndexOfIsLeftmost(s, sub, i);
        OccursBehind(s, sub, from, j - from);
      }
    } else if i, j :| Apart(s, sub, i, j) {
      IndexOfIsLeftmost(s, sub, i);
    }
  }

  /** No stretch contains an occurrence: all of them have been taken out. */
  lemma {:induction false} StretchesAreFree(s: string, sub: string)
    requires sub != ""
    ensures forall p <- Split(s, sub), i :: !OccursAt(p, sub, i)
    decreases |s|
  {
    var first := IndexOf(s, sub);
    if first.Some? {
      StretchesAreFree(s[first.value + |sub|..], sub);
      forall i
        ensures !OccursAt(s[..first.value], sub, i)
      {
        if OccursAt(s[..first.value], sub, i) {
          assert s[..first.value][i..i + |sub|] == s[i..i + |sub|];
          IndexOfIsLeftmost(s, sub, i);
        }
      }
    } else {
      forall i
        ensures !OccursAt(s, sub, i)
      {
        if OccursAt(s, sub, i) {
          IndexOfIsLeftmost(s, sub, i);
        }
      }
    }
  }

  ghost predicate LeftmostAt(s: string, sub: string, i: nat) {
    OccursAt(s, sub, i) && forall j | 0 <= j < i :: !OccursAt(s, sub, j)
  }

  lemma IndexOfIs(s: string, sub: string)
    requires IndexOf(s, sub).Some?
    ensures LeftmostAt(s, sub, IndexOf(s, sub).value)
  {
    forall j | 0 <= j < IndexOf(s, sub).value
      ensures !OccursAt(s, sub, j)
    {
      if OccursAt(s, sub, j) {
        IndexOfIsLeftmost(s, sub, j);
      }
    }
  }

  /** `after` is `before` with the occurrence at `i`, the leftmost, exchanged and nothing else. */
  ghost predicate ExchangesFirst(before: string, sub: string, text: string, i: nat, after: string) {
    LeftmostAt(before, sub, i) && after == before[..i] + text + before[i + |sub|..]
  }

  ghost predicate NowhereIn(s: string, sub: string) {
    forall i :: !OccursAt(s, sub, i)
  }

  /** `part` is what is in front of the leftmost occurrence, `rest` what is behind it. */
  ghost predicate CutsOff(s: string, sub: string, part: string, rest: string) {
    LeftmostAt(s, sub, |part|) && part == s[..|part|] && rest == s[|part| + |sub|..]
  }

  /** The text in front of the leftmost occurrence, then that in front of the leftmost behind it, and so on. */
  ghost predicate CutAtEach(s: string, sub: string, parts: seq<string>)
    decreases |parts|
  {
    if |parts| <= 1 then parts == [s] && NowhereIn(s, sub)
    else exists rest :: CutsOff(s, sub, parts[0], rest) && CutAtEach(rest, sub, parts[1..])
  }

  /** `after` is `before` with each of these occurrences exchanged and nothing else. */
  ghost predicate ExchangesAll(before: string, sub: string, text: string, after: string) {
    exists parts :: CutAtEach(before, sub, parts) && after == JoinWith(parts, text)
  }

  lemma CutOnceMore(s: string, sub: string, part: string, rest: string, parts: seq<string>)
    requires CutsOff(s, sub, part, rest) && CutAtEach(rest, sub, parts)
    ensures CutAtEach(s, sub, [part] + parts)
  {
    assert ([part] + parts)[1..] == parts;
  }

  lemma CutsOffFirst(s: string, sub: string, i: nat)
    requires IndexOf(s, sub) == Some(i)
    ensures CutsOff(s, sub, s[..i], s[i + |sub|..])
  {
    IndexOfIs(s, sub);
  }

  lemma {:induction false} SplitCuts(s: string, sub: string)
    requires sub != ""
    ensures CutAtEach(s, sub, Split(s, sub))
    decreases |s|
  {
    var first := IndexOf(s, sub);
    if first.None? {
      CountsNothingIff(s, sub);
    } else {
      var rest := s[first.value + |sub|..];
      CutsOffFirst(s, sub, first.value);
      SplitCuts(rest, sub);
      CutOnceMore(s, sub, s[..first.value], rest, Split(rest, sub));
    }
  }

  lemma ReplacesAll(s: string, sub: string, text: string)
    requires sub != ""
    ensures ExchangesAll(s, sub, text, JoinWith(Split(s, sub), text))
  {
    SplitCuts(s, sub);
  }

  lemma ReplacesTheOnlyOne(s: string, sub: string, text: string)
    requires sub != "" && Count(s, sub) == 1
    ensures exists i: nat :: ExchangesFirst(s, sub, text, i, JoinWith(Split(s, sub), text))
  {
    var i := IndexOf(s, sub).value;
    CountStep(s, sub);
    var rest := s[i + |sub|..];
    assert Split(rest, sub) == [rest];
    assert ([s[..i]] + [rest])[1..] == [rest];
    IndexOfIs(s, sub);
    assert ExchangesFirst(s, sub, text, i, JoinWith(Split(s, sub), text));
  }

  lemma CountsNothingIff(s: string, sub: string)
    requires sub != ""
    ensures Count(s, sub) == 0 <==> forall i :: !OccursAt(s, sub, i)
  {
    if i :| OccursAt(s, sub, i) {
      IndexOfIsLeftmost(s, sub, i);
    }
  }
}
