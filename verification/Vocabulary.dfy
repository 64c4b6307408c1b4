/**
 The incremental vocabulary index (internal/ingest/service.go, internal/db/pg_vocabulary.go,
 pg_chunks.go, pg_sources.go): document frequencies maintained by decrement, delete, insert,
 increment and prune are those a recount would give.

 Tables are maps. How text becomes words is the text-search extension's business: a chunk's lexeme
 set is a parameter.
 */
module Vocabulary {
  import opened Wrappers

  datatype Chunk = Chunk(title: string, content: string, isCode: bool)

  type Lexemes = Chunk -> set<string>

  datatype SourceRow = SourceRow(session: nat, sourceLabel: string)

  datatype Entry = Entry(session: nat, word: string)

  /** Chunks are kept by source, in insertion order. */
  datatype Tables = Tables(
    sessions: map<nat, string>,
    sources: map<nat, SourceRow>,
    chunks: map<nat, seq<Chunk>>,
    vocabulary: map<Entry, int>,
    nextSource: nat)

  // ----- Counting from scratch

  /** How many of these chunks contain the word. */
  function Containing(lexemes: Lexemes, chunks: seq<Chunk>, word: string): nat {
    if chunks == [] then 0
    else Containing(lexemes, chunks[..|chunks| - 1], word) + if word in lexemes(chunks[|chunks| - 1]) then 1 else 0
  }

  function Words(lexemes: Lexemes, chunks: seq<Chunk>): set<string> {
    set c, w | c in chunks && w in lexemes(c) :: w
  }

  /** How many chunks of the session's first sources contain the word. */
  function DocFreq(lexemes: Lexemes, t: Tables, session: nat, word: string, upTo: nat): nat {
    if upTo == 0 then 0
    else
      var id := upTo - 1;
      DocFreq(lexemes, t, session, word, id)
      + if id in t.sources && t.sources[id].session == session && id in t.chunks
        then Containing(lexemes, t.chunks[id], word) else 0
  }

  function Value(t: Tables, session: nat, word: string): int {
    if Entry(session, word) in t.vocabulary then t.vocabulary[Entry(session, word)] else 0
  }

  ghost predicate ExactFor(lexemes: Lexemes, t: Tables, session: nat, word: string) {
    Value(t, session, word) == DocFreq(lexemes, t, session, word, t.nextSource)
  }

  ghost predicate Exact(lexemes: Lexemes, t: Tables) {
    forall session, word :: ExactFor(lexemes, t, session, word)
  }

  /** Sources belong to sessions, one row per label; chunks belong to sources. */
  ghost predicate Keyed(t: Tables) {
    && (forall id <- t.sources :: id < t.nextSource && t.sources[id].session in t.sessions)
    && t.chunks.Keys == t.sources.Keys
    && forall a <- t.sources, b <- t.sources | a != b :: t.sources[a] != t.sources[b]
  }

  /** In the middle of a transaction: exact, but the session may have rows for words that are gone. */
  ghost predicate Unpruned(lexemes: Lexemes, t: Tables, session: nat) {
    Keyed(t) && Exact(lexemes, t) && forall e <- t.vocabulary | e.session != session :: t.vocabulary[e] > 0
  }

  /** Only this session's rows may differ. */
  ghost predicate SameElsewhere(t: Tables, t': Tables, session: nat) {
    forall e: Entry | e.session != session ::
      (e in t'.vocabulary <==> e in t.vocabulary) && (e in t'.vocabulary ==> t'.vocabulary[e] == t.vocabulary[e])
  }

  /** The index is exact and has rows for occurring words only. */
  ghost predicate Indexed(lexemes: Lexemes, t: Tables) {
    Keyed(t) && Exact(lexemes, t) && forall e <- t.vocabulary :: t.vocabulary[e] > 0
  }

  // ----- What the statements do

  function Decremented(lexemes: Lexemes, t: Tables, src: nat): Tables
    requires src in t.sources && src in t.chunks
  {
    t.(vocabulary := map e | e in t.vocabulary ::
         if e.session == t.sources[src].session && e.word in Words(lexemes, t.chunks[src])
         then t.vocabulary[e] - Containing(lexemes, t.chunks[src], e.word) else t.vocabulary[e])
  }

  function Incremented(lexemes: Lexemes, t: Tables, src: nat): Tables
    requires src in t.sources && src in t.chunks
  {
    var session, words := t.sources[src].session, Words(lexemes, t.chunks[src]);
    t.(vocabulary := t.vocabulary +
         map w | w in words :: Entry(session, w) := Value(t, session, w) + Containing(lexemes, t.chunks[src], w))
  }

  function Holding(t: Tables, src: nat, chunks: seq<Chunk>): Tables {
    t.(chunks := t.chunks[src := chunks])
  }

  function Pruned(t: Tables, session: nat): Tables {
    t.(vocabulary := map e | e in t.vocabulary && !(e.session == session && t.vocabulary[e] <= 0) :: t.vocabulary[e])
  }

  function FindSource(t: Tables, row: SourceRow, upTo: nat): (r: Option<nat>)
    ensures r.Some? ==> r.value in t.sources && t.sources[r.value] == row && r.value < upTo
    ensures r.None? ==> forall id <- t.sources | id < upTo :: t.sources[id] != row
  {
    if upTo == 0 then None
    else if upTo - 1 in t.sources && t.sources[upTo - 1] == row then Some(upTo - 1)
    else FindSource(t, row, upTo - 1)
  }

  // ----- Why it works

  lemma {:induction false} ContainingNone(lexemes: Lexemes, chunks: seq<Chunk>, word: string)
    ensures Containing(lexemes, chunks, word) > 0 <==> word in Words(lexemes, chunks)
  {
    if chunks != [] {
      var n := |chunks| - 1;
      ContainingNone(lexemes, chunks[..n], word);
      assert chunks == chunks[..n] + [chunks[n]];
    }
  }

  ghost function Holders(lexemes: Lexemes, chunks: seq<Chunk>, word: string): set<nat> {
    set i: nat | i < |chunks| && word in lexemes(chunks[i])
  }

  /** The count is that of the chunks, not of the occurrences: each chunk that contains the word, once. */
  lemma {:induction false} ContainingCounts(lexemes: Lexemes, chunks: seq<Chunk>, word: string)
    ensures Containing(lexemes, chunks, word) == |Holders(lexemes, chunks, word)|
  {
    if chunks != [] {
      var n := |chunks| - 1;
      ContainingCounts(lexemes, chunks[..n], word);
      assert Holders(lexemes, chunks, word)
             == Holders(lexemes, chunks[..n], word) + if word in lexemes(chunks[n]) then {n} else {};
    }
  }

  datatype Place = Place(source: nat, at: nat)

  /** Where the session has a chunk with the word: in which of its sources, and which of its chunks. */
  ghost function Places(lexemes: Lexemes, t: Tables, session: nat, word: string, upTo: nat): set<Place> {
    set id, i: nat | id in t.sources && id < upTo && t.sources[id].session == session && id in t.chunks
                     && i < |t.chunks[id]| && word in lexemes(t.chunks[id][i]) :: Place(id, i)
  }

  ghost function PlacesIn(lexemes: Lexemes, chunks: seq<Chunk>, word: string, source: nat): set<Place> {
    set i: nat | i < |chunks| && word in lexemes(chunks[i]) :: Place(source, i)
  }

  lemma {:induction false} PlacesInCounts(lexemes: Lexemes, chunks: seq<Chunk>, word: string, source: nat)
    ensures Containing(lexemes, chunks, word) == |PlacesIn(lexemes, chunks, word, source)|
  {
    if chunks != [] {
      var n := |chunks| - 1;
      var before := PlacesIn(lexemes, chunks[..n], word, source);
      PlacesInCounts(lexemes, chunks[..n], word, source);
      assert PlacesIn(lexemes, chunks, word, source)
             == before + if word in lexemes(chunks[n]) then {Place(source, n)} else {};
      assert Place(source, n) !in before;
    }
  }

  /** A recount counts every chunk of every source of the session once. */
  lemma {:induction false} RecountCounts(lexemes: Lexemes, t: Tables, session: nat, word: string, upTo: nat)
    ensures DocFreq(lexemes, t, session, word, upTo) == |Places(lexemes, t, session, word, upTo)|
  {
    if upTo > 0 {
      var id := upTo - 1;
      var before := Places(lexemes, t, session, word, id);
      RecountCounts(lexemes, t, session, word, id);
      PlacesStep(lexemes, t, session, word, id);
      if id in t.sources && t.sources[id].session == session && id in t.chunks {
        PlacesInCounts(lexemes, t.chunks[id], word, id);
      }
    }
  }

  lemma PlacesStep(lexemes: Lexemes, t: Tables, session: nat, word: string, id: nat)
    ensures var before, after := Places(lexemes, t, session, word, id), Places(lexemes, t, session, word, id + 1);
            if id in t.sources && t.sources[id].session == session && id in t.chunks then
              var here := PlacesIn(lexemes, t.chunks[id], word, id);
              after == before + here && before !! here
            else after == before
  {
  }

  /** Exchanging one source's chunks shifts its session's counts by the difference. */
  lemma {:induction false} Exchanged(lexemes: Lexemes, t: Tables, src: nat, chunks: seq<Chunk>, session: nat,
                                     word: string, upTo: nat)
    requires src in t.sources && src in t.chunks
    ensures var t' := t.(chunks := t.chunks[src := chunks]);
            DocFreq(lexemes, t', session, word, upTo) ==
            DocFreq(lexemes, t, session, word, upTo)
            + if src < upTo && t.sources[src].session == session
              then Containing(lexemes, chunks, word) - Containing(lexemes, t.chunks[src], word) else 0
  {
    if upTo > 0 {
      Exchanged(lexemes, t, src, chunks, session, word, upTo - 1);
    }
  }

  /** Only sources and chunks matter to a recount. */
  lemma {:induction false} SameRows(lexemes: Lexemes, t: Tables, t': Tables, session: nat, word: string, upTo: nat)
    requires forall id | id < upTo :: id in t.sources && t.sources[id].session == session && id in t.chunks
                                      <==> id in t'.sources && t'.sources[id].session == session && id in t'.chunks
    requires forall id | id < upTo && id in t.sources && t.sources[id].session == session && id in t.chunks ::
               id in t'.chunks && t'.chunks[id] == t.chunks[id]
    ensures DocFreq(lexemes, t', session, word, upTo) == DocFreq(lexemes, t, session, word, upTo)
  {
    if upTo > 0 {
      SameRows(lexemes, t, t', session, word, upTo - 1);
    }
  }

  /** The decrement takes away what the source's chunks contribute, and touches no row otherwise. */
  lemma DecrementedBy(lexemes: Lexemes, t: Tables, src: nat)
    requires src in t.sources && src in t.chunks
    ensures var before, after := t.vocabulary, Decremented(lexemes, t, src).vocabulary;
            && after.Keys == before.Keys
            && forall e <- before ::
                 after[e] == before[e] - if e.session == t.sources[src].session
                   then Containing(lexemes, t.chunks[src], e.word) else 0
  {
    forall e <- t.vocabulary
      ensures e.word !in Words(lexemes, t.chunks[src]) ==> Containing(lexemes, t.chunks[src], e.word) == 0
    {
      ContainingNone(lexemes, t.chunks[src], e.word);
    }
  }

  /** The increment adds what they contribute, with a row for every word that occurs in them. */
  lemma IncrementedBy(lexemes: Lexemes, t: Tables, src: nat, session: nat, word: string)
    requires src in t.sources && src in t.chunks
    ensures var t' := Incremented(lexemes, t, src);
            var gain := if session == t.sources[src].session then Containing(lexemes, t.chunks[src], word) else 0;
            && Value(t', session, word) == Value(t, session, word) + gain
            && (Entry(session, word) in t'.vocabulary <==> Entry(session, word) in t.vocabulary || gain > 0)
  {
    ContainingNone(lexemes, t.chunks[src], word);
  }

  lemma RetiredExact(lexemes: Lexemes, t: Tables, src: nat, session: nat, word: string)
    requires Keyed(t) && ExactFor(lexemes, t, session, word) && src in t.sources
    ensures ExactFor(lexemes, Holding(Decremented(lexemes, t, src), src, []), session, word)
  {
    var t' := Decremented(lexemes, t, src);
    DecrementedBy(lexemes, t, src);
    SameRows(lexemes, t, t', session, word, t.nextSource);
    Exchanged(lexemes, t', src, [], session, word, t.nextSource);
    if Entry(session, word) !in t.vocabulary && session == t.sources[src].session {
      OneSourceAtMostAll(lexemes, t, src, word, t.nextSource);
    }
  }

  /** The outgoing chunks are counted before they go: decrement, then delete. */
  lemma RetiresSource(lexemes: Lexemes, t: Tables, src: nat)
    requires Keyed(t) && Exact(lexemes, t) && src in t.sources
    ensures var t' := Holding(Decremented(lexemes, t, src), src, []);
            Keyed(t') && Exact(lexemes, t') && SameElsewhere(t, t', t.sources[src].session)
  {
    forall session, word
      ensures ExactFor(lexemes, Holding(Decremented(lexemes, t, src), src, []), session, word)
    {
      assert ExactFor(lexemes, t, session, word);
      RetiredExact(lexemes, t, src, session, word);
    }
    DecrementedBy(lexemes, t, src);
  }

  lemma {:induction false} OneSourceAtMostAll(lexemes: Lexemes, t: Tables, src: nat, word: string, upTo: nat)
    requires src in t.sources && src in t.chunks && src < upTo
    ensures Containing(lexemes, t.chunks[src], word) <= DocFreq(lexemes, t, t.sources[src].session, word, upTo)
  {
    if src < upTo - 1 {
      OneSourceAtMostAll(lexemes, t, src, word, upTo - 1);
    }
  }

  lemma CountedExact(lexemes: Lexemes, t: Tables, src: nat, chunks: seq<Chunk>, session: nat, word: string)
    requires Keyed(t) && ExactFor(lexemes, t, session, word) && src in t.sources && t.chunks[src] == []
    ensures ExactFor(lexemes, Incremented(lexemes, Holding(t, src, chunks), src), session, word)
  {
    var t' := Holding(t, src, chunks);
    Exchanged(lexemes, t, src, chunks, session, word, t.nextSource);
    SameRows(lexemes, t', Incremented(lexemes, t', src), session, word, t.nextSource);
    IncrementedBy(lexemes, t', src, session, word);
  }

  lemma OthersUncounted(lexemes: Lexemes, t: Tables, src: nat)
    requires src in t.sources && src in t.chunks
    ensures SameElsewhere(t, Incremented(lexemes, t, src), t.sources[src].session)
  {
  }

  /** The incoming chunks are counted once they are there: insert, then increment. */
  lemma CountsSource(lexemes: Lexemes, t: Tables, src: nat, chunks: seq<Chunk>)
    requires Keyed(t) && Exact(lexemes, t) && src in t.sources && t.chunks[src] == []
    ensures var t' := Incremented(lexemes, Holding(t, src, chunks), src);
            Keyed(t') && Exact(lexemes, t') && SameElsewhere(t, t', t.sources[src].session)
  {
    forall session, word
      ensures ExactFor(lexemes, Incremented(lexemes, Holding(t, src, chunks), src), session, word)
    {
      assert ExactFor(lexemes, t, session, word);
      CountedExact(lexemes, t, src, chunks, session, word);
    }
    OthersUncounted(lexemes, Holding(t, src, chunks), src);
  }

  lemma Prunes(lexemes: Lexemes, t: Tables, session: nat)
    requires Unpruned(lexemes, t, session)
    ensures Indexed(lexemes, Pruned(t, session))
  {
    var t' := Pruned(t, session);
    forall s, word
      ensures ExactFor(lexemes, t', s, word)
    {
      assert ExactFor(lexemes, t, s, word);
      SameRows(lexemes, t, t', s, word, t.nextSource);
    }
  }

  /** A new source without chunks changes no count. */
  lemma AddsSource(lexemes: Lexemes, t: Tables, row: SourceRow)
    requires Indexed(lexemes, t) && row.session in t.sessions && forall id <- t.sources :: t.sources[id] != row
    ensures Indexed(lexemes, WithSource(t, row))
  {
    var t' := WithSource(t, row);
    forall session, word
      ensures ExactFor(lexemes, t', session, word)
    {
      assert ExactFor(lexemes, t, session, word);
      SameRows(lexemes, t, t', session, word, t.nextSource);
    }
  }

  function WithSource(t: Tables, row: SourceRow): Tables {
    t.(sources := t.sources[t.nextSource := row], chunks := t.chunks[t.nextSource := []],
      nextSource := t.nextSource + 1)
  }

  // ----- Recomputation

  function AllEntries(lexemes: Lexemes, t: Tables): set<Entry> {
    set id, w | id in t.sources && id in t.chunks && w in Words(lexemes, t.chunks[id]) ::
      Entry(t.sources[id].session, w)
  }

  /** The index built from the rows alone. */
  function Recomputed(lexemes: Lexemes, t: Tables): map<Entry, int> {
    map e | e in AllEntries(lexemes, t) :: DocFreq(lexemes, t, e.session, e.word, t.nextSource)
  }

  lemma {:induction false} OccursIffCounted(lexemes: Lexemes, t: Tables, session: nat, word: string, upTo: nat)
    ensures DocFreq(lexemes, t, session, word, upTo) > 0 <==>
            exists id :: id in t.sources && id < upTo && t.sources[id].session == session && id in t.chunks
                         && word in Words(lexemes, t.chunks[id])
  {
    if upTo > 0 {
      OccursIffCounted(lexemes, t, session, word, upTo - 1);
      if upTo - 1 in t.chunks {
        ContainingNone(lexemes, t.chunks[upTo - 1], word);
      }
    }
  }

  /** Whatever the history: an index that is exact and positive is the recomputed one. */
  lemma IncrementalIsRecomputed(lexemes: Lexemes, t: Tables)
    requires Indexed(lexemes, t)
    ensures t.vocabulary == Recomputed(lexemes, t)
  {
    forall e: Entry
      ensures e in t.vocabulary <==> e in AllEntries(lexemes, t)
      ensures e in t.vocabulary ==> t.vocabulary[e] == DocFreq(lexemes, t, e.session, e.word, t.nextSource)
    {
      assert ExactFor(lexemes, t, e.session, e.word);
      assert Entry(e.session, e.word) == e;
      OccursIffCounted(lexemes, t, e.session, e.word, t.nextSource);
    }
  }

  // ----- Rarest words first

  predicate Less(a: string, b: string) {
    if b == "" then false
    else if a == "" then true
    else if a[0] != b[0] then a[0] < b[0]
    else Less(a[1..], b[1..])
  }

  lemma {:induction false} LessIsTotal(a: string, b: string)
    ensures Less(a, b) || Less(b, a) || a == b
    ensures !(Less(a, b) && Less(b, a)) && !Less(a, a)
  {
    if a != "" {
      LessIsTotal(a[1..], a[1..]);
      if b != "" {
        LessIsTotal(a[1..], b[1..]);
        assert a == [a[0]] + a[1..] && b == [b[0]] + b[1..];
      }
    }
  }

  lemma {:induction false} LessIsTransitive(a: string, b: string, c: string)
    requires Less(a, b) && Less(b, c)
    ensures Less(a, c)
  {
    if a != "" && a[0] == b[0] == c[0] {
      LessIsTransitive(a[1..], b[1..], c[1..]);
    }
  }

  /** At `k` the two words part, or the first one ends. */
  predicate PartAt(a: string, b: string, k: nat) {
    k <= |a| && k < |b| && a[..k] == b[..k] && (k == |a| || a[k] < b[k])
  }

  lemma PartBehind(a: string, b: string, k: nat)
    requires a != "" && b != "" && a[0] == b[0]
    ensures PartAt(a, b, k + 1) <==> PartAt(a[1..], b[1..], k)
  {
    if k + 1 <= |a| && k + 1 < |b| {
      assert a[..k + 1] == [a[0]] + a[1..][..k] && b[..k + 1] == [b[0]] + b[1..][..k];
      assert a[..k + 1][1..] == a[1..][..k] && b[..k + 1][1..] == b[1..][..k];
    }
  }

  lemma SameHead(a: string, b: string, k: nat)
    ensures 0 < k <= |a| && k <= |b| && a[..k] == b[..k] ==> a[0] == b[0]
  {
    if 0 < k <= |a| && k <= |b| {
      assert a[..k][0] == a[0] && b[..k][0] == b[0];
    }
  }

  lemma PartAtOnce(a: string, b: string)
    requires a == "" || b == "" || a[0] != b[0]
    ensures (exists k: nat :: PartAt(a, b, k)) <==> PartAt(a, b, 0)
  {
    forall k: nat
      ensures PartAt(a, b, k) ==> k == 0
    {
      SameHead(a, b, k);
    }
  }

  /** Words come in dictionary order: a prefix first, else by the first character that differs. */
  lemma {:induction false} LessIff(a: string, b: string)
    ensures Less(a, b) <==> exists k: nat :: PartAt(a, b, k)
  {
    if a == "" || b == "" || a[0] != b[0] {
      PartAtOnce(a, b);
    } else {
      LessIff(a[1..], b[1..]);
      if k: nat :| PartAt(a[1..], b[1..], k) {
        PartBehind(a, b, k);
      }
      if k: nat :| PartAt(a, b, k) {
        PartBehind(a, b, k - 1);
      }
    }
  }

  /** Rarer first, equally rare ones by word. */
  predicate Before(t: Tables, session: nat, a: string, b: string) {
    Value(t, session, a) < Value(t, session, b) || (Value(t, session, a) == Value(t, session, b) && Less(a, b))
  }

  function RowsOf(t: Tables, session: nat): set<string> {
    set e | e in t.vocabulary && e.session == session :: e.word
  }

  /** The first `limit` rows of a session in that order. */
  ghost predicate Rarest(t: Tables, session: nat, limit: nat, words: seq<string>) {
    && (forall w <- words :: w in RowsOf(t, session))
    && (forall i, j | 0 <= i < j < |words| :: Before(t, session, words[i], words[j]))
    && |words| == (if limit < |RowsOf(t, session)| then limit else |RowsOf(t, session)|)
    && forall w, v | w in words && v in RowsOf(t, session) && v !in words :: Before(t, session, w, v)
  }

  /** A word that was left out is in no fewer chunks than any that was chosen; the chosen ones come rarest first. */
  lemma RarestAreChosen(t: Tables, session: nat, limit: nat, words: seq<string>)
    requires Rarest(t, session, limit, words)
    ensures forall w <- words, v <- RowsOf(t, session) | v !in words :: Value(t, session, w) <= Value(t, session, v)
    ensures forall i, j | 0 <= i < j < |words| ::
              Value(t, session, words[i]) < Value(t, session, words[j])
              || (Value(t, session, words[i]) == Value(t, session, words[j])
                  && exists k: nat :: PartAt(words[i], words[j], k))
  {
    forall i, j | 0 <= i < j < |words|
      ensures Before(t, session, words[i], words[j])
              && (Less(words[i], words[j]) <==> exists k: nat :: PartAt(words[i], words[j], k))
    {
      LessIff(words[i], words[j]);
    }
  }

  lemma BeforeIsTotal(t: Tables, session: nat, a: string, b: string)
    ensures Before(t, session, a, b) || Before(t, session, b, a) || a == b
  {
    LessIsTotal(a, b);
  }

  lemma BeforeIsTransitive(t: Tables, session: nat, a: string, b: string, c: string)
    requires Before(t, session, a, b) && Before(t, session, b, c)
    ensures Before(t, session, a, c)
  {
    if Less(a, b) && Less(b, c) {
      LessIsTransitive(a, b, c);
    }
  }

  // ----- The database and the ingest transaction

  const MAX_CHUNKS_PER_SOURCE := 500
  const SUMMARY_CAP := 50
  const PREVIEW_MAX := 200
  const DISTINCTIVE_TERMS_CAP := 40

  datatype Section = Section(title: string, preview: string)

  datatype IngestError = SourceRequired | NamespaceRequired | SessionNotFound | StorageBackend

  datatype Ingested = Ingested(
    created: bool, sectionsIndexed: nat, sectionsTotal: nat, summaryTruncated: bool,
    summary: seq<Section>, distinctiveTerms: seq<string>)

  datatype IngestResult = Ok(value: Ingested) | Err(error: IngestError)

  function Capped(chunks: seq<Chunk>): seq<Chunk> {
    if |chunks| > MAX_CHUNKS_PER_SOURCE then chunks[..MAX_CHUNKS_PER_SOURCE] else chunks
  }

  function Preview(content: string): string {
    if |content| <= PREVIEW_MAX then content else content[..PREVIEW_MAX]
  }

  /** Only the first pieces are kept, and all of them if there are not too many. */
  lemma CappedIs(chunks: seq<Chunk>)
    ensures Capped(chunks) <= chunks && |Capped(chunks)| == if |chunks| <= 500 then |chunks| else 500
  {
  }

  /** A preview is the beginning of the content. */
  lemma PreviewIs(content: string)
    ensures Preview(content) <= content && |Preview(content)| == if |content| <= 200 then |content| else 200
  {
  }

  /** What an ingest's transaction executes before its commit. */
  const STATEMENTS := 7

  // ----- What a committed ingest amounts to

  function Ensured(t: Tables, row: SourceRow): Tables {
    if FindSource(t, row, t.nextSource).Some? then t else WithSource(t, row)
  }

  function SourceOf(t: Tables, row: SourceRow): nat {
    var found := FindSource(t, row, t.nextSource);
    if found.Some? then found.value else t.nextSource
  }

  /** The source has the new chunks, everything else is as before, and the index is that of a recount. */
  function Reindexed(lexemes: Lexemes, t: Tables, row: SourceRow, chunks: seq<Chunk>): Tables {
    var t' := Holding(Ensured(t, row), SourceOf(t, row), chunks);
    t'.(vocabulary := Recomputed(lexemes, t'))
  }

  /** What the caller is told about the sections. */
  ghost predicate Reports(r: Ingested, t: Tables, row: SourceRow, pieces: seq<Chunk>) {
    var kept := Capped(pieces);
    && (r.created <==> forall x <- t.sources :: t.sources[x] != row)
    && r.sectionsTotal == |pieces| && r.sectionsIndexed == |kept| <= MAX_CHUNKS_PER_SOURCE
    && |r.summary| == (if |pieces| < SUMMARY_CAP then |pieces| else SUMMARY_CAP)
    && (r.summaryTruncated <==> |r.summary| < |pieces|)
    && forall i | 0 <= i < |r.summary| :: r.summary[i] == Section(pieces[i].title, Preview(pieces[i].content))
  }

  /** Decrement, delete, insert, increment, prune. */
  function AfterStatements(lexemes: Lexemes, t: Tables, src: nat, chunks: seq<Chunk>): Tables
    requires src in t.sources && src in t.chunks
  {
    var emptied := Holding(Decremented(lexemes, t, src), src, []);
    Pruned(Incremented(lexemes, Holding(emptied, src, chunks), src), t.sources[src].session)
  }

  lemma StatementsKeepIndex(lexemes: Lexemes, t: Tables, src: nat, chunks: seq<Chunk>)
    requires Indexed(lexemes, t) && src in t.sources
    ensures Indexed(lexemes, AfterStatements(lexemes, t, src, chunks))
  {
    var emptied := Holding(Decremented(lexemes, t, src), src, []);
    RetiresSource(lexemes, t, src);
    CountsSource(lexemes, emptied, src, chunks);
    StillPositive(t, emptied, Incremented(lexemes, Holding(emptied, src, chunks), src), t.sources[src].session);
    Prunes(lexemes, Incremented(lexemes, Holding(emptied, src, chunks), src), t.sources[src].session);
  }

  lemma StillPositive(t: Tables, t': Tables, t'': Tables, session: nat)
    requires SameElsewhere(t, t', session) && SameElsewhere(t', t'', session)
             && forall e <- t.vocabulary :: t.vocabulary[e] > 0
    ensures forall e <- t''.vocabulary | e.session != session :: t''.vocabulary[e] > 0
  {
  }

  lemma StatementsKeepRows(lexemes: Lexemes, t: Tables, src: nat, chunks: seq<Chunk>)
    requires src in t.sources && src in t.chunks
    ensures var t' := AfterStatements(lexemes, t, src, chunks);
            t' == Holding(t, src, chunks).(vocabulary := t'.vocabulary)
  {
    assert t.chunks[src := []][src := chunks] == t.chunks[src := chunks];
  }

  /** The five statements turn an exact index into the exact index of the new rows. */
  lemma ReindexKeeps(lexemes: Lexemes, t: Tables, src: nat, chunks: seq<Chunk>)
    requires Indexed(lexemes, t) && src in t.sources
    ensures var t', rows := AfterStatements(lexemes, t, src, chunks), Holding(t, src, chunks);
            Indexed(lexemes, t') && t' == rows.(vocabulary := Recomputed(lexemes, rows))
  {
    StatementsKeepIndex(lexemes, t, src, chunks);
    StatementsKeepRows(lexemes, t, src, chunks);
    RecountIs(lexemes, AfterStatements(lexemes, t, src, chunks), Holding(t, src, chunks));
  }

  lemma RecountIs(lexemes: Lexemes, t: Tables, rows: Tables)
    requires Indexed(lexemes, t) && t == rows.(vocabulary := t.vocabulary)
    ensures t == rows.(vocabulary := Recomputed(lexemes, rows))
  {
    IncrementalIsRecomputed(lexemes, t);
    SameRecount(lexemes, t, rows);
  }

  lemma SameRecount(lexemes: Lexemes, t: Tables, t': Tables)
    requires t == t'.(vocabulary := t.vocabulary)
    ensures Recomputed(lexemes, t) == Recomputed(lexemes, t')
  {
    assert AllEntries(lexemes, t) == AllEntries(lexemes, t');
    forall e <- AllEntries(lexemes, t)
      ensures DocFreq(lexemes, t, e.session, e.word, t.nextSource)
              == DocFreq(lexemes, t', e.session, e.word, t.nextSource)
    {
      SameRows(lexemes, t, t', e.session, e.word, t.nextSource);
    }
  }

  lemma FoundIsUnique(t: Tables, row: SourceRow, id: nat)
    requires Keyed(t) && if FindSource(t, row, t.nextSource).None? then id == t.nextSource
             else id in t.sources && t.sources[id] == row
    ensures id == SourceOf(t, row)
  {
  }

  function WithoutSession(t: Tables, session: nat): Tables {
    t.(sessions := t.sessions - {session},
       sources := map id | id in t.sources && t.sources[id].session != session :: t.sources[id],
       chunks := map id | id in t.chunks && id in t.sources && t.sources[id].session != session :: t.chunks[id],
       vocabulary := map e | e in t.vocabulary && e.session != session :: t.vocabulary[e])
  }

  lemma {:induction false} NoRowsNoCount(lexemes: Lexemes, t: Tables, session: nat, word: string, upTo: nat)
    requires forall id <- t.sources :: t.sources[id].session != session
    ensures DocFreq(lexemes, t, session, word, upTo) == 0
  {
    if upTo > 0 {
      NoRowsNoCount(lexemes, t, session, word, upTo - 1);
    }
  }

  /** Of a deleted session nothing is left, and of every other one everything. */
  lemma OnlyThatSessionGoes(t: Tables, session: nat)
    requires Keyed(t)
    ensures var t' := WithoutSession(t, session);
            && session !in t'.sessions
            && (forall s | s != session :: (s in t'.sessions <==> s in t.sessions)
                  && (s in t.sessions ==> t'.sessions[s] == t.sessions[s]))
            && (forall id :: id in t'.sources <==> id in t.sources && t.sources[id].session != session)
            && (forall id <- t'.sources ::
                  t'.sources[id] == t.sources[id] && id in t'.chunks && t'.chunks[id] == t.chunks[id])
            && t'.chunks.Keys == t'.sources.Keys
            && (forall e :: e in t'.vocabulary <==> e in t.vocabulary && e.session != session)
            && (forall e <- t'.vocabulary :: t'.vocabulary[e] == t.vocabulary[e])
  {
  }

  lemma SessionDeleted(lexemes: Lexemes, t: Tables, session: nat)
    requires Indexed(lexemes, t)
    ensures Indexed(lexemes, WithoutSession(t, session))
  {
    var t' := WithoutSession(t, session);
    forall s, word
      ensures ExactFor(lexemes, t', s, word)
    {
      assert ExactFor(lexemes, t, s, word);
      if s == session {
        NoRowsNoCount(lexemes, t', session, word, t.nextSource);
      } else {
        SameRows(lexemes, t, t', s, word, t.nextSource);
      }
    }
  }

  lemma SessionOpened(lexemes: Lexemes, t: Tables, session: nat, namespace: string)
    requires Indexed(lexemes, t) && session !in t.sessions
    ensures Indexed(lexemes, t.(sessions := t.sessions[session := namespace]))
  {
    var t' := t.(sessions := t.sessions[session := namespace]);
    forall s, word
      ensures ExactFor(lexemes, t', s, word)
    {
      assert ExactFor(lexemes, t, s, word);
      SameRows(lexemes, t, t', s, word, t.nextSource);
    }
  }

  // ----- Histories

  const EMPTY := Tables(map[], map[], map[], map[], 1)

  /** `completed` says how many statements of an ingest go through; with all of them the commit may still fail. */
  datatype Call =
    | Open(session: nat, namespace: string)
    | Close(session: nat)
    | Put(namespace: string, row: SourceRow, pieces: seq<Chunk>, completed: nat)

  predicate Authorized(t: Tables, namespace: string, session: nat) {
    session in t.sessions && t.sessions[session] == namespace
  }

  /** Nothing is missing from the request, the session is the caller's, and the backend commits. */
  predicate Commits(t: Tables, namespace: string, row: SourceRow, completed: nat) {
    row.sourceLabel != "" && namespace != "" && Authorized(t, namespace, row.session) && completed > STATEMENTS
  }

  /** What the caller is told instead, in the order in which it is noticed. */
  function Failure(t: Tables, namespace: string, row: SourceRow, completed: nat): (error: Option<IngestError>)
    ensures error.None? <==> Commits(t, namespace, row, completed)
  {
    if row.sourceLabel == "" then Some(SourceRequired)
    else if namespace == "" then Some(NamespaceRequired)
    else if completed == 0 then Some(StorageBackend)
    else if !Authorized(t, namespace, row.session) then Some(SessionNotFound)
    else if completed <= STATEMENTS then Some(StorageBackend)
    else None
  }

  /** What one call does to the tables, statement by statement. */
  ghost predicate Next(lexemes: Lexemes, t: Tables, call: Call, t': Tables) {
    match call
    case Open(session, namespace) => session !in t.sessions && t' == t.(sessions := t.sessions[session := namespace])
    case Close(session) => t' == WithoutSession(t, session)
    case Put(namespace, row, pieces, completed) =>
      if !Commits(t, namespace, row, completed) then t' == t else
        var ensured, src := Ensured(t, row), SourceOf(t, row);
        src in ensured.sources && src in ensured.chunks && t' == AfterStatements(lexemes, ensured, src, Capped(pieces))
  }

  lemma EnsuredIndexed(lexemes: Lexemes, t: Tables, row: SourceRow)
    requires Indexed(lexemes, t) && row.session in t.sessions
    ensures Indexed(lexemes, Ensured(t, row)) && SourceOf(t, row) in Ensured(t, row).sources
  {
    if FindSource(t, row, t.nextSource).None? {
      AddsSource(lexemes, t, row);
    }
  }

  lemma NextKeepsIndex(lexemes: Lexemes, t: Tables, call: Call, t': Tables)
    requires Indexed(lexemes, t) && Next(lexemes, t, call, t')
    ensures Indexed(lexemes, t')
  {
    match call
    case Open(session, namespace) => SessionOpened(lexemes, t, session, namespace);
    case Close(session) => SessionDeleted(lexemes, t, session);
    case Put(namespace, row, pieces, completed) =>
      if Commits(t, namespace, row, completed) {
        EnsuredIndexed(lexemes, t, row);
        StatementsKeepIndex(lexemes, Ensured(t, row), SourceOf(t, row), Capped(pieces));
      }
  }

  ghost predicate History(lexemes: Lexemes, ts: seq<Tables>, calls: seq<Call>) {
    && |ts| == |calls| + 1 && ts[0] == EMPTY
    && forall i | 0 <= i < |calls| :: Next(lexemes, ts[i], calls[i], ts[i + 1])
  }

  /** Whatever sessions come and go and whatever is ingested, re-ingested or rolled back: the index is the recount. */
  lemma {:induction false} AnyHistoryIsRecomputed(lexemes: Lexemes, ts: seq<Tables>, calls: seq<Call>, i: nat)
    requires History(lexemes, ts, calls) && i < |ts|
    ensures Indexed(lexemes, ts[i]) && ts[i].vocabulary == Recomputed(lexemes, ts[i])
  {
    if i == 0 {
      EmptyIndexed(lexemes);
    } else {
      AnyHistoryIsRecomputed(lexemes, ts, calls, i - 1);
      NextKeepsIndex(lexemes, ts[i - 1], calls[i - 1], ts[i]);
    }
    IncrementalIsRecomputed(lexemes, ts[i]);
  }

  lemma EmptyIndexed(lexemes: Lexemes)
    ensures Indexed(lexemes, EMPTY)
  {
    forall session, word
      ensures ExactFor(lexemes, EMPTY, session, word)
    {
      assert DocFreq(lexemes, EMPTY, session, word, 0) == 0;
    }
  }

  class Database {
    const lexemes: Lexemes
    var sessions: map<nat, string>
    var sources: map<nat, SourceRow>
    var chunks: map<nat, seq<Chunk>>
    var vocabulary: map<Entry, int>
    var nextSource: nat

    constructor (lexemes: Lexemes)
      ensures this.lexemes == lexemes && Contents() == EMPTY && Valid()
    {
      this.lexemes, sessions, sources, chunks, vocabulary, nextSource := lexemes, map[], map[], map[], map[], 1;
      new;
      EmptyIndexed(lexemes);
    }

    function Contents(): Tables
      reads this
    {
      Tables(sessions, sources, chunks, vocabulary, nextSource)
    }

    ghost predicate Valid()
      reads this
    {
      Indexed(lexemes, Contents())
    }

    /** A rollback: the tables are again what they were. */
    method Restore(t: Tables)
      requires Indexed(lexemes, t)
      modifies this
      ensures Contents() == t && Valid()
    {
      sessions, sources, chunks, vocabulary, nextSource := t.sessions, t.sources, t.chunks, t.vocabulary, t.nextSource;
    }

    /** The id is the one the database generated for the new row. */
    method CreateSession(session: nat, namespace: string)
      requires Valid() && session !in sessions
      modifies this`sessions
      ensures Valid()
      ensures Next(lexemes, old(Contents()), Open(session, namespace), Contents())
    {
      SessionOpened(lexemes, Contents(), session, namespace);
      sessions := sessions[session := namespace];
    }

    method Upsert(row: SourceRow) returns (id: nat, created: bool)
      requires Keyed(Contents())
      modifies this`sources, this`chunks, this`nextSource
      ensures created <==> forall x <- old(sources) :: old(sources)[x] != row
      ensures Contents() == if created then WithSource(old(Contents()), row) else old(Contents())
      ensures id in sources && sources[id] == row && (created ==> id == old(nextSource))
    {
      var found := FindSource(Contents(), row, nextSource);
      if found.Some? {
        return found.value, false;
      }
      id, created := nextSource, true;
      sources, chunks, nextSource := sources[id := row], chunks[id := []], nextSource + 1;
    }

    method DecrementForSource(src: nat)
      requires src in sources && src in chunks
      modifies this`vocabulary
      ensures vocabulary.Keys == old(vocabulary).Keys
      ensures forall e <- vocabulary ::
                vocabulary[e] == old(vocabulary)[e] - if e.session == sources[src].session
                  then Containing(lexemes, chunks[src], e.word) else 0
      ensures Contents() == Decremented(lexemes, old(Contents()), src)
    {
      DecrementedBy(lexemes, Contents(), src);
      vocabulary := Decremented(lexemes, Contents(), src).vocabulary;
    }

    method DeleteForSource(src: nat)
      requires src in chunks
      modifies this`chunks
      ensures Contents() == old(Contents()).(chunks := old(chunks)[src := []])
    {
      chunks := chunks[src := []];
    }

    method InsertChunks(src: nat, rows: seq<Chunk>)
      requires src in chunks && chunks[src] == []
      modifies this`chunks
      ensures Contents() == old(Contents()).(chunks := old(chunks)[src := rows])
    {
      chunks := chunks[src := rows];
    }

    method IncrementForSource(src: nat)
      requires src in sources && src in chunks
      modifies this`vocabulary
      ensures forall session, word ::
                Value(Contents(), session, word) == old(Value(Contents(), session, word))
                  + if session == sources[src].session then Containing(lexemes, chunks[src], word) else 0
      ensures Contents() == Incremented(lexemes, old(Contents()), src)
    {
      ghost var t := Contents();
      forall session, word
        ensures Value(Incremented(lexemes, t, src), session, word) == Value(t, session, word)
                  + if session == t.sources[src].session then Containing(lexemes, t.chunks[src], word) else 0
      {
        IncrementedBy(lexemes, t, src, session, word);
      }
      vocabulary := Incremented(lexemes, Contents(), src).vocabulary;
    }

    method PruneZeros(session: nat)
      modifies this`vocabulary
      ensures Contents() == Pruned(old(Contents()), session)
    {
      vocabulary := Pruned(Contents(), session).vocabulary;
    }

    /** Picks the first word of a non-empty set. */
    method First(session: nat, words: set<string>) returns (first: string)
      requires words != {}
      ensures first in words && forall w <- words | w != first :: Before(Contents(), session, first, w)
    {
      first :| first in words;
      var rest := words - {first};
      while rest != {}
        invariant rest <= words && first in words - rest
        invariant forall w <- words - rest | w != first :: Before(Contents(), session, first, w)
        decreases |rest|
      {
        var w :| w in rest;
        rest := rest - {w};
        BeforeIsTotal(Contents(), session, first, w);
        if Before(Contents(), session, w, first) {
          forall v <- words - rest | v != w && v != first
            ensures Before(Contents(), session, w, v)
          {
            BeforeIsTransitive(Contents(), session, w, first, v);
          }
          first := w;
        }
      }
    }

    method TopByIdf(session: nat, limit: nat) returns (words: seq<string>)
      ensures Rarest(Contents(), session, limit, words)
    {
      words := [];
      var all := RowsOf(Contents(), session);
      var rest := all;
      while |words| < limit && rest != {}
        invariant rest <= all && |words| + |rest| == |all| && |words| <= limit
        invariant forall w <- words :: w in all && w !in rest
        invariant forall w <- all :: w in rest || w in words
        invariant forall i, j | 0 <= i < j < |words| :: Before(Contents(), session, words[i], words[j])
        invariant forall w, v | w in words && v in rest :: Before(Contents(), session, w, v)
        decreases |rest|
      {
        var w := First(session, rest);
        words, rest := words + [w], rest - {w};
      }
    }

    /**
     One ingest. `pieces` is what chunking made of the content; `completed` says how many of the
     transaction's seven statements go through; beyond the seventh, the commit does too.
     */
    method Ingest(namespace: string, session: nat, sourceLabel: string, pieces: seq<Chunk>, completed: nat)
      returns (result: IngestResult)
      requires Valid()
      modifies this
      ensures Valid()
      ensures var failure := Failure(old(Contents()), namespace, SourceRow(session, sourceLabel), completed);
              if failure.Some? then result == Err(failure.value) else result.Ok?
      ensures Next(lexemes, old(Contents()), Put(namespace, SourceRow(session, sourceLabel), pieces, completed),
              Contents())
      ensures result.Err? ==> Contents() == old(Contents())
      ensures result.Ok? ==>
                && Contents() == Reindexed(lexemes, old(Contents()), SourceRow(session, sourceLabel), Capped(pieces))
                && Reports(result.value, old(Contents()), SourceRow(session, sourceLabel), pieces)
                && Rarest(Contents(), session, DISTINCTIVE_TERMS_CAP, result.value.distinctiveTerms)
    {
      if sourceLabel == "" {
        return Err(SourceRequired);
      }
      var total := |pieces|;
      var kept := if total > MAX_CHUNKS_PER_SOURCE then pieces[..MAX_CHUNKS_PER_SOURCE] else pieces;
      var created, terms, error := WithTx(namespace, SourceRow(session, sourceLabel), kept, completed, pieces);
      if error.Some? {
        return Err(error.value);
      }
      var ingested := Summarize(created, kept, total, terms);
      return Ok(ingested);
    }

    method Summarize(created: bool, kept: seq<Chunk>, total: nat, terms: seq<string>) returns (r: Ingested)
      ensures r.created == created && r.sectionsIndexed == |kept| && r.sectionsTotal == total
              && r.distinctiveTerms == terms
      ensures |r.summary| == (if |kept| < SUMMARY_CAP then |kept| else SUMMARY_CAP)
      ensures r.summaryTruncated <==> |r.summary| < total
      ensures forall i | 0 <= i < |r.summary| :: r.summary[i] == Section(kept[i].title, Preview(kept[i].content))
    {
      var summaryLen := if |kept| < SUMMARY_CAP then |kept| else SUMMARY_CAP;
      var summary := seq(summaryLen, i requires 0 <= i < summaryLen =>
                         Section(kept[i].title, Preview(kept[i].content)));
      return Ingested(created, |kept|, total, summaryLen < total, summary, terms);
    }

    /** The transaction, rolled back unless it commits. */
    method WithTx(namespace: string, row: SourceRow, kept: seq<Chunk>, completed: nat, ghost pieces: seq<Chunk>)
      returns (created: bool, terms: seq<string>, error: Option<IngestError>)
      requires Valid() && row.sourceLabel != "" && kept == Capped(pieces)
      modifies this
      ensures Valid() && error == Failure(old(Contents()), namespace, row, completed)
      ensures Next(lexemes, old(Contents()), Put(namespace, row, pieces, completed), Contents())
      ensures error.Some? ==> Contents() == old(Contents())
      ensures error.None? ==>
                && Contents() == Reindexed(lexemes, old(Contents()), row, kept)
                && (created <==> forall x <- old(sources) :: old(sources)[x] != row)
                && Rarest(Contents(), row.session, DISTINCTIVE_TERMS_CAP, terms)
    {
      var saved := Contents();
      created, terms, error := Transaction(namespace, row, kept, completed);
      if error.Some? {
        Restore(saved);
      }
    }

    method Transaction(namespace: string, row: SourceRow, kept: seq<Chunk>, completed: nat)
      returns (created: bool, terms: seq<string>, error: Option<IngestError>)
      requires Valid()
      modifies this
      requires row.sourceLabel != ""
      ensures error == Failure(old(Contents()), namespace, row, completed)
      ensures error.None? ==>
                && Valid() && Contents() == Reindexed(lexemes, old(Contents()), row, kept)
                && SourceOf(old(Contents()), row) in Ensured(old(Contents()), row).sources
                && Contents() == AfterStatements(lexemes, Ensured(old(Contents()), row),
                  SourceOf(old(Contents()), row), kept)
                && (created <==> forall x <- old(sources) :: old(sources)[x] != row)
                && Rarest(Contents(), row.session, DISTINCTIVE_TERMS_CAP, terms)
    {
      created, terms, error := false, [], Some(StorageBackend);
      if namespace == "" {
        return false, [], Some(NamespaceRequired);
      }
      if completed == 0 { return; }
      if row.session !in sessions || sessions[row.session] != namespace {
        return false, [], Some(SessionNotFound);
      }
      ghost var before := Contents();
      var src;
      src, created := Upsert(row);
      if created {
        AddsSource(lexemes, before, row);
      }
      ghost var t := Contents();
      assert t == Ensured(before, row) && src == SourceOf(before, row) by { FoundIsUnique(before, row, src); }
      if completed == 1 { return; }
      DecrementForSource(src);
      if completed == 2 { return; }
      DeleteForSource(src);
      if completed == 3 { return; }
      InsertChunks(src, kept);
      if completed == 4 { return; }
      IncrementForSource(src);
      if completed == 5 { return; }
      PruneZeros(row.session);
      assert Contents() == AfterStatements(lexemes, t, src, kept);
      ReindexKeeps(lexemes, t, src, kept);
      if completed == 6 { return; }
      terms := TopByIdf(row.session, DISTINCTIVE_TERMS_CAP);
      if completed == STATEMENTS { return; }
      error := None;
    }

    /** Deleting a session takes its sources, chunks and vocabulary along. */
    method DeleteSession(session: nat)
      requires Valid()
      modifies this
      ensures Valid()
      ensures Next(lexemes, old(Contents()), Close(session), Contents())
    {
      SessionDeleted(lexemes, Contents(), session);
      var t := WithoutSession(Contents(), session);
      sessions, sources, chunks, vocabulary := t.sessions, t.sources, t.chunks, t.vocabulary;
    }
  }
}
