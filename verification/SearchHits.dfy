/** The search hit that ranking, budget allocation and document-order paging pass around. */
module SearchHits {

  datatype MatchLayer = Primary | Trigram | Document

  /** `relevance` and `matchesAll` feed budget allocation only; they never reach the wire. */
  datatype SearchHit = SearchHit(
    title: string,
    snippet: string,
    source: string,
    layer: MatchLayer,
    truncated: bool,
    relevance: real,
    matchesAll: bool)
}
