/** service/recall_pipeline.go: what scoring and selection hand to each other. */
module RecallTypes {
  import Text

  datatype Evidence = Evidence(kind: string, source: string, id: string, note: string, score: real)

  datatype Candidate = Candidate(memoryId: string, scopeId: string, sessionId: string, agentId: string,
                                 sourceType: string, content: string, provenance: seq<Evidence>, createdAt: int,
                                 importance: real)

  datatype Query = Query(text: string, scopeId: string, limit: int, maxTokens: int)

  datatype Signal = Keyword | Semantic | Graph | Fact | Recency | Importance | ScopeMatch

  /** `recallScoreSignals`, in its order. */
  const SIGNALS := [Keyword, Semantic, Graph, Fact, Recency, Importance, ScopeMatch]

  function Name(s: Signal): string {
    match s
    case Keyword => "keyword"
    case Semantic => "semantic"
    case Graph => "graph"
    case Fact => "fact"
    case Recency => "recency"
    case Importance => "importance"
    case ScopeMatch => "scope"
  }

  /** A candidate with its rounded signals. */
  datatype View = View(candidate: Candidate, keyword: real, semantic: real, graph: real, fact: real, recency: real,
                       importance: real, scope: real)
  {
    function Get(s: Signal): real {
      match s
      case Keyword => keyword
      case Semantic => semantic
      case Graph => graph
      case Fact => fact
      case Recency => recency
      case Importance => importance
      case ScopeMatch => scope
    }
  }

  datatype Scored = Scored(view: View, rrf: real, final: real)

  /** `compareScoredRecall(a, b) < 0`. */
  predicate Outranks(a: Scored, b: Scored) {
    || a.final > b.final
    || (a.final == b.final && a.rrf > b.rrf)
    || (a.final == b.final && a.rrf == b.rrf && Text.Less(a.view.candidate.memoryId, b.view.candidate.memoryId))
  }

  /** `recallScopeMismatch`. */
  predicate OutOfScope(q: Query, c: Candidate) {
    var want, have := Text.TrimSpace(q.scopeId), Text.TrimSpace(c.scopeId);
    want != "" && have != "" && have != want
  }
}
