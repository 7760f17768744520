/** service/recall_pipeline.go, scoring: each candidate has seven signals; a weighted sum and a
    reciprocal-rank fusion of the signals give its final score, by which candidates are sorted.
    Scores are reals, and rounding to six places is a parameter. */
module RecallRanking {
  import Finite
  import Text
  import opened RecallTypes
  import opened Sorting

  datatype Config = Config(weights: map<string, real>, rrfK: int, round: real -> real)

  function Weight(cfg: Config, s: Signal): real {
    if Name(s) in cfg.weights then cfg.weights[Name(s)] else 0.0
  }

  /** A scoring configuration after `normalizeRecallScoringConfig`, with no negative weight, and
      a rounding that never reverses two numbers. */
  ghost predicate Sensible(cfg: Config) {
    && cfg.rrfK > 0
    && (forall s :: Weight(cfg, s) >= 0.0)
    && (forall x, y :: x <= y ==> cfg.round(x) <= cfg.round(y))
  }

  function Clamp(x: real): real {
    if x < 0.0 then 0.0 else if x > 1.0 then 1.0 else x
  }

  // ----- Signals -----

  /** How well content matches a query, and how a creation time decays. */
  datatype Measures = Measures(keyword: (string, string) -> real, recency: (int, int) -> real)

  /** `maxEvidenceScore`, before it is clamped: the best score of the kind, at least the fallback. */
  function Strongest(items: seq<Evidence>, kind: string, fallback: real): real {
    if items == [] then fallback
    else
      var (best, last) := (Strongest(items[..|items| - 1], kind, fallback), items[|items| - 1]);
      if last.kind == kind && last.score > best then last.score else best
  }

  predicate Offers(items: seq<Evidence>, kind: string, score: real) {
    exists e | e in items :: e.kind == kind && e.score == score
  }

  /** It is one of the scores or the fallback, and none of them is greater. */
  lemma {:induction false} StrongestMeaning(items: seq<Evidence>, kind: string, fallback: real)
    ensures var best := Strongest(items, kind, fallback);
      && best >= fallback && (best == fallback || Offers(items, kind, best))
      && forall e | e in items && e.kind == kind :: e.score <= best
  {
    if items != [] {
      var (init, last) := (items[..|items| - 1], items[|items| - 1]);
      StrongestMeaning(init, kind, fallback);
      assert items == init + [last];
      assert last in items;
    }
  }

  method MaxEvidenceScore(items: seq<Evidence>, kind: string, fallback: real) returns (r: real)
    ensures r == Clamp(Strongest(items, kind, fallback))
  {
    var score := fallback;
    for i := 0 to |items|
      invariant score == Strongest(items[..i], kind, fallback)
    {
      assert items[..i + 1][..i] == items[..i];
      if items[i].kind != kind {
        continue;
      }
      if items[i].score > score {
        score := items[i].score;
      }
    }
    assert items[..|items|] == items;
    return Clamp(score);
  }

  /** `scopeRecallScore`. */
  function ScopeScore(q: Query, c: Candidate): real {
    var (want, have) := (Text.TrimSpace(q.scopeId), Text.TrimSpace(c.scopeId));
    if want == "" then (if have == "" then 0.5 else 1.0)
    else if have == want then 1.0 else if have == "" then 0.5 else 0.0
  }

  function ViewOf(cfg: Config, ms: Measures, q: Query, now: int, c: Candidate): View {
    View(c,
         cfg.round(Clamp(Strongest(c.provenance, "keyword", ms.keyword(c.content, q.text)))),
         cfg.round(Clamp(Strongest(c.provenance, "semantic", 0.0))),
         cfg.round(Clamp(Strongest(c.provenance, "graph", 0.0))),
         cfg.round(Clamp(Strongest(c.provenance, "fact", 0.0))),
         cfg.round(ms.recency(c.createdAt, now)), cfg.round(Clamp(c.importance)), cfg.round(ScopeScore(q, c)))
  }

  function Views(cfg: Config, ms: Measures, q: Query, now: int, cs: seq<Candidate>): (views: seq<View>)
    ensures |views| == |cs| && forall i | 0 <= i < |cs| :: views[i] == ViewOf(cfg, ms, q, now, cs[i])
  {
    seq(|cs|, i requires 0 <= i < |cs| => ViewOf(cfg, ms, q, now, cs[i]))
  }

  // ----- Ranks -----

  function KeyAt(views: seq<View>, s: Signal, i: nat): (real, string) {
    if i < |views| then (views[i].Get(s), views[i].candidate.memoryId) else (0.0, "")
  }

  /** The order of `rankedRecallSignalIndexes`: higher signal first, then smaller id. */
  predicate RanksBefore(views: seq<View>, s: Signal, i: nat, j: nat) {
    var (x, y) := (KeyAt(views, s, i), KeyAt(views, s, j));
    x.0 > y.0 || (x.0 == y.0 && Text.Less(x.1, y.1))
  }

  function Rank(views: seq<View>, s: Signal): (nat, nat) -> bool {
    (i: nat, j: nat) => RanksBefore(views, s, i, j)
  }

  /** The indexes below n whose signal is positive. */
  function Positive(views: seq<View>, s: Signal, n: nat): (r: seq<nat>)
    requires n <= |views|
    ensures forall i: nat :: i in r <==> i < n && views[i].Get(s) > 0.0
    ensures forall p :: 0 <= p < |r| ==> r[p] < n
    ensures forall p, q :: 0 <= p < q < |r| ==> r[p] < r[q]
  {
    if n == 0 then []
    else
      Positive(views, s, n - 1) + (if views[n - 1].Get(s) > 0.0 then [n - 1] else [])
  }

  function Ranked(views: seq<View>, s: Signal): seq<nat> {
    StableSort(Positive(views, s, |views|), Rank(views, s))
  }

  lemma RankIsStrictWeak(views: seq<View>, s: Signal)
    ensures StrictWeak(Rank(views, s))
  {
    forall i: nat, j: nat | Rank(views, s)(i, j) ensures !Rank(views, s)(j, i) {
      Asymmetric(KeyAt(views, s, i).1, KeyAt(views, s, j).1);
    }
    forall i: nat, j: nat, k: nat | Rank(views, s)(i, k) ensures Rank(views, s)(i, j) || Rank(views, s)(j, k) {
      NegativelyTransitive(KeyAt(views, s, i).1, KeyAt(views, s, j).1, KeyAt(views, s, k).1);
    }
  }

  lemma Asymmetric(a: string, b: string)
    ensures Text.Less(a, b) ==> !Text.Less(b, a)
  {
    if Text.Less(a, b) && Text.Less(b, a) {
      Text.LessTransitive(a, b, a);
      Text.LessIrreflexive(a);
    }
  }

  lemma NegativelyTransitive(a: string, b: string, c: string)
    ensures Text.Less(a, c) ==> Text.Less(a, b) || Text.Less(b, c)
  {
    Text.LessTotal(a, b);
    if Text.Less(b, a) && Text.Less(a, c) {
      Text.LessTransitive(b, a, c);
    }
  }

  lemma RankedMembers(views: seq<View>, s: Signal)
    ensures forall i: nat :: i in Ranked(views, s) <==> i < |views| && views[i].Get(s) > 0.0
    ensures forall p, q :: 0 <= p < q < |Ranked(views, s)| ==> Ranked(views, s)[p] != Ranked(views, s)[q]
    ensures Sorted(Ranked(views, s), Rank(views, s))
  {
    var positive := Positive(views, s, |views|);
    StableSortMembers(positive, Rank(views, s));
    RankIsStrictWeak(views, s);
    StableSortSorts(positive, Rank(views, s));
    StableSortKeeps(positive, Rank(views, s));
    Finite.PermutationDistinct(positive, Ranked(views, s));
  }

  /** Position of an index in a ranking. */
  function PositionOf(ranking: seq<nat>, i: nat): (p: nat)
    requires i in ranking
    ensures p < |ranking| && ranking[p] == i
  {
    if ranking[0] == i then 0 else PositionOf(ranking[1..], i) + 1
  }

  // ----- Scores as functions -----

  /** What a signal gives to the candidate at a rank. */
  function Credit(cfg: Config, s: Signal, rank: nat): real
    requires cfg.rrfK > 0
  {
    Weight(cfg, s) / ((cfg.rrfK + rank + 1) as real)
  }

  /** What one signal adds to the fused score of candidate i. */
  function Share(views: seq<View>, cfg: Config, s: Signal, i: nat): real
    requires i < |views| && cfg.rrfK > 0
  {
    if Weight(cfg, s) == 0.0 || i !in Ranked(views, s) then 0.0
    else Credit(cfg, s, PositionOf(Ranked(views, s), i))
  }

  function Fused(views: seq<View>, cfg: Config, signals: seq<Signal>, i: nat): real
    requires i < |views| && cfg.rrfK > 0
  {
    if signals == [] then cfg.round(0.0)
    else Fused(views, cfg, signals[..|signals| - 1], i) + Share(views, cfg, signals[|signals| - 1], i)
  }

  function Weighted(view: View, cfg: Config, signals: seq<Signal>): real {
    if signals == [] then 0.0
    else
      var s := signals[|signals| - 1];
      Weighted(view, cfg, signals[..|signals| - 1]) + Weight(cfg, s) * view.Get(s)
  }

  function Rrf(views: seq<View>, cfg: Config, i: nat): real
    requires i < |views| && cfg.rrfK > 0
  {
    cfg.round(Fused(views, cfg, SIGNALS, i))
  }

  function ScoreOf(views: seq<View>, cfg: Config, i: nat): Scored
    requires i < |views| && cfg.rrfK > 0
  {
    var rrf := Rrf(views, cfg, i);
    Scored(views[i], rrf, cfg.round(cfg.round(Clamp(Weighted(views[i], cfg, SIGNALS))) + rrf))
  }

  // ----- Scoring as the source writes it -----

  ghost predicate Show(items: seq<Scored>, views: seq<View>) {
    |items| == |views| && forall i | 0 <= i < |views| :: items[i].view == views[i]
  }

  /** The candidates in `done` have been given their share, the others nothing. */
  ghost predicate Credited(items: seq<Scored>, r: seq<Scored>, views: seq<View>, cfg: Config, s: Signal, done: seq<nat>)
    requires cfg.rrfK > 0
  {
    && |items| == |r| == |views|
    && forall i | 0 <= i < |views| ::
         r[i] == if i in done then items[i].(rrf := items[i].rrf + Share(views, cfg, s, i)) else items[i]
  }

  lemma CreditedMore(items: seq<Scored>, r: seq<Scored>, views: seq<View>, cfg: Config, s: Signal, done: seq<nat>, i: nat)
    requires cfg.rrfK > 0 && Credited(items, r, views, cfg, s, done) && i < |views| && i !in done
    ensures Credited(items, r[i := r[i].(rrf := r[i].rrf + Share(views, cfg, s, i))], views, cfg, s, done + [i])
  {
    hide Share;
  }

  /** One signal of `addRecallRRF`. */
  method AddSignal(items: seq<Scored>, cfg: Config, s: Signal, views: seq<View>) returns (r: seq<Scored>)
    requires Show(items, views) && cfg.rrfK > 0 && Weight(cfg, s) != 0.0
    ensures Show(r, views)
    ensures forall i | 0 <= i < |views| :: r[i] == items[i].(rrf := items[i].rrf + Share(views, cfg, s, i))
  {
    var indexes := Ranked(views, s);
    hide Ranked, Share, Weight, PositionOf, Credited, Credit, Sorted, Rank;
    RankedMembers(views, s);
    UnrankedShare(views, cfg, s);
    NoneCredited(items, views, cfg, s);
    r := items;
    for rank := 0 to |indexes|
      invariant |r| == |views| && Credited(items, r, views, cfg, s, indexes[..rank])
    {
      var i := indexes[rank];
      assert i in indexes && i !in indexes[..rank];
      PositionUnique(indexes, i, rank);
      ShareByRank(views, cfg, s, i, rank);
      CreditedMore(items, r, views, cfg, s, indexes[..rank], i);
      assert indexes[..rank + 1] == indexes[..rank] + [i];
      r := r[i := r[i].(rrf := r[i].rrf + Credit(cfg, s, rank))];
    }
    assert indexes[..|indexes|] == indexes;
    AllCredited(items, r, views, cfg, s, indexes);
  }

  lemma NoneCredited(items: seq<Scored>, views: seq<View>, cfg: Config, s: Signal)
    requires cfg.rrfK > 0 && |items| == |views|
    ensures Credited(items, items, views, cfg, s, [])
  {
  }

  lemma AllCredited(items: seq<Scored>, r: seq<Scored>, views: seq<View>, cfg: Config, s: Signal, ranked: seq<nat>)
    requires Show(items, views) && cfg.rrfK > 0 && Credited(items, r, views, cfg, s, ranked)
    requires forall i | 0 <= i < |views| && i !in ranked :: Share(views, cfg, s, i) == 0.0
    ensures Show(r, views)
    ensures forall i | 0 <= i < |views| :: r[i] == items[i].(rrf := items[i].rrf + Share(views, cfg, s, i))
  {
    hide Share;
  }

  lemma UnrankedShare(views: seq<View>, cfg: Config, s: Signal)
    requires cfg.rrfK > 0
    ensures forall i | 0 <= i < |views| && i !in Ranked(views, s) :: Share(views, cfg, s, i) == 0.0
  {
    hide Ranked, PositionOf;
  }

  lemma ShareByRank(views: seq<View>, cfg: Config, s: Signal, i: nat, rank: nat)
    requires i < |views| && cfg.rrfK > 0 && Weight(cfg, s) != 0.0
    requires i in Ranked(views, s) && PositionOf(Ranked(views, s), i) == rank
    ensures Share(views, cfg, s, i) == Credit(cfg, s, rank)
  {
    hide Ranked, PositionOf, Credit;
  }

  lemma PositionUnique(ranking: seq<nat>, i: nat, p: nat)
    requires forall a, b :: 0 <= a < b < |ranking| ==> ranking[a] != ranking[b]
    requires p < |ranking| && ranking[p] == i
    ensures i in ranking && PositionOf(ranking, i) == p
  {
    var q := PositionOf(ranking, i);
    assert !(q < p) && !(p < q);
  }

  /** `addRecallRRF`. */
  method AddRrf(items: seq<Scored>, cfg: Config, views: seq<View>) returns (r: seq<Scored>)
    requires Show(items, views) && cfg.rrfK > 0
    requires forall i | 0 <= i < |views| :: items[i].rrf == cfg.round(0.0)
    ensures Show(r, views)
    ensures forall i | 0 <= i < |views| :: r[i] == items[i].(rrf := Rrf(views, cfg, i))
  {
    hide Share;
    r := items;
    for n := 0 to |SIGNALS|
      invariant Show(r, views)
      invariant forall i | 0 <= i < |views| :: r[i] == items[i].(rrf := Fused(views, cfg, SIGNALS[..n], i))
    {
      var s := SIGNALS[n];
      FusedMore(views, cfg, n);
      ShareWithoutWeight(views, cfg, s);
      if Weight(cfg, s) != 0.0 {
        r := AddSignal(r, cfg, s, views);
      }
    }
    assert SIGNALS[..|SIGNALS|] == SIGNALS;
    for i := 0 to |r|
      invariant Show(r, views)
      invariant forall j | 0 <= j < |views| ::
        r[j] == items[j].(rrf := if j < i then Rrf(views, cfg, j) else Fused(views, cfg, SIGNALS, j))
    {
      r := r[i := r[i].(rrf := cfg.round(r[i].rrf))];
    }
  }

  lemma FusedMore(views: seq<View>, cfg: Config, n: nat)
    requires n < |SIGNALS| && cfg.rrfK > 0
    ensures forall i | 0 <= i < |views| ::
      Fused(views, cfg, SIGNALS[..n + 1], i) == Fused(views, cfg, SIGNALS[..n], i) + Share(views, cfg, SIGNALS[n], i)
  {
    hide Share;
    assert SIGNALS[..n + 1][..n] == SIGNALS[..n];
  }

  lemma ShareWithoutWeight(views: seq<View>, cfg: Config, s: Signal)
    requires cfg.rrfK > 0
    ensures Weight(cfg, s) == 0.0 ==> forall i | 0 <= i < |views| :: Share(views, cfg, s, i) == 0.0
  {
  }

  /** `score`: the candidates with their scores, best first. */
  method Score(cs: seq<Candidate>, q: Query, ms: Measures, cfg: Config, now: int) returns (out: seq<Scored>)
    requires cfg.rrfK > 0
    ensures out == ScoredCandidates(cs, q, ms, cfg, now)
  {
    hide Strongest, Weighted, ScopeScore;
    ghost var views := Views(cfg, ms, q, now, cs);
    var items := [];
    for i := 0 to |cs|
      invariant |items| == i
      invariant forall j | 0 <= j < i ::
        items[j] == Scored(views[j], cfg.round(0.0), cfg.round(Clamp(Weighted(views[j], cfg, SIGNALS))))
    {
      var c := cs[i];
      var keyword := MaxEvidenceScore(c.provenance, "keyword", ms.keyword(c.content, q.text));
      var semantic := MaxEvidenceScore(c.provenance, "semantic", 0.0);
      var graph := MaxEvidenceScore(c.provenance, "graph", 0.0);
      var fact := MaxEvidenceScore(c.provenance, "fact", 0.0);
      var view := View(c, cfg.round(keyword), cfg.round(semantic), cfg.round(graph), cfg.round(fact),
                       cfg.round(ms.recency(c.createdAt, now)), cfg.round(Clamp(c.importance)), cfg.round(ScopeScore(q, c)));
      items := items + [Scored(view, cfg.round(0.0), cfg.round(Clamp(Weighted(view, cfg, SIGNALS))))];
    }
    var shown := seq(|items|, i requires 0 <= i < |items| => items[i].view);
    assert shown == views;
    items := AddRrf(items, cfg, shown);
    hide Rrf;
    ghost var fused := items;
    for i := 0 to |items|
      invariant |items| == |views|
      invariant forall j | 0 <= j < |views| ::
        items[j] == if j < i then ScoreOf(views, cfg, j) else fused[j]
    {
      items := items[i := items[i].(final := cfg.round(items[i].final + items[i].rrf))];
    }
    assert items == seq(|views|, i requires 0 <= i < |views| => ScoreOf(views, cfg, i));
    out := StableSort(items, Outranks);
  }

  /** Every candidate with its scores, sorted. */
  function ScoredCandidates(cs: seq<Candidate>, q: Query, ms: Measures, cfg: Config, now: int): seq<Scored>
    requires cfg.rrfK > 0
  {
    var views := Views(cfg, ms, q, now, cs);
    StableSort(seq(|views|, i requires 0 <= i < |views| => ScoreOf(views, cfg, i)), Outranks)
  }

  // ----- Dominance -----

  /** At least as good on every signal, and earlier by id. */
  ghost predicate Dominates(a: View, b: View) {
    Text.Less(a.candidate.memoryId, b.candidate.memoryId) && forall s :: a.Get(s) >= b.Get(s)
  }

  lemma DominantRanksFirst(views: seq<View>, s: Signal, a: nat, b: nat)
    requires a < |views| && b < |views| && Dominates(views[a], views[b]) && b in Ranked(views, s)
    ensures a in Ranked(views, s)
    ensures PositionOf(Ranked(views, s), a) < PositionOf(Ranked(views, s), b)
  {
    RankedMembers(views, s);
    assert views[a].Get(s) >= views[b].Get(s);
    hide Ranked;
    var r := Ranked(views, s);
    var p, q := PositionOf(r, a), PositionOf(r, b);
    Asymmetric(views[a].candidate.memoryId, views[b].candidate.memoryId);
    SortedPlaces(r, Rank(views, s), p, q);
  }

  lemma Quotients(w: real, p: int, q: int)
    requires w >= 0.0 && 0 < p <= q
    ensures w / (p as real) >= w / (q as real) >= 0.0
  {
    var x, y := w / (p as real), w / (q as real);
    assert x * (p as real) == w == y * (q as real);
    Products(y, p as real, q as real);
    Cancel(p as real, y, x);
  }

  lemma Cancel(w: real, x: real, y: real)
    requires w > 0.0 && w * x <= w * y
    ensures x <= y
  {
    if y < x {
      Products(w, y, x);
    }
  }

  lemma Products(w: real, x: real, y: real)
    requires w >= 0.0 && x <= y
    ensures w * x <= w * y
    ensures w > 0.0 && x < y ==> w * x < w * y
  {
  }

  lemma DominantShare(views: seq<View>, cfg: Config, s: Signal, a: nat, b: nat)
    requires Sensible(cfg) && a < |views| && b < |views| && Dominates(views[a], views[b])
    ensures Share(views, cfg, s, a) >= Share(views, cfg, s, b)
  {
    var w := Weight(cfg, s);
    assert w >= 0.0;
    if b in Ranked(views, s) {
      DominantRanksFirst(views, s, a, b);
      Quotients(w, cfg.rrfK + PositionOf(Ranked(views, s), a) + 1, cfg.rrfK + PositionOf(Ranked(views, s), b) + 1);
    } else if a in Ranked(views, s) {
      var n := cfg.rrfK + PositionOf(Ranked(views, s), a) + 1;
      Quotients(w, n, n);
    }
  }

  lemma {:induction false} DominantFused(views: seq<View>, cfg: Config, signals: seq<Signal>, a: nat, b: nat)
    requires Sensible(cfg) && a < |views| && b < |views| && Dominates(views[a], views[b])
    ensures Fused(views, cfg, signals, a) >= Fused(views, cfg, signals, b)
  {
    if signals != [] {
      DominantFused(views, cfg, signals[..|signals| - 1], a, b);
      DominantShare(views, cfg, signals[|signals| - 1], a, b);
    }
  }

  lemma {:induction false} DominantWeighted(a: View, b: View, cfg: Config, signals: seq<Signal>)
    requires Sensible(cfg) && Dominates(a, b)
    ensures Weighted(a, cfg, signals) >= Weighted(b, cfg, signals)
  {
    if signals != [] {
      var s := signals[|signals| - 1];
      DominantWeighted(a, b, cfg, signals[..|signals| - 1]);
      assert a.Get(s) >= b.Get(s) && Weight(cfg, s) >= 0.0;
      Products(Weight(cfg, s), b.Get(s), a.Get(s));
    }
  }

  /** Ranking respects dominance: a candidate at least as good on every signal and earlier by id
      gets fused and final scores no smaller, and comes first in the comparison. */
  lemma DominantScore(views: seq<View>, cfg: Config, a: nat, b: nat)
    requires Sensible(cfg) && a < |views| && b < |views| && Dominates(views[a], views[b])
    ensures ScoreOf(views, cfg, a).rrf >= ScoreOf(views, cfg, b).rrf
    ensures ScoreOf(views, cfg, a).final >= ScoreOf(views, cfg, b).final
    ensures Outranks(ScoreOf(views, cfg, a), ScoreOf(views, cfg, b))
  {
    DominantFused(views, cfg, SIGNALS, a, b);
    DominantWeighted(views[a], views[b], cfg, SIGNALS);
    hide Fused, Weighted;
    var x, y := Clamp(Weighted(views[a], cfg, SIGNALS)), Clamp(Weighted(views[b], cfg, SIGNALS));
    assert cfg.round(x) >= cfg.round(y);
    assert Rrf(views, cfg, a) >= Rrf(views, cfg, b);
    assert cfg.round(cfg.round(x) + Rrf(views, cfg, a)) >= cfg.round(cfg.round(y) + Rrf(views, cfg, b));
  }

  lemma OutranksIsStrictWeak()
    ensures StrictWeak(Outranks)
  {
    forall x: Scored, y: Scored | Outranks(x, y) ensures !Outranks(y, x) {
      Asymmetric(x.view.candidate.memoryId, y.view.candidate.memoryId);
    }
    forall x: Scored, y: Scored, z: Scored | Outranks(x, z) ensures Outranks(x, y) || Outranks(y, z) {
      NegativelyTransitive(x.view.candidate.memoryId, y.view.candidate.memoryId, z.view.candidate.memoryId);
    }
  }

  /** In the scored list, the dominating candidate stands before the one it dominates. */
  lemma DominantListedFirst(views: seq<View>, cfg: Config, a: nat, b: nat, out: seq<Scored>, p: nat, q: nat)
    requires Sensible(cfg) && a < |views| && b < |views| && Dominates(views[a], views[b])
    requires out == StableSort(seq(|views|, i requires 0 <= i < |views| => ScoreOf(views, cfg, i)), Outranks)
    requires p < |out| && q < |out| && out[p] == ScoreOf(views, cfg, a) && out[q] == ScoreOf(views, cfg, b)
    ensures p < q
  {
    var items := seq(|views|, i requires 0 <= i < |views| => ScoreOf(views, cfg, i));
    OutranksIsStrictWeak();
    StableSortSorts(items, Outranks);
    DominantScore(views, cfg, a, b);
    hide ScoreOf, Outranks, StableSort;
    SortedPlaces(out, Outranks, p, q);
  }

  /** The list holds each candidate's score once, from the best down. */
  lemma ScoredList(views: seq<View>, cfg: Config)
    requires cfg.rrfK > 0
    ensures var items := seq(|views|, i requires 0 <= i < |views| => ScoreOf(views, cfg, i));
      && multiset(StableSort(items, Outranks)) == multiset(items)
      && Sorted(StableSort(items, Outranks), Outranks)
  {
    hide ScoreOf, Outranks;
    OutranksIsStrictWeak();
    var items := seq(|views|, i requires 0 <= i < |views| => ScoreOf(views, cfg, i));
    StableSortKeeps(items, Outranks);
    StableSortSorts(items, Outranks);
  }

  /** `b` has no evidence that `a` does not match with at least its score. */
  ghost predicate Outweighs(a: Candidate, b: Candidate) {
    forall e | e in b.provenance :: exists f | f in a.provenance :: f.kind == e.kind && f.score >= e.score
  }

  /** At least as good a candidate, on what signals are made of, and earlier by id. */
  ghost predicate BetterCandidate(ms: Measures, q: Query, now: int, a: Candidate, b: Candidate) {
    && Text.Less(a.memoryId, b.memoryId) && Outweighs(a, b)
    && ms.keyword(a.content, q.text) >= ms.keyword(b.content, q.text)
    && ms.recency(a.createdAt, now) >= ms.recency(b.createdAt, now)
    && a.importance >= b.importance && ScopeScore(q, a) >= ScopeScore(q, b)
  }

  lemma StrongerEvidence(a: Candidate, b: Candidate, kind: string, x: real, y: real)
    requires Outweighs(a, b) && x >= y
    ensures Strongest(a.provenance, kind, x) >= Strongest(b.provenance, kind, y)
  {
    StrongestMeaning(a.provenance, kind, x);
    StrongestMeaning(b.provenance, kind, y);
    hide Strongest;
    var best := Strongest(b.provenance, kind, y);
    if best != y {
      var e :| e in b.provenance && e.kind == kind && e.score == best;
      var f :| f in a.provenance && f.kind == e.kind && f.score >= e.score;
    }
  }

  /** Rounding and clamping keep the order, so the better candidate dominates on every signal. */
  lemma BetterCandidateDominates(cfg: Config, ms: Measures, q: Query, now: int, a: Candidate, b: Candidate)
    requires Sensible(cfg) && BetterCandidate(ms, q, now, a, b)
    ensures Dominates(ViewOf(cfg, ms, q, now, a), ViewOf(cfg, ms, q, now, b))
  {
    StrongerEvidence(a, b, "keyword", ms.keyword(a.content, q.text), ms.keyword(b.content, q.text));
    StrongerEvidence(a, b, "semantic", 0.0, 0.0);
    StrongerEvidence(a, b, "graph", 0.0, 0.0);
    StrongerEvidence(a, b, "fact", 0.0, 0.0);
    hide Strongest, Outweighs, ScopeScore;
    var (x, y) := (ViewOf(cfg, ms, q, now, a), ViewOf(cfg, ms, q, now, b));
    assert x.keyword >= y.keyword && x.semantic >= y.semantic && x.graph >= y.graph && x.fact >= y.fact;
    assert x.recency >= y.recency && x.importance >= y.importance && x.scope >= y.scope;
  }

  /** From candidates to the list: the better candidate gets scores no smaller and stands before the
      other. */
  lemma BetterCandidateListedFirst(cs: seq<Candidate>, q: Query, ms: Measures, cfg: Config, now: int, a: nat, b: nat,
                                   p: nat, r: nat)
    requires Sensible(cfg) && a < |cs| && b < |cs| && BetterCandidate(ms, q, now, cs[a], cs[b])
    requires var (views, out) := (Views(cfg, ms, q, now, cs), ScoredCandidates(cs, q, ms, cfg, now));
      p < |out| && r < |out| && out[p] == ScoreOf(views, cfg, a) && out[r] == ScoreOf(views, cfg, b)
    ensures p < r
    ensures var out := ScoredCandidates(cs, q, ms, cfg, now); out[p].final >= out[r].final && out[p].rrf >= out[r].rrf
  {
    var (views, out) := (Views(cfg, ms, q, now, cs), ScoredCandidates(cs, q, ms, cfg, now));
    BetterCandidateDominates(cfg, ms, q, now, cs[a], cs[b]);
    hide BetterCandidate, Dominates, ScoreOf, StableSort, Outranks, ViewOf, Sensible;
    DominantListedFirst(views, cfg, a, b, out, p, r);
    DominantScore(views, cfg, a, b);
  }
}
