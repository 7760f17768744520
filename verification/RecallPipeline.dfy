/** service/recall_pipeline.go, the pipeline: what scoring makes of the candidates goes through
    selection. */
module RecallPipeline {
  import opened RecallRanking
  import opened RecallSelection
  import opened RecallTypes
  import opened Sorting

  /** What the two stages promise together about candidates `cs`. */
  ghost predicate Outcome(cs: seq<Candidate>, q: Query, ms: Measures, cfg: Config, now: int, adj: Adjustments, p: Policy,
                          selected: seq<Scored>, rejected: seq<Rejected>, picks: seq<Pick>, rest: seq<Scored>)
    requires cfg.rrfK > 0
  {
    var scored := ScoredCandidates(cs, q, ms, cfg, now);
    && Conserves(scored, selected, rejected, []) && WithinLimits(adj, p, selected)
    && Justified(adj, q, p, selected, rejected) && Greedy(adj, selected, picks, rest) && AllTaken(adj, selected, picks)
    && Drawn(scored, picks, rest) && LeftOver(rejected, rest)
  }

  /** `Run`, from the generated candidates on. */
  method ScoreAndSelect(cs: seq<Candidate>, q: Query, ms: Measures, cfg: Config, now: int, adj: Adjustments, budget: int)
    returns (selected: seq<Scored>, rejected: seq<Rejected>, ghost picks: seq<Pick>, ghost rest: seq<Scored>)
    requires cfg.rrfK > 0
    ensures Outcome(cs, q, ms, cfg, now, adj, PolicyFor(q, budget), selected, rejected, picks, rest)
    ensures multiset(cs) == multiset(Candidates(selected)) + multiset(Candidates(RejectedItems(rejected)))
  {
    hide Conserves, WithinLimits, Justified, Greedy, AllTaken, Drawn, LeftOver, ScoredCandidates;
    var scored := Score(cs, q, ms, cfg, now);
    var flow := new RecallSelectionFlow(adj, q, budget, scored);
    flow.Run();
    selected, rejected, picks, rest := flow.selected, flow.rejected, flow.picks, flow.remaining;
    NobodyIsLost(cs, q, ms, cfg, now, selected, rejected);
  }

  // ----- Nobody is lost -----

  /** Taking out an element. */
  lemma TakenOut(t: seq<Scored>, x: Scored) returns (i: nat)
    requires x in t
    ensures i < |t| && t[i] == x && multiset(t) == multiset{x} + multiset(Without(t, i))
  {
    i :| 0 <= i < |t| && t[i] == x;
    assert t == t[..i] + [t[i]] + t[i + 1..];
  }

  lemma {:induction false} CandidatesPermute(s: seq<Scored>, t: seq<Scored>)
    requires multiset(s) == multiset(t)
    ensures multiset(Candidates(s)) == multiset(Candidates(t))
    decreases |s|
  {
    hide Candidates, Without;
    if s == [] {
      assert |t| == |multiset(t)| == 0;
    } else {
      assert s[0] in multiset(s);
      var j := TakenOut(s, s[0]);
      var i := TakenOut(t, s[0]);
      ShorterWithout(s, j);
      assert multiset(Without(s, j)) == multiset(s) - multiset{s[0]} == multiset(Without(t, i));
      CandidatesPermute(Without(s, j), Without(t, i));
      CandidatesSplit(t, i);
      CandidatesSplit(s, j);
    }
  }

  lemma ShorterWithout(s: seq<Scored>, j: nat)
    requires j < |s|
    ensures |Without(s, j)| < |s|
  {
  }

  lemma ScoredAre(cs: seq<Candidate>, q: Query, ms: Measures, cfg: Config, now: int)
    requires cfg.rrfK > 0
    ensures multiset(Candidates(ScoredCandidates(cs, q, ms, cfg, now))) == multiset(cs)
  {
    var views := Views(cfg, ms, q, now, cs);
    hide Rrf, Weighted, Strongest, ScopeScore, StableSort, Outranks;
    var items := seq(|views|, i requires 0 <= i < |views| => ScoreOf(views, cfg, i));
    StableSortKeeps(items, Outranks);
    CandidatesPermute(StableSort(items, Outranks), items);
    assert Candidates(items) == cs;
  }

  /** The candidates are the selected and the rejected, each once. */
  lemma NobodyIsLost(cs: seq<Candidate>, q: Query, ms: Measures, cfg: Config, now: int,
                     selected: seq<Scored>, rejected: seq<Rejected>)
    requires cfg.rrfK > 0 && Conserves(ScoredCandidates(cs, q, ms, cfg, now), selected, rejected, [])
    ensures multiset(cs) == multiset(Candidates(selected)) + multiset(Candidates(RejectedItems(rejected)))
  {
    ScoredAre(cs, q, ms, cfg, now);
    assert Candidates([]) == [];
    hide Candidates, RejectedItems, ScoredCandidates;
  }

  // ----- Nobody better is passed over -----

  ghost predicate DistinctIds(cs: seq<Candidate>) {
    forall i, j :: 0 <= i < j < |cs| ==> cs[i].memoryId != cs[j].memoryId
  }

  /** Whatever has been chosen, the adjustments treat `a` no worse than `b`. */
  ghost predicate AdjustsNoWorse(adj: Adjustments, a: Candidate, b: Candidate) {
    forall chosen :: Adjustment(adj, a, chosen) >= Adjustment(adj, b, chosen)
  }

  function Adjustment(adj: Adjustments, c: Candidate, chosen: seq<Candidate>): real {
    adj.coverageBonus(c, chosen) - adj.diversityPenalty(c, chosen) + adj.temporal(c) + adj.speaker(c)
  }

  /** Scope is scored by the same comparison that later excludes: what is out of scope scores 0. */
  lemma OutOfScopeScoresNothing(q: Query, c: Candidate)
    ensures OutOfScope(q, c) <==> ScopeScore(q, c) == 0.0
  {
  }

  /** An element of the scored list is the score of the candidate it holds. */
  lemma ScoredIs(cs: seq<Candidate>, q: Query, ms: Measures, cfg: Config, now: int, x: Scored, a: nat)
    requires cfg.rrfK > 0 && DistinctIds(cs) && a < |cs|
    requires x in ScoredCandidates(cs, q, ms, cfg, now) && x.view.candidate == cs[a]
    ensures x == ScoreOf(Views(cfg, ms, q, now, cs), cfg, a)
  {
    var views := Views(cfg, ms, q, now, cs);
    var items := seq(|views|, i requires 0 <= i < |views| => ScoreOf(views, cfg, i));
    StableSortMembers(items, Outranks);
    hide Rrf, Weighted, Strongest, ScopeScore, StableSort, Outranks;
    var i :| 0 <= i < |items| && items[i] == x;
    OneIndex(cs, i, a);
  }

  lemma OneIndex(cs: seq<Candidate>, i: nat, j: nat)
    requires DistinctIds(cs) && i < |cs| && j < |cs| && cs[i] == cs[j]
    ensures i == j
  {
  }

  /** The better candidate is the better pick beside any chosen ones. */
  lemma BetterPick(cs: seq<Candidate>, q: Query, ms: Measures, cfg: Config, now: int, adj: Adjustments,
                   a: nat, b: nat, x: Scored, y: Scored, chosen: seq<Candidate>)
    requires Sensible(cfg) && DistinctIds(cs) && a < |cs| && b < |cs|
    requires BetterCandidate(ms, q, now, cs[a], cs[b]) && AdjustsNoWorse(adj, cs[a], cs[b])
    requires x in ScoredCandidates(cs, q, ms, cfg, now) && x.view.candidate == cs[a]
    requires y in ScoredCandidates(cs, q, ms, cfg, now) && y.view.candidate == cs[b]
    ensures Better(adj, chosen, x, y)
  {
    var views := Views(cfg, ms, q, now, cs);
    ScoredIs(cs, q, ms, cfg, now, x, a);
    ScoredIs(cs, q, ms, cfg, now, y, b);
    BetterCandidateDominates(cfg, ms, q, now, cs[a], cs[b]);
    hide ScoreOf, Views, ScoredCandidates, BetterCandidate, Dominates, ViewOf, Sensible, Outranks;
    DominantScore(views, cfg, a, b);
    assert Adjustment(adj, cs[a], chosen) >= Adjustment(adj, cs[b], chosen);
    assert Effective(adj, x, chosen) == x.final + Adjustment(adj, cs[a], chosen);
    assert Effective(adj, y, chosen) == y.final + Adjustment(adj, cs[b], chosen);
  }

  /** A selected candidate was picked, as it had been scored. */
  lemma SelectedWasPicked(adj: Adjustments, scored: seq<Scored>, selected: seq<Scored>, picks: seq<Pick>, rest: seq<Scored>,
                          c: Candidate) returns (i: nat)
    requires AllTaken(adj, selected, picks) && Drawn(scored, picks, rest) && c in Candidates(selected)
    ensures i < |picks| && picks[i].item.view.candidate == c && picks[i].item in scored
  {
    var n :| 0 <= n < |selected| && Candidates(selected)[n] == c;
    assert Taken(adj, selected, picks, n);
    i :| 0 <= i < |picks| && picks[i].before == n &&
      selected[n] == Adjusted(adj, picks[i].item, Candidates(selected[..n]));
    assert picks[i] in picks;
  }

  /** The better candidate does not remain once the worse one is selected. */
  lemma BetterDoesNotRemain(cs: seq<Candidate>, q: Query, ms: Measures, cfg: Config, now: int, adj: Adjustments, p: Policy,
                            selected: seq<Scored>, rejected: seq<Rejected>, picks: seq<Pick>, rest: seq<Scored>, a: nat, b: nat)
    requires Sensible(cfg) && DistinctIds(cs) && a < |cs| && b < |cs|
    requires Outcome(cs, q, ms, cfg, now, adj, p, selected, rejected, picks, rest)
    requires BetterCandidate(ms, q, now, cs[a], cs[b]) && AdjustsNoWorse(adj, cs[a], cs[b])
    requires cs[b] in Candidates(selected)
    ensures cs[a] !in Candidates(rest)
  {
    hide Conserves, WithinLimits, Justified, ScoredCandidates, BetterCandidate, AdjustsNoWorse, Better, DistinctIds,
      AllTaken, LeftOver;
    var i := SelectedWasPicked(adj, ScoredCandidates(cs, q, ms, cfg, now), selected, picks, rest, cs[b]);
    forall k | 0 <= k < |rest| ensures rest[k].view.candidate != cs[a] {
      var chosen := Candidates(selected[..picks[i].before]);
      assert rest[k] in rest && !Better(adj, chosen, rest[k], picks[i].item);
      if rest[k].view.candidate == cs[a] {
        BetterPick(cs, q, ms, cfg, now, adj, a, b, rest[k], picks[i].item, chosen);
      }
    }
  }

  /** If a candidate is selected, no better one is passed over: it is selected too, or it did not fit
      the token budget; without a budget it is selected. */
  lemma BetterIsNotPassedOver(cs: seq<Candidate>, q: Query, ms: Measures, cfg: Config, now: int, adj: Adjustments, p: Policy,
                              selected: seq<Scored>, rejected: seq<Rejected>, picks: seq<Pick>, rest: seq<Scored>,
                              a: nat, b: nat)
    requires Sensible(cfg) && DistinctIds(cs) && a < |cs| && b < |cs|
    requires Outcome(cs, q, ms, cfg, now, adj, p, selected, rejected, picks, rest)
    requires BetterCandidate(ms, q, now, cs[a], cs[b]) && AdjustsNoWorse(adj, cs[a], cs[b])
    requires cs[b] in Candidates(selected)
    ensures cs[a] in Candidates(selected)
            || (p.tokenBudget > 0 && Tokens(adj, selected) + adj.tokens(cs[a].content) > p.tokenBudget)
  {
    BetterDoesNotRemain(cs, q, ms, cfg, now, adj, p, selected, rejected, picks, rest, a, b);
    NobodyIsLost(cs, q, ms, cfg, now, selected, rejected);
    InScope(adj, q, p, selected, rejected, cs[b]);
    OutOfScopeScoresNothing(q, cs[a]);
    OutOfScopeScoresNothing(q, cs[b]);
    ScopeNotNegative(q, cs[b]);
    assert !OutOfScope(q, cs[a]);
    hide *;
    var chosen := Candidates(selected);
    if cs[a] !in chosen {
      assert cs[a] in multiset(cs) && cs[a] !in multiset(chosen);
      assert cs[a] in multiset(Candidates(RejectedItems(rejected)));
      WhyRejected(adj, q, p, selected, rejected, rest, cs[a]);
    }
  }

  /** A rejected candidate that is in scope and was not left over did not fit. */
  lemma WhyRejected(adj: Adjustments, q: Query, p: Policy, selected: seq<Scored>, rejected: seq<Rejected>,
                    rest: seq<Scored>, c: Candidate)
    requires Justified(adj, q, p, selected, rejected) && LeftOver(rejected, rest) && c !in Candidates(rest)
    requires c in Candidates(RejectedItems(rejected)) && !OutOfScope(q, c)
    ensures p.tokenBudget > 0 && Tokens(adj, selected) + adj.tokens(c.content) > p.tokenBudget
  {
    hide OutOfScope, Tokens;
    var items := RejectedItems(rejected);
    var i :| 0 <= i < |items| && Candidates(items)[i] == c;
    assert rejected[i] in rejected && rejected[i].item.view.candidate == c;
  }

  lemma InScope(adj: Adjustments, q: Query, p: Policy, selected: seq<Scored>, rejected: seq<Rejected>, c: Candidate)
    requires Justified(adj, q, p, selected, rejected) && c in Candidates(selected)
    ensures !OutOfScope(q, c)
  {
    hide OutOfScope, Tokens;
    var n :| 0 <= n < |selected| && Candidates(selected)[n] == c;
    assert selected[n] in selected;
  }

  lemma ScopeNotNegative(q: Query, c: Candidate)
    ensures ScopeScore(q, c) >= 0.0
  {
  }
}
