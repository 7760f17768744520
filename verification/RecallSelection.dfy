/** service/recall_pipeline.go, selection: candidates out of scope are rejected, then the best
    of the rest is taken again and again until the limit is reached, each one only if it fits
    the token budget. The four adjustments that depend on text are parameters. */
module RecallSelection {
  import Text
  import opened RecallTypes

  datatype Reason = ScopeMismatch | TokenBudget | NotSelected

  datatype Rejected = Rejected(item: Scored, reason: Reason)

  /** The penalty and the bonus look at the candidates selected so far. */
  datatype Adjustments = Adjustments(diversityPenalty: (Candidate, seq<Candidate>) -> real,
                                     coverageBonus: (Candidate, seq<Candidate>) -> real,
                                     temporal: Candidate -> real, speaker: Candidate -> real,
                                     round: real -> real, tokens: string -> nat)

  datatype Policy = Policy(limit: nat, tokenBudget: int)

  const DEFAULT_LIMIT := 5

  /** `recallSelectionPolicyFor`. */
  function PolicyFor(q: Query, configBudget: int): (p: Policy)
    ensures p.limit > 0 && (q.limit > 0 ==> p.limit == q.limit) && (q.limit <= 0 ==> p.limit == 5)
    ensures p.tokenBudget > 0 <==> q.maxTokens > 0 || configBudget > 0
    ensures q.maxTokens > 0 ==> p.tokenBudget == q.maxTokens
    ensures q.maxTokens <= 0 ==> p.tokenBudget == configBudget
  {
    Policy(if q.limit <= 0 then DEFAULT_LIMIT else q.limit,
           if q.maxTokens > 0 then q.maxTokens else configBudget)
  }

  predicate Fits(p: Policy, used: nat, cost: nat) {
    p.tokenBudget <= 0 || used + cost <= p.tokenBudget
  }

  function Candidates(items: seq<Scored>): (r: seq<Candidate>)
    ensures |r| == |items| && forall i | 0 <= i < |items| :: r[i] == items[i].view.candidate
  {
    seq(|items|, i requires 0 <= i < |items| => items[i].view.candidate)
  }

  function Effective(adj: Adjustments, item: Scored, chosen: seq<Candidate>): real {
    item.final - adj.diversityPenalty(item.view.candidate, chosen) + adj.coverageBonus(item.view.candidate, chosen)
      + adj.temporal(item.view.candidate) + adj.speaker(item.view.candidate)
  }

  /** `applyRecallSelectionAdjustment` with the four adjustments. */
  function Adjusted(adj: Adjustments, item: Scored, chosen: seq<Candidate>): Scored {
    item.(final := adj.round(item.final - adj.round(adj.diversityPenalty(item.view.candidate, chosen))
                             + adj.coverageBonus(item.view.candidate, chosen)
                             + adj.temporal(item.view.candidate) + adj.speaker(item.view.candidate)))
  }

  /** The same with the penalty alone, as for what is left over. */
  function Penalized(adj: Adjustments, item: Scored, chosen: seq<Candidate>): Scored {
    item.(final := adj.round(item.final - adj.round(adj.diversityPenalty(item.view.candidate, chosen))))
  }

  /** Beside what has been chosen, `a` is the better pick. */
  predicate Better(adj: Adjustments, chosen: seq<Candidate>, a: Scored, b: Scored) {
    var (x, y) := (Effective(adj, a, chosen), Effective(adj, b, chosen));
    x > y || (x == y && Outranks(a, b))
  }

  lemma BetterTransitive(adj: Adjustments, chosen: seq<Candidate>, a: Scored, b: Scored, c: Scored)
    requires Better(adj, chosen, a, b) && Better(adj, chosen, b, c)
    ensures Better(adj, chosen, a, c)
  {
    var (x, y, z) := (a.view.candidate.memoryId, b.view.candidate.memoryId, c.view.candidate.memoryId);
    if Text.Less(x, y) && Text.Less(y, z) {
      Text.LessTransitive(x, y, z);
    }
  }

  lemma BetterIrreflexive(adj: Adjustments, chosen: seq<Candidate>, a: Scored)
    ensures !Better(adj, chosen, a, a)
  {
    Text.LessIrreflexive(a.view.candidate.memoryId);
  }

  /** `recallBestSelectionIndex`: nothing that remains is a better pick. */
  method BestIndex(adj: Adjustments, remaining: seq<Scored>, selected: seq<Scored>) returns (best: nat)
    requires remaining != []
    ensures best < |remaining|
    ensures forall i | 0 <= i < |remaining| :: !Better(adj, Candidates(selected), remaining[i], remaining[best])
  {
    var chosen := Candidates(selected);
    best := 0;
    var first, bestScore := true, 0.0;
    for i := 0 to |remaining|
      invariant first <==> i == 0
      invariant best < |remaining| && (i > 0 ==> best < i && bestScore == Effective(adj, remaining[best], chosen))
      invariant forall k | 0 <= k < i :: !Better(adj, chosen, remaining[k], remaining[best])
    {
      var score := Effective(adj, remaining[i], chosen);
      if first || score > bestScore || (score == bestScore && Outranks(remaining[i], remaining[best])) {
        BetterIrreflexive(adj, chosen, remaining[i]);
        forall k | 0 <= k < i ensures !Better(adj, chosen, remaining[k], remaining[i]) {
          if Better(adj, chosen, remaining[k], remaining[i]) {
            BetterTransitive(adj, chosen, remaining[k], remaining[i], remaining[best]);
          }
        }
        first, bestScore, best := false, score, i;
      }
    }
  }

  // ----- What selection promises -----

  function RejectedItems(rejected: seq<Rejected>): (r: seq<Scored>)
    ensures |r| == |rejected| && forall i | 0 <= i < |rejected| :: r[i] == rejected[i].item
  {
    seq(|rejected|, i requires 0 <= i < |rejected| => rejected[i].item)
  }

  function Tokens(adj: Adjustments, items: seq<Scored>): nat {
    if items == [] then 0
    else Tokens(adj, items[..|items| - 1]) + adj.tokens(items[|items| - 1].view.candidate.content)
  }

  /** Nobody is lost and nobody appears twice. */
  ghost predicate Conserves(scored: seq<Scored>, selected: seq<Scored>, rejected: seq<Rejected>, rest: seq<Scored>) {
    multiset(Candidates(scored)) ==
      multiset(Candidates(selected)) + multiset(Candidates(RejectedItems(rejected))) + multiset(Candidates(rest))
  }

  ghost predicate WithinLimits(adj: Adjustments, p: Policy, selected: seq<Scored>) {
    && |selected| <= p.limit
    && (p.tokenBudget > 0 ==> Tokens(adj, selected) <= p.tokenBudget)
  }

  /** Every rejection has its cause, which the final selection bears out. */
  ghost predicate Justified(adj: Adjustments, q: Query, p: Policy, selected: seq<Scored>, rejected: seq<Rejected>) {
    && (forall x | x in selected :: !OutOfScope(q, x.view.candidate))
    && (forall x | x in rejected ::
          match x.reason
          case ScopeMismatch => OutOfScope(q, x.item.view.candidate)
          case TokenBudget => !OutOfScope(q, x.item.view.candidate)
                              && !Fits(p, Tokens(adj, selected), adj.tokens(x.item.view.candidate.content))
          case NotSelected => !OutOfScope(q, x.item.view.candidate) && |selected| == p.limit)
  }

  /** One turn of the loop: what was picked, and how many had been selected before. */
  datatype Pick = Pick(item: Scored, before: nat)

  /** Each pick was the best of what was left then, beside those selected before it. */
  ghost predicate Greedy(adj: Adjustments, selected: seq<Scored>, picks: seq<Pick>, rest: seq<Scored>) {
    && (forall i | 0 <= i < |picks| :: picks[i].before <= |selected|)
    && (forall i, j | 0 <= i < j < |picks| ::
          !Better(adj, Candidates(selected[..picks[i].before]), picks[j].item, picks[i].item))
    && (forall i, x | 0 <= i < |picks| && x in rest ::
          !Better(adj, Candidates(selected[..picks[i].before]), x, picks[i].item))
  }

  /** What was picked and what remains are scored candidates as they came. */
  ghost predicate Drawn(scored: seq<Scored>, picks: seq<Pick>, rest: seq<Scored>) {
    && (forall x | x in rest :: x in scored)
    && (forall pick | pick in picks :: pick.item in scored)
  }

  /** Only what remained at the end is rejected as not selected. */
  ghost predicate LeftOver(rejected: seq<Rejected>, rest: seq<Scored>) {
    forall x | x in rejected && x.reason == NotSelected :: x.item.view.candidate in Candidates(rest)
  }

  /** The n-th selected item is the pick made with n selected before, adjusted. */
  ghost predicate Taken(adj: Adjustments, selected: seq<Scored>, picks: seq<Pick>, n: nat)
    requires n < |selected|
  {
    exists i :: 0 <= i < |picks| && picks[i].before == n &&
      selected[n] == Adjusted(adj, picks[i].item, Candidates(selected[..n]))
  }

  ghost predicate AllTaken(adj: Adjustments, selected: seq<Scored>, picks: seq<Pick>) {
    forall n | 0 <= n < |selected| :: Taken(adj, selected, picks, n)
  }

  // ----- One turn keeps the promises -----

  function Without(rest: seq<Scored>, i: nat): seq<Scored>
    requires i < |rest|
  {
    rest[..i] + rest[i + 1..]
  }

  lemma CandidatesSplit(rest: seq<Scored>, i: nat)
    requires i < |rest|
    ensures multiset(Candidates(rest)) == multiset(Candidates(Without(rest, i))) + multiset{rest[i].view.candidate}
  {
    var c := Candidates(rest);
    assert Candidates(Without(rest, i)) == c[..i] + c[i + 1..];
    assert c == c[..i] + [c[i]] + c[i + 1..];
  }

  lemma CandidatesHold(items: seq<Scored>, i: nat)
    requires i < |items|
    ensures items[i].view.candidate in Candidates(items)
  {
    assert Candidates(items)[i] == items[i].view.candidate;
  }

  lemma CandidatesAppend(items: seq<Scored>, x: Scored)
    ensures Candidates(items + [x]) == Candidates(items) + [x.view.candidate]
  {
  }

  lemma TokensAppend(adj: Adjustments, items: seq<Scored>, x: Scored)
    ensures Tokens(adj, items + [x]) == Tokens(adj, items) + adj.tokens(x.view.candidate.content)
  {
    assert (items + [x])[..|items|] == items;
  }

  lemma ConservesSelect(scored: seq<Scored>, selected: seq<Scored>, rejected: seq<Rejected>, rest: seq<Scored>,
                        i: nat, x: Scored)
    requires Conserves(scored, selected, rejected, rest) && i < |rest| && x.view.candidate == rest[i].view.candidate
    ensures Conserves(scored, selected + [x], rejected, Without(rest, i))
  {
    CandidatesSplit(rest, i);
    CandidatesAppend(selected, x);
    hide Candidates, Without;
  }

  lemma ConservesReject(scored: seq<Scored>, selected: seq<Scored>, rejected: seq<Rejected>, rest: seq<Scored>,
                        i: nat, x: Rejected)
    requires Conserves(scored, selected, rejected, rest) && i < |rest| && x.item.view.candidate == rest[i].view.candidate
    ensures Conserves(scored, selected, rejected + [x], Without(rest, i))
  {
    CandidatesSplit(rest, i);
    CandidatesAppend(RejectedItems(rejected), x.item);
    assert RejectedItems(rejected + [x]) == RejectedItems(rejected) + [x.item];
    hide Candidates, Without, RejectedItems;
  }

  lemma JustifiedSelect(adj: Adjustments, q: Query, p: Policy, selected: seq<Scored>, rejected: seq<Rejected>, x: Scored)
    requires Justified(adj, q, p, selected, rejected) && !OutOfScope(q, x.view.candidate)
    requires forall r | r in rejected :: r.reason != NotSelected
    ensures Justified(adj, q, p, selected + [x], rejected)
  {
    TokensAppend(adj, selected, x);
    hide OutOfScope, Tokens;
  }

  lemma MembersOfWithout(rest: seq<Scored>, i: nat)
    requires i < |rest|
    ensures forall x :: x in Without(rest, i) ==> x in rest
  {
  }

  lemma GreedySelect(adj: Adjustments, selected: seq<Scored>, picks: seq<Pick>, rest: seq<Scored>, i: nat, more: seq<Scored>)
    requires Greedy(adj, selected, picks, rest) && i < |rest|
    requires forall k | 0 <= k < |rest| :: !Better(adj, Candidates(selected), rest[k], rest[i])
    ensures Greedy(adj, selected + more, picks + [Pick(rest[i], |selected|)], Without(rest, i))
  {
    hide Better, Candidates;
    var picks', selected', rest' := picks + [Pick(rest[i], |selected|)], selected + more, Without(rest, i);
    forall k | 0 <= k < |picks'|
      ensures selected'[..picks'[k].before] == (if k < |picks| then selected[..picks[k].before] else selected)
    {
    }
    forall k, j | 0 <= k < j < |picks'|
      ensures !Better(adj, Candidates(selected'[..picks'[k].before]), picks'[j].item, picks'[k].item)
    {
      if j == |picks| {
        assert rest[i] in rest;
      }
    }
    forall k, x | 0 <= k < |picks'| && x in rest'
      ensures !Better(adj, Candidates(selected'[..picks'[k].before]), x, picks'[k].item)
    {
      MembersOfWithout(rest, i);
      if k == |picks| {
        var m :| 0 <= m < |rest| && rest[m] == x;
      }
    }
  }

  lemma TakenSelect(adj: Adjustments, selected: seq<Scored>, picks: seq<Pick>, item: Scored)
    requires AllTaken(adj, selected, picks)
    ensures AllTaken(adj, selected + [Adjusted(adj, item, Candidates(selected))], picks + [Pick(item, |selected|)])
  {
    hide Adjusted, Candidates;
    var picks', selected' := picks + [Pick(item, |selected|)], selected + [Adjusted(adj, item, Candidates(selected))];
    forall n | 0 <= n < |selected'| ensures Taken(adj, selected', picks', n) {
      assert selected'[..n] == selected[..n];
      if n < |selected| {
        assert Taken(adj, selected, picks, n);
        var i :| 0 <= i < |picks| && picks[i].before == n &&
          selected[n] == Adjusted(adj, picks[i].item, Candidates(selected[..n]));
        assert picks'[i] == picks[i];
      } else {
        assert picks'[|picks|] == Pick(item, |selected|) && selected[..n] == selected;
      }
    }
  }

  lemma TakenReject(adj: Adjustments, selected: seq<Scored>, picks: seq<Pick>, pick: Pick)
    requires AllTaken(adj, selected, picks)
    ensures AllTaken(adj, selected, picks + [pick])
  {
    hide Adjusted, Candidates;
    forall n | 0 <= n < |selected| ensures Taken(adj, selected, picks + [pick], n) {
      assert Taken(adj, selected, picks, n);
      var i :| 0 <= i < |picks| && picks[i].before == n &&
        selected[n] == Adjusted(adj, picks[i].item, Candidates(selected[..n]));
      assert (picks + [pick])[i] == picks[i];
    }
  }

  lemma JustifiedReject(adj: Adjustments, q: Query, p: Policy, selected: seq<Scored>, rejected: seq<Rejected>, x: Rejected)
    requires Justified(adj, q, p, selected, rejected) && !OutOfScope(q, x.item.view.candidate)
    requires || (x.reason == TokenBudget && !Fits(p, Tokens(adj, selected), adj.tokens(x.item.view.candidate.content)))
             || (x.reason == NotSelected && |selected| == p.limit)
    ensures Justified(adj, q, p, selected, rejected + [x])
  {
    hide OutOfScope, Tokens;
  }

  /** `recallScopeSelectionInputs`. */
  method ScopeInputs(q: Query, scored: seq<Scored>) returns (eligible: seq<Scored>, rejected: seq<Rejected>)
    ensures Conserves(scored, [], rejected, eligible)
    ensures forall x | x in eligible :: x in scored && !OutOfScope(q, x.view.candidate)
    ensures forall x | x in rejected :: x.reason == ScopeMismatch && OutOfScope(q, x.item.view.candidate)
  {
    hide OutOfScope, Candidates, RejectedItems;
    eligible, rejected := [], [];
    NobodyYet();
    for i := 0 to |scored|
      invariant Conserves(scored[..i], [], rejected, eligible)
      invariant forall x | x in eligible :: x in scored && !OutOfScope(q, x.view.candidate)
      invariant forall x | x in rejected :: x.reason == ScopeMismatch && OutOfScope(q, x.item.view.candidate)
    {
      assert scored[..i + 1] == scored[..i] + [scored[i]];
      CandidatesAppend(scored[..i], scored[i]);
      if OutOfScope(q, scored[i].view.candidate) {
        RejectedAppend(rejected, Rejected(scored[i], ScopeMismatch));
        rejected := rejected + [Rejected(scored[i], ScopeMismatch)];
      } else {
        CandidatesAppend(eligible, scored[i]);
        eligible := eligible + [scored[i]];
      }
    }
    assert scored[..|scored|] == scored;
  }

  lemma PromisesAtStart(adj: Adjustments, q: Query, p: Policy, scored: seq<Scored>, rejected: seq<Rejected>,
                        eligible: seq<Scored>)
    requires forall x | x in eligible :: x in scored
    requires forall x | x in rejected :: x.reason == ScopeMismatch && OutOfScope(q, x.item.view.candidate)
    ensures WithinLimits(adj, p, []) && Tokens(adj, []) == 0 && Justified(adj, q, p, [], rejected)
    ensures Greedy(adj, [], [], eligible) && AllTaken(adj, [], []) && Drawn(scored, [], eligible)
  {
  }

  lemma NobodyYet()
    ensures Conserves([], [], [], [])
  {
    assert Candidates([]) == [] && RejectedItems([]) == [];
  }

  lemma RejectedAppend(rejected: seq<Rejected>, x: Rejected)
    ensures Candidates(RejectedItems(rejected + [x])) == Candidates(RejectedItems(rejected)) + [x.item.view.candidate]
  {
    assert RejectedItems(rejected + [x]) == RejectedItems(rejected) + [x.item];
    CandidatesAppend(RejectedItems(rejected), x.item);
  }

  /** One turn: the i-th remaining candidate, which none of the others beats, leaves what remains
      and is selected, adjusted, if it fits beside the selected ones, and otherwise rejected. */
  ghost predicate Turn(adj: Adjustments, p: Policy, selected: seq<Scored>, rejected: seq<Rejected>, rest: seq<Scored>,
                       selected': seq<Scored>, rejected': seq<Rejected>, rest': seq<Scored>, i: nat)
  {
    && i < |rest| && rest' == Without(rest, i)
    && (forall k | 0 <= k < |rest| :: !Better(adj, Candidates(selected), rest[k], rest[i]))
    && var chosen := Adjusted(adj, rest[i], Candidates(selected));
       if Fits(p, Tokens(adj, selected), adj.tokens(rest[i].view.candidate.content))
       then selected' == selected + [chosen] && rejected' == rejected
       else selected' == selected && rejected' == rejected + [Rejected(chosen, TokenBudget)]
  }

  // ----- The flow -----

  class RecallSelectionFlow {
    const adj: Adjustments
    const query: Query
    const policy: Policy
    ghost const scored: seq<Scored>
    var remaining: seq<Scored>
    var selected: seq<Scored>
    var rejected: seq<Rejected>
    var usedTokens: nat
    ghost var picks: seq<Pick>

    ghost predicate Promises()
      reads this
    {
      && Conserves(scored, selected, rejected, remaining)
      && WithinLimits(adj, policy, selected) && usedTokens == Tokens(adj, selected)
      && Justified(adj, query, policy, selected, rejected)
      && Greedy(adj, selected, picks, remaining) && AllTaken(adj, selected, picks)
      && Drawn(scored, picks, remaining)
    }

    /** Before the leftovers are rejected. */
    ghost predicate Valid()
      reads this
    {
      && Promises() && policy.limit > 0
      && (forall x | x in remaining :: !OutOfScope(query, x.view.candidate))
      && (forall x | x in rejected :: x.reason != NotSelected)
    }

    /** `newRecallSelectionFlow`, with `recallScopeSelectionInputs`. */
    constructor (adj: Adjustments, query: Query, configBudget: int, scored: seq<Scored>)
      ensures Valid() && this.adj == adj && this.query == query && this.scored == scored
      ensures policy == PolicyFor(query, configBudget)
    {
      hide OutOfScope, Conserves, WithinLimits, Tokens, Justified, Greedy, AllTaken, PolicyFor, Drawn;
      var eligible, outside := ScopeInputs(query, scored);
      PromisesAtStart(adj, query, PolicyFor(query, configBudget), scored, outside, eligible);
      this.adj, this.query, this.policy, this.scored := adj, query, PolicyFor(query, configBudget), scored;
      selected, usedTokens, picks := [], 0, [];
      remaining, rejected := eligible, outside;
    }

    /** `selectNextCandidate`. */
    method SelectNext()
      requires Valid() && remaining != [] && |selected| < policy.limit
      modifies this
      ensures Valid()
      ensures exists i: nat :: Turn(adj, policy, old(selected), old(rejected), old(remaining), selected, rejected, remaining, i)
                               && picks == old(picks) + [Pick(old(remaining)[i], |old(selected)|)]
    {
      hide Conserves, Justified, Greedy, AllTaken, OutOfScope, Tokens, Better, Candidates;
      var best := BestIndex(adj, remaining, selected);
      var item := remaining[best];
      var chosen := Adjusted(adj, item, Candidates(selected));
      var cost := adj.tokens(chosen.view.candidate.content);
      MembersOfWithout(remaining, best);
      assert !OutOfScope(query, item.view.candidate);
      if !Fits(policy, usedTokens, cost) {
        var r := Rejected(chosen, TokenBudget);
        ConservesReject(scored, selected, rejected, remaining, best, r);
        JustifiedReject(adj, query, policy, selected, rejected, r);
        GreedySelect(adj, selected, picks, remaining, best, []);
        assert selected + [] == selected;
        TakenReject(adj, selected, picks, Pick(item, |selected|));
        rejected := rejected + [r];
      } else {
        ConservesSelect(scored, selected, rejected, remaining, best, chosen);
        JustifiedSelect(adj, query, policy, selected, rejected, chosen);
        GreedySelect(adj, selected, picks, remaining, best, [chosen]);
        TakenSelect(adj, selected, picks, item);
        TokensAppend(adj, selected, chosen);
        usedTokens := usedTokens + cost;
        selected := selected + [chosen];
      }
      picks := picks + [Pick(item, |old(selected)|)];
      remaining := remaining[..best] + remaining[best + 1..];
      assert Turn(adj, policy, old(selected), old(rejected), old(remaining), selected, rejected, remaining, best);
    }

    /** `rejectUnselectedRemainder`. */
    method RejectRemainder()
      requires Valid() && (|selected| == policy.limit || remaining == [])
      modifies `rejected
      ensures Conserves(scored, selected, rejected, [])
      ensures Justified(adj, query, policy, selected, rejected) && LeftOver(rejected, remaining)
    {
      hide Justified, OutOfScope, Tokens, Candidates, RejectedItems, Greedy, AllTaken;
      for i := 0 to |remaining|
        invariant Conserves(scored, selected, rejected, remaining[i..])
        invariant Justified(adj, query, policy, selected, rejected)
        invariant LeftOver(rejected, remaining)
      {
        CandidatesHold(remaining, i);
        assert remaining[i..][1..] == remaining[i + 1..];
        assert Without(remaining[i..], 0) == remaining[i + 1..];
        assert remaining[i] in remaining;
        var x := Rejected(Penalized(adj, remaining[i], Candidates(selected)), NotSelected);
        ConservesReject(scored, selected, rejected, remaining[i..], 0, x);
        JustifiedReject(adj, query, policy, selected, rejected, x);
        rejected := rejected + [x];
      }
      assert remaining[|remaining|..] == [];
    }

    /** `run`: the selected and the rejected are the scored candidates, each once; the selection
        is within limit and budget; each rejection is justified by the final selection; and each
        pick was the best of what was then left. */
    method Run()
      requires Valid()
      modifies this
      ensures Conserves(scored, selected, rejected, [])
      ensures WithinLimits(adj, policy, selected)
      ensures Justified(adj, query, policy, selected, rejected)
      ensures Greedy(adj, selected, picks, remaining) && AllTaken(adj, selected, picks)
      ensures Drawn(scored, picks, remaining) && LeftOver(rejected, remaining)
    {
      while |selected| < policy.limit && |remaining| > 0
        invariant Valid()
        decreases |remaining|
      {
        SelectNext();
      }
      RejectRemainder();
    }
  }

  // ----- Consequences -----

  /** No token-rejected candidate would fit beside the final selection, and the selection is as
      large as the limit unless everything in scope was selected or did not fit. */
  lemma SelectionIsMaximal(adj: Adjustments, q: Query, p: Policy, scored: seq<Scored>,
                           selected: seq<Scored>, rejected: seq<Rejected>, c: Candidate)
    requires Conserves(scored, selected, rejected, []) && Justified(adj, q, p, selected, rejected)
    requires c in Candidates(scored) && c !in Candidates(selected)
    ensures OutOfScope(q, c) || |selected| == p.limit
            || (p.tokenBudget > 0 && Tokens(adj, selected) + adj.tokens(c.content) > p.tokenBudget)
  {
    hide OutOfScope, Tokens;
    assert c in multiset(Candidates(scored));
    var items := RejectedItems(rejected);
    assert c in multiset(Candidates(items));
    var i :| 0 <= i < |items| && Candidates(items)[i] == c;
    assert rejected[i] in rejected;
  }
}
