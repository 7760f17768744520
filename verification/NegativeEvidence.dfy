/** service/negative_evidence_candidates.go: repeated tool failures that no later success has
    settled become candidates for negative memory, one per scope. Times are nanoseconds; 0 is
    Go's zero time, which stands for a missing one. */
module NegativeEvidence {
  import opened Text
  import opened Sorting
  import Finite

  datatype Option<T> = None | Some(value: T)

  datatype Kind = ToolError | ToolResult | Custom | ToolCall | OtherKind(name: string)

  datatype Observation = Observation(id: string, kind: Kind, workspace: string, profile: string, peer: string,
                                     session: string, metadata: map<string, string>, success: Option<bool>, at: int)

  datatype Scope = Scope(workspace: string, profile: string, peer: string, session: string, tool: string)

  datatype Ref = Ref(id: string, at: int)

  datatype Candidate = Candidate(scope: Scope, failures: nat, evidenceIds: seq<string>, first: int, last: int)

  /** The projection's workspace, and the text functions: the normal form of a tool name, the
      name of a kind, and the text candidates are ordered by last. */
  datatype Env = Env(workspace: string, toolName: string -> string, kindName: Kind -> string,
                     show: Candidate -> string)

  const ZERO := 0

  // ----- Signals -----

  predicate Capable(k: Kind) {
    k.ToolError? || k.ToolResult? || k.Custom? || k.ToolCall?
  }

  function ToolOf(env: Env, o: Observation): string {
    var tool := if "tool_name" in o.metadata then env.toolName(o.metadata["tool_name"]) else env.toolName("");
    var custom := if "custom_kind" in o.metadata then env.toolName(o.metadata["custom_kind"]) else env.toolName("");
    if tool != "" then tool else if custom != "" then custom else env.kindName(o.kind)
  }

  function ScopeOf(env: Env, o: Observation): Scope {
    var w := TrimSpace(o.workspace);
    Scope(if w == "" then TrimSpace(env.workspace) else w, TrimSpace(o.profile), TrimSpace(o.peer),
          TrimSpace(o.session), ToolOf(env, o))
  }

  predicate IsFailure(o: Observation) {
    && o.success != Some(true)
    && (o.kind.ToolError? || (o.success == Some(false) && Capable(o.kind)))
    && TrimSpace(o.id) != ""
  }

  predicate IsSuccess(o: Observation) {
    o.success == Some(true) && Capable(o.kind)
  }

  // ----- The meaning -----

  /** The observation is a success of the scope after `at`. Missing times settle nothing. */
  predicate SettledBy(env: Env, o: Observation, scope: Scope, at: int) {
    IsSuccess(o) && ScopeOf(env, o) == scope && at != ZERO && o.at > ZERO && o.at > at
  }

  predicate SettledAfter(env: Env, obs: seq<Observation>, scope: Scope, at: int) {
    exists o | o in obs :: SettledBy(env, o, scope, at)
  }

  /** The observation is a failure of the scope that no later success has settled. */
  predicate Counts(env: Env, obs: seq<Observation>, scope: Scope, o: Observation) {
    IsFailure(o) && ScopeOf(env, o) == scope && !SettledAfter(env, obs, scope, o.at)
  }

  /** The ids that count against the scope. */
  function FailIds(env: Env, obs: seq<Observation>, scope: Scope): set<string> {
    set o | o in obs && Counts(env, obs, scope, o) :: TrimSpace(o.id)
  }

  /** What the first n observations leave in the scope's bucket: each counting id once, with the
      time it was first seen at. */
  function Refs(env: Env, obs: seq<Observation>, scope: Scope, n: nat): seq<Ref>
    requires n <= |obs|
  {
    if n == 0 then []
    else
      var before := Refs(env, obs, scope, n - 1);
      var o := obs[n - 1];
      if Counts(env, obs, scope, o) && !Has(before, TrimSpace(o.id)) then before + [Ref(TrimSpace(o.id), o.at)] else before
  }

  predicate Has(refs: seq<Ref>, id: string) {
    exists r | r in refs :: r.id == id
  }

  /** ORDER of evidence: missing times last, then by time, then by id. */
  predicate Precedes(a: Ref, b: Ref) {
    if (a.at == ZERO) != (b.at == ZERO) then a.at != ZERO
    else a.at < b.at || (a.at == b.at && Less(a.id, b.id))
  }

  function Ids(refs: seq<Ref>): (ids: seq<string>)
    ensures |ids| == |refs| && forall i | 0 <= i < |refs| :: ids[i] == refs[i].id
  {
    seq(|refs|, i requires 0 <= i < |refs| => refs[i].id)
  }

  function First(refs: seq<Ref>): int {
    if refs == [] then ZERO
    else
      var (f, at) := (First(refs[..|refs| - 1]), refs[|refs| - 1].at);
      if at != ZERO && (f == ZERO || at < f) then at else f
  }

  function Last(refs: seq<Ref>): int {
    if refs == [] then ZERO
    else
      var (l, at) := (Last(refs[..|refs| - 1]), refs[|refs| - 1].at);
      if at != ZERO && at > l then at else l
  }

  function CandidateFor(scope: Scope, refs: seq<Ref>): Candidate {
    Candidate(scope, |refs|, Ids(StableSort(refs, Precedes)), First(refs), Last(refs))
  }

  function CandidateOf(env: Env, obs: seq<Observation>, scope: Scope): Candidate {
    CandidateFor(scope, Refs(env, obs, scope, |obs|))
  }

  function MinFailures(n: int): nat {
    if n <= 0 then 2 else n
  }

  // ----- Latest successes -----

  /** `negativeEvidenceLatestSuccessByScope`. */
  method LatestSuccesses(env: Env, obs: seq<Observation>) returns (latest: map<Scope, int>)
    ensures forall s, at :: Settles(latest, s, at) <==> SettledAfter(env, obs, s, at)
  {
    hide ScopeOf, IsSuccess, SettledAfter, SettledBy, Settles;
    latest := map[];
    NothingSettled(env);
    for i := 0 to |obs|
      invariant forall s | s in latest :: latest[s] > ZERO
      invariant forall s, at :: Settles(latest, s, at) <==> SettledAfter(env, obs[..i], s, at)
    {
      var o := obs[i];
      var k := ScopeOf(env, o);
      SettledMore(env, obs, i);
      LatestMore(env, latest, o);
      ghost var before := latest;
      if IsSuccess(o) && o.at != ZERO {
        if o.at > (if k in latest then latest[k] else ZERO) {
          latest := latest[k := o.at];
        }
      }
      forall s, at ensures Settles(latest, s, at) <==> SettledAfter(env, obs[..i + 1], s, at) {
        assert Settles(latest, s, at) <==> Settles(before, s, at) || SettledBy(env, o, s, at);
      }
    }
    assert obs[..|obs|] == obs;
  }

  lemma LatestMore(env: Env, latest: map<Scope, int>, o: Observation)
    requires forall s | s in latest :: latest[s] > ZERO
    ensures var k := ScopeOf(env, o);
      var later := IsSuccess(o) && o.at != ZERO && o.at > (if k in latest then latest[k] else ZERO);
      forall s, at :: Settles(if later then latest[k := o.at] else latest, s, at) <==>
        Settles(latest, s, at) || SettledBy(env, o, s, at)
  {
    hide ScopeOf, IsSuccess;
  }

  /** `negativeEvidenceFailureResolvedByLaterSuccess`, the map giving zero for a missing scope. */
  predicate Settles(latest: map<Scope, int>, s: Scope, at: int) {
    at != ZERO && s in latest && latest[s] != ZERO && latest[s] > at
  }

  lemma NothingSettled(env: Env)
    ensures forall s, at :: !SettledAfter(env, [], s, at) && !Settles(map[], s, at)
  {
  }

  lemma SettledMore(env: Env, obs: seq<Observation>, i: nat)
    requires i < |obs|
    ensures forall s, at :: SettledAfter(env, obs[..i + 1], s, at) <==>
      SettledAfter(env, obs[..i], s, at) || SettledBy(env, obs[i], s, at)
  {
    hide SettledBy;
    assert obs[..i + 1] == obs[..i] + [obs[i]];
    forall s, at ensures SettledAfter(env, obs[..i + 1], s, at) <==>
      SettledAfter(env, obs[..i], s, at) || SettledBy(env, obs[i], s, at)
    {
      if SettledAfter(env, obs[..i + 1], s, at) {
        var o :| o in obs[..i + 1] && SettledBy(env, o, s, at);
        assert o in obs[..i] || o == obs[i];
      }
      assert obs[i] in obs[..i + 1];
    }
  }

  // ----- Buckets -----

  datatype Bucket = Bucket(failures: nat, refs: seq<Ref>, seen: set<string>, first: int, last: int)

  /** The bucket that a run of recorded failures leaves. */
  ghost predicate Holds(b: Bucket, refs: seq<Ref>) {
    && b.refs == refs && b.failures == |refs| && b.first == First(refs) && b.last == Last(refs)
    && forall id :: id in b.seen <==> Has(refs, id)
  }

  /** `negativeEvidenceBucketObservation`, past the tests: one unsettled failure is recorded. */
  method Record(buckets: map<Scope, Bucket>, k: Scope, id: string, at: int, ghost refs: seq<Ref>)
    returns (r: map<Scope, Bucket>)
    requires if k in buckets then Holds(buckets[k], refs) else refs == []
    ensures k in r && Holds(r[k], if Has(refs, id) then refs else refs + [Ref(id, at)])
    ensures forall s | s != k :: (s in r <==> s in buckets) && (s in r ==> r[s] == buckets[s])
  {
    var b := if k in buckets then buckets[k] else Bucket(0, [], {}, ZERO, ZERO);
    r := buckets[k := b];
    HoldsMore(refs, id, at);
    if id !in b.seen {
      b := b.(seen := b.seen + {id}, failures := b.failures + 1, refs := b.refs + [Ref(id, at)]);
      if at != ZERO && (b.first == ZERO || at < b.first) {
        b := b.(first := at);
      }
      if at != ZERO && at > b.last {
        b := b.(last := at);
      }
      r := r[k := b];
    }
  }

  lemma HoldsMore(refs: seq<Ref>, id: string, at: int)
    ensures var more := refs + [Ref(id, at)];
      && First(more) == (if at != ZERO && (First(refs) == ZERO || at < First(refs)) then at else First(refs))
      && Last(more) == (if at != ZERO && at > Last(refs) then at else Last(refs))
      && (forall x :: Has(more, x) <==> Has(refs, x) || x == id)
      && (Has(refs, id) ==> refs != [])
  {
    var more := refs + [Ref(id, at)];
    assert more[..|refs|] == refs;
    forall x ensures Has(more, x) <==> Has(refs, x) || x == id {
      assert Ref(id, at) in more;
      assert forall r :: r in more <==> r in refs || r == Ref(id, at);
    }
  }

  /** Every scope's bucket is what its counting failures leave; scopes without one have none. */
  ghost predicate Bucketed(env: Env, obs: seq<Observation>, buckets: map<Scope, Bucket>, n: nat)
    requires n <= |obs|
  {
    forall s :: if s in buckets then Refs(env, obs, s, n) != [] && Holds(buckets[s], Refs(env, obs, s, n))
                else Refs(env, obs, s, n) == []
  }

  lemma BucketedSkip(env: Env, obs: seq<Observation>, buckets: map<Scope, Bucket>, i: nat)
    requires i < |obs| && Bucketed(env, obs, buckets, i)
    requires forall s :: !Counts(env, obs, s, obs[i])
    ensures Bucketed(env, obs, buckets, i + 1)
  {
    hide Counts, Holds, Has, TrimSpace;
    forall s ensures Refs(env, obs, s, i + 1) == Refs(env, obs, s, i) {
    }
  }

  lemma BucketedMore(env: Env, obs: seq<Observation>, before: map<Scope, Bucket>, after: map<Scope, Bucket>, i: nat, k: Scope)
    requires i < |obs| && Bucketed(env, obs, before, i)
    requires forall s :: Counts(env, obs, s, obs[i]) <==> s == k
    requires var (refs, id) := (Refs(env, obs, k, i), TrimSpace(obs[i].id));
      k in after && Holds(after[k], if Has(refs, id) then refs else refs + [Ref(id, obs[i].at)])
    requires forall s | s != k :: (s in after <==> s in before) && (s in after ==> after[s] == before[s])
    ensures Bucketed(env, obs, after, i + 1)
  {
    hide Counts, Holds, Has, TrimSpace;
    HoldsMore(Refs(env, obs, k, i), TrimSpace(obs[i].id), obs[i].at);
    forall s ensures if s in after then Refs(env, obs, s, i + 1) != [] && Holds(after[s], Refs(env, obs, s, i + 1))
                     else Refs(env, obs, s, i + 1) == []
    {
      if s != k {
        assert Refs(env, obs, s, i + 1) == Refs(env, obs, s, i);
      }
    }
  }

  method FillBuckets(env: Env, obs: seq<Observation>) returns (buckets: map<Scope, Bucket>)
    ensures Bucketed(env, obs, buckets, |obs|)
  {
    hide ScopeOf, IsFailure, SettledAfter, Settles, Holds, Has, TrimSpace, Refs;
    var latest := LatestSuccesses(env, obs);
    buckets := map[];
    NoRefsYet(env, obs);
    for i := 0 to |obs|
      invariant Bucketed(env, obs, buckets, i)
    {
      var o := obs[i];
      var k := ScopeOf(env, o);
      assert Settles(latest, k, o.at) <==> SettledAfter(env, obs, k, o.at);
      if !IsFailure(o) || Settles(latest, k, o.at) {
        BucketedSkip(env, obs, buckets, i);
        continue;
      }
      assert if k in buckets then Holds(buckets[k], Refs(env, obs, k, i)) else Refs(env, obs, k, i) == [];
      var after := Record(buckets, k, TrimSpace(o.id), o.at, Refs(env, obs, k, i));
      BucketedMore(env, obs, buckets, after, i, k);
      buckets := after;
    }
  }

  lemma NoRefsYet(env: Env, obs: seq<Observation>)
    ensures forall s :: Refs(env, obs, s, 0) == []
  {
  }

  // ----- The candidates -----

  /** `sort.Slice` on candidates: more failures first, then later ones, then by text. */
  predicate Sooner(env: Env, a: Candidate, b: Candidate) {
    if a.failures != b.failures then a.failures > b.failures
    else if a.last != b.last then a.last > b.last
    else Less(env.show(a), env.show(b))
  }

  function SoonerBy(env: Env): (Candidate, Candidate) -> bool {
    (a, b) => Sooner(env, a, b)
  }

  /** The candidate is its scope's, and the scope has failures enough. */
  ghost predicate Deserved(env: Env, obs: seq<Observation>, least: nat, c: Candidate) {
    |FailIds(env, obs, c.scope)| >= least && c == CandidateOf(env, obs, c.scope)
  }

  ghost predicate Deserving(env: Env, obs: seq<Observation>, least: nat, s: Scope) {
    |FailIds(env, obs, s)| >= least && FailIds(env, obs, s) != {}
  }

  ghost predicate OnePerScope(out: seq<Candidate>) {
    forall i, j :: 0 <= i < j < |out| ==> out[i].scope != out[j].scope
  }

  /** One candidate per scope that has enough failures, each as its scope's observations make it. */
  ghost predicate Listed(env: Env, obs: seq<Observation>, least: nat, out: seq<Candidate>) {
    && (forall c | c in out :: Deserved(env, obs, least, c))
    && (forall s | Deserving(env, obs, least, s) :: CandidateOf(env, obs, s) in out)
    && OnePerScope(out)
  }

  /** The result: the candidates, in order. */
  ghost predicate Generated(env: Env, obs: seq<Observation>, least: nat, out: seq<Candidate>) {
    Listed(env, obs, least, out) && Sorted(out, SoonerBy(env))
  }

  ghost predicate DistinctRefs(refs: seq<Ref>) {
    forall i, j :: 0 <= i < j < |refs| ==> refs[i].id != refs[j].id
  }

  lemma DistinctMore(refs: seq<Ref>, r: Ref)
    requires DistinctRefs(refs) && !Has(refs, r.id)
    ensures DistinctRefs(refs + [r])
  {
    NewId(refs, r.id);
  }

  lemma {:induction false} RefsDistinct(env: Env, obs: seq<Observation>, s: Scope, n: nat)
    requires n <= |obs|
    ensures DistinctRefs(Refs(env, obs, s, n))
  {
    hide Counts, TrimSpace, Has, DistinctRefs;
    if n == 0 {
      assert Refs(env, obs, s, n) == [];
      NoneDistinct();
    } else {
      RefsDistinct(env, obs, s, n - 1);
      var (before, r) := (Refs(env, obs, s, n - 1), Ref(TrimSpace(obs[n - 1].id), obs[n - 1].at));
      if Counts(env, obs, s, obs[n - 1]) && !Has(before, r.id) {
        DistinctMore(before, r);
      }
    }
  }

  lemma NoneDistinct()
    ensures DistinctRefs([])
  {
  }

  lemma NewId(refs: seq<Ref>, id: string)
    ensures !Has(refs, id) ==> forall i :: 0 <= i < |refs| ==> refs[i].id != id
  {
    forall i | 0 <= i < |refs| && refs[i].id == id ensures Has(refs, id) {
      assert refs[i] in refs;
    }
  }

  /** The reference is of the k-th observation, which counts. */
  predicate RefAt(env: Env, obs: seq<Observation>, s: Scope, r: Ref, k: int) {
    0 <= k < |obs| && Counts(env, obs, s, obs[k]) && r == Ref(TrimSpace(obs[k].id), obs[k].at)
  }

  lemma {:induction false} RefsFrom(env: Env, obs: seq<Observation>, s: Scope, n: nat, r: Ref)
    requires n <= |obs| && r in Refs(env, obs, s, n)
    ensures exists k :: RefAt(env, obs, s, r, k)
  {
    hide Counts, TrimSpace, Has;
    if r in Refs(env, obs, s, n - 1) {
      RefsFrom(env, obs, s, n - 1, r);
    } else {
      assert RefAt(env, obs, s, r, n - 1);
    }
  }

  lemma {:induction false} RefsHave(env: Env, obs: seq<Observation>, s: Scope, n: nat, k: nat)
    requires k < n <= |obs| && Counts(env, obs, s, obs[k])
    ensures Has(Refs(env, obs, s, n), TrimSpace(obs[k].id))
  {
    hide Counts, TrimSpace;
    HoldsMore(Refs(env, obs, s, n - 1), TrimSpace(obs[n - 1].id), obs[n - 1].at);
    hide Has;
    if k < n - 1 {
      RefsHave(env, obs, s, n - 1, k);
    }
  }

  /** A scope's evidence: each counting id once, with the time of one of its observations. */
  lemma RefsMeaning(env: Env, obs: seq<Observation>, s: Scope)
    ensures var refs := Refs(env, obs, s, |obs|);
      && DistinctRefs(refs)
      && (forall r | r in refs :: exists k :: RefAt(env, obs, s, r, k))
      && (forall k | 0 <= k < |obs| && Counts(env, obs, s, obs[k]) :: Has(refs, TrimSpace(obs[k].id)))
  {
    hide Counts, TrimSpace, Refs, Has, RefAt, DistinctRefs;
    RefsDistinct(env, obs, s, |obs|);
    forall r | r in Refs(env, obs, s, |obs|) ensures exists k :: RefAt(env, obs, s, r, k) {
      RefsFrom(env, obs, s, |obs|, r);
    }
    forall k | 0 <= k < |obs| && Counts(env, obs, s, obs[k]) ensures Has(Refs(env, obs, s, |obs|), TrimSpace(obs[k].id)) {
      RefsHave(env, obs, s, |obs|, k);
    }
  }

  lemma RefsAreFailIds(env: Env, obs: seq<Observation>, s: Scope, id: string)
    ensures Has(Refs(env, obs, s, |obs|), id) <==> id in FailIds(env, obs, s)
  {
    RefsMeaning(env, obs, s);
    hide Counts, TrimSpace, Refs;
    var refs := Refs(env, obs, s, |obs|);
    if id in FailIds(env, obs, s) {
      var o :| o in obs && Counts(env, obs, s, o) && TrimSpace(o.id) == id;
      var k :| 0 <= k < |obs| && obs[k] == o;
      assert Has(refs, TrimSpace(obs[k].id));
    }
  }

  lemma IdsMembers(refs: seq<Ref>, id: string)
    ensures id in Ids(refs) <==> Has(refs, id)
  {
    if Has(refs, id) {
      var r :| r in refs && r.id == id;
      var i :| 0 <= i < |refs| && refs[i] == r;
      assert Ids(refs)[i] == id;
    }
    if id in Ids(refs) {
      var i :| 0 <= i < |refs| && Ids(refs)[i] == id;
      assert refs[i] in refs;
    }
  }

  /** FailureCount is the number of distinct counting ids. */
  lemma CountIsFailIds(env: Env, obs: seq<Observation>, s: Scope)
    ensures var refs := Refs(env, obs, s, |obs|);
      && |refs| == |FailIds(env, obs, s)|
      && (forall id :: id in Ids(refs) <==> id in FailIds(env, obs, s))
  {
    RefsMeaning(env, obs, s);
    hide Counts, TrimSpace, Refs, FailIds, Has;
    var refs := Refs(env, obs, s, |obs|);
    forall id ensures id in Ids(refs) <==> id in FailIds(env, obs, s) {
      IdsMembers(refs, id);
      RefsAreFailIds(env, obs, s, id);
    }
    forall i, j | 0 <= i < j < |refs| ensures Ids(refs)[i] != Ids(refs)[j] {
      assert refs[i].id != refs[j].id;
    }
    DistinctCount(Ids(refs));
    assert (set id | id in Ids(refs)) == FailIds(env, obs, s);
  }

  lemma {:induction false} DistinctCount(ids: seq<string>)
    requires forall i, j :: 0 <= i < j < |ids| ==> ids[i] != ids[j]
    ensures |set id | id in ids| == |ids|
  {
    if ids != [] {
      DistinctCount(ids[1..]);
      assert (set id | id in ids) == (set id | id in ids[1..]) + {ids[0]};
      assert ids[0] !in ids[1..];
    }
  }

  /** `GenerateNegativeEvidenceCandidates`. Go visits the buckets in no particular order. */
  method Generate(env: Env, obs: seq<Observation>, minFailures: int) returns (out: seq<Candidate>)
    ensures Generated(env, obs, MinFailures(minFailures), out)
  {
    hide FailIds, Refs, Bucketed, First, Last, StableSort, Has, Sooner;
    var least := MinFailures(minFailures);
    var buckets := FillBuckets(env, obs);
    out := [];
    var rest := buckets.Keys;
    while rest != {}
      invariant rest <= buckets.Keys
      invariant forall c | c in out :: c.scope in buckets && c.scope !in rest
      invariant forall c | c in out :: Deserved(env, obs, least, c)
      invariant forall s | s in buckets && s !in rest && Deserving(env, obs, least, s) :: CandidateOf(env, obs, s) in out
      invariant OnePerScope(out)
      decreases rest
    {
      var s :| s in rest;
      var b := buckets[s];
      BucketIs(env, obs, buckets, s);
      CountIsFailIds(env, obs, s);
      rest := rest - {s};
      if b.failures < least {
        continue;
      }
      out := out + [Candidate(s, b.failures, Ids(StableSort(b.refs, Precedes)), b.first, b.last)];
    }
    forall s | s !in buckets ensures FailIds(env, obs, s) == {} {
      NoBucket(env, obs, buckets, s);
    }
    SortCandidates(env, obs, least, out);
    out := StableSort(out, SoonerBy(env));
  }

  lemma BucketIs(env: Env, obs: seq<Observation>, buckets: map<Scope, Bucket>, s: Scope)
    requires Bucketed(env, obs, buckets, |obs|) && s in buckets
    ensures Holds(buckets[s], Refs(env, obs, s, |obs|))
  {
  }

  lemma NoBucket(env: Env, obs: seq<Observation>, buckets: map<Scope, Bucket>, s: Scope)
    requires Bucketed(env, obs, buckets, |obs|) && s !in buckets
    ensures FailIds(env, obs, s) == {}
  {
    CountIsFailIds(env, obs, s);
  }

  lemma SoonerIsStrictWeak(env: Env)
    ensures StrictWeak(SoonerBy(env))
  {
    forall x: Candidate, y: Candidate | Sooner(env, x, y) ensures !Sooner(env, y, x) {
      if Less(env.show(x), env.show(y)) && Less(env.show(y), env.show(x)) {
        LessTransitive(env.show(x), env.show(y), env.show(x));
        LessIrreflexive(env.show(x));
      }
    }
    forall x: Candidate, y: Candidate, z: Candidate | Sooner(env, x, z) ensures Sooner(env, x, y) || Sooner(env, y, z) {
      LessTotal(env.show(x), env.show(y));
      if Less(env.show(y), env.show(x)) && Less(env.show(x), env.show(z)) {
        LessTransitive(env.show(y), env.show(x), env.show(z));
      }
    }
  }

  lemma OnePerScopePermuted(out: seq<Candidate>, sorted: seq<Candidate>)
    requires OnePerScope(out) && multiset(out) == multiset(sorted)
    ensures OnePerScope(sorted)
  {
    Finite.PermutationDistinct(out, sorted);
    forall i, j | 0 <= i < j < |sorted| ensures sorted[i].scope != sorted[j].scope {
      assert sorted[i] in multiset(out) && sorted[j] in multiset(out);
      var k :| 0 <= k < |out| && out[k] == sorted[i];
      var l :| 0 <= l < |out| && out[l] == sorted[j];
      assert k != l;
    }
  }

  lemma SortCandidates(env: Env, obs: seq<Observation>, least: nat, out: seq<Candidate>)
    requires Listed(env, obs, least, out)
    ensures Generated(env, obs, least, StableSort(out, SoonerBy(env)))
  {
    var sorted := StableSort(out, SoonerBy(env));
    SoonerIsStrictWeak(env);
    StableSortMembers(out, SoonerBy(env));
    StableSortSorts(out, SoonerBy(env));
    StableSortKeeps(out, SoonerBy(env));
    hide StableSort, Deserved, Deserving, CandidateOf, SoonerBy, StrictWeak, OnePerScope, Sorted;
    OnePerScopePermuted(out, sorted);
  }

  // ----- What a candidate says -----

  lemma {:induction false} FirstMeaning(refs: seq<Ref>)
    ensures First(refs) == ZERO <==> forall r | r in refs :: r.at == ZERO
    ensures First(refs) != ZERO ==> exists r | r in refs :: r.at == First(refs)
    ensures forall r | r in refs && r.at != ZERO :: First(refs) <= r.at
  {
    if refs != [] {
      var n := |refs| - 1;
      FirstMeaning(refs[..n]);
      assert refs == refs[..n] + [refs[n]];
    }
  }

  lemma {:induction false} LastMeaning(refs: seq<Ref>)
    ensures Last(refs) >= ZERO && forall r | r in refs :: r.at <= Last(refs)
    ensures Last(refs) != ZERO ==> exists r | r in refs :: r.at == Last(refs)
  {
    if refs != [] {
      var n := |refs| - 1;
      LastMeaning(refs[..n]);
      assert refs == refs[..n] + [refs[n]];
    }
  }

  lemma PrecedesIsStrictWeak()
    ensures StrictWeak(Precedes)
  {
    forall x: Ref, y: Ref | Precedes(x, y) ensures !Precedes(y, x) {
      if Less(x.id, y.id) && Less(y.id, x.id) {
        LessTransitive(x.id, y.id, x.id);
        LessIrreflexive(x.id);
      }
    }
    forall x: Ref, y: Ref, z: Ref | Precedes(x, z) ensures Precedes(x, y) || Precedes(y, z) {
      LessTotal(x.id, y.id);
      if Less(y.id, x.id) && Less(x.id, z.id) {
        LessTransitive(y.id, x.id, z.id);
      }
    }
  }

  /** The evidence of the i-th id: a counting failure of the scope with that id and time. */
  ghost predicate Witnesses(env: Env, obs: seq<Observation>, s: Scope, r: Ref) {
    exists o | o in obs :: Counts(env, obs, s, o) && r == Ref(TrimSpace(o.id), o.at)
  }

  /** A scope's candidate: its failures are the distinct counting ids, its evidence is those ids
      in time order, and its first and last times are the least and the greatest of theirs. */
  lemma CandidateMeaning(env: Env, obs: seq<Observation>, s: Scope) returns (refs: seq<Ref>)
    ensures var c := CandidateOf(env, obs, s);
      && c.failures == |FailIds(env, obs, s)| == |refs|
      && c.evidenceIds == Ids(refs) && Sorted(refs, Precedes)
      && (forall id :: id in c.evidenceIds <==> id in FailIds(env, obs, s))
      && (forall r | r in refs :: Witnesses(env, obs, s, r) && r.at <= c.last && (r.at != ZERO ==> c.first <= r.at))
      && (c.first != ZERO ==> exists r | r in refs :: r.at == c.first)
      && (c.last != ZERO ==> exists r | r in refs :: r.at == c.last)
      && (c.first == ZERO <==> forall r | r in refs :: r.at == ZERO)
  {
    var raw := Refs(env, obs, s, |obs|);
    refs := StableSort(raw, Precedes);
    CountIsFailIds(env, obs, s);
    RefsMeaning(env, obs, s);
    PrecedesIsStrictWeak();
    StableSortSorts(raw, Precedes);
    StableSortKeeps(raw, Precedes);
    StableSortMembers(raw, Precedes);
    FirstMeaning(raw);
    LastMeaning(raw);
    hide StableSort, Refs, Counts, First, Last, FailIds, Precedes, StrictWeak, TrimSpace;
    forall id ensures id in Ids(refs) <==> id in FailIds(env, obs, s) {
      IdsMembers(refs, id);
      IdsMembers(raw, id);
    }
    forall r | r in refs ensures Witnesses(env, obs, s, r) {
      var k :| RefAt(env, obs, s, r, k);
      assert obs[k] in obs;
    }
  }

  // ----- The order of observations does not matter -----

  /** Each id that counts against the scope counts at one time. */
  ghost predicate OneTimeEach(env: Env, obs: seq<Observation>, s: Scope) {
    forall a, b | a in obs && b in obs && Counts(env, obs, s, a) && Counts(env, obs, s, b) &&
      TrimSpace(a.id) == TrimSpace(b.id) :: a.at == b.at
  }

  lemma OneTimeIgnoresOrder(env: Env, obs: seq<Observation>, obs': seq<Observation>, s: Scope)
    requires (forall x :: x in obs <==> x in obs') && OneTimeEach(env, obs, s)
    ensures OneTimeEach(env, obs', s)
  {
    hide Counts, TrimSpace;
    forall o ensures Counts(env, obs, s, o) <==> Counts(env, obs', s, o) { CountsIgnoreOrder(env, obs, obs', s, o); }
  }

  lemma CountsIgnoreOrder(env: Env, obs: seq<Observation>, obs': seq<Observation>, s: Scope, o: Observation)
    requires forall x :: x in obs <==> x in obs'
    ensures Counts(env, obs, s, o) <==> Counts(env, obs', s, o)
  {
    hide SettledBy, IsFailure, ScopeOf;
  }

  ghost predicate FromCounting(env: Env, obs: seq<Observation>, s: Scope, r: Ref, o: Observation) {
    o in obs && Counts(env, obs, s, o) && r == Ref(TrimSpace(o.id), o.at)
  }

  lemma RefFrom(env: Env, obs: seq<Observation>, s: Scope, r: Ref) returns (o: Observation)
    requires r in Refs(env, obs, s, |obs|)
    ensures FromCounting(env, obs, s, r, o)
  {
    RefsMeaning(env, obs, s);
    hide Refs, Counts, TrimSpace, Has;
    var k :| RefAt(env, obs, s, r, k);
    o := obs[k];
  }

  lemma RefOf(env: Env, obs: seq<Observation>, s: Scope, o: Observation) returns (r: Ref)
    requires o in obs && Counts(env, obs, s, o)
    ensures r in Refs(env, obs, s, |obs|) && r.id == TrimSpace(o.id)
  {
    RefsMeaning(env, obs, s);
    hide Refs, Counts, TrimSpace;
    var k :| 0 <= k < |obs| && obs[k] == o;
    assert Has(Refs(env, obs, s, |obs|), TrimSpace(obs[k].id));
    r :| r in Refs(env, obs, s, |obs|) && r.id == TrimSpace(o.id);
  }

  lemma SameTime(env: Env, obs: seq<Observation>, obs': seq<Observation>, s: Scope, o: Observation, o': Observation)
    requires (forall x :: x in obs <==> x in obs') && OneTimeEach(env, obs, s)
    requires o in obs && Counts(env, obs, s, o) && o' in obs' && Counts(env, obs', s, o')
    requires TrimSpace(o.id) == TrimSpace(o'.id)
    ensures o.at == o'.at
  {
    hide Counts, TrimSpace;
    CountsIgnoreOrder(env, obs, obs', s, o');
  }

  lemma RefsIgnoreOrder(env: Env, obs: seq<Observation>, obs': seq<Observation>, s: Scope, r: Ref)
    requires (forall x :: x in obs <==> x in obs') && OneTimeEach(env, obs, s)
    requires r in Refs(env, obs, s, |obs|)
    ensures r in Refs(env, obs', s, |obs'|)
  {
    hide Refs, Counts, TrimSpace, OneTimeEach;
    var o := RefFrom(env, obs, s, r);
    CountsIgnoreOrder(env, obs, obs', s, o);
    var r' := RefOf(env, obs', s, o);
    var o' := RefFrom(env, obs', s, r');
    SameTime(env, obs, obs', s, o, o');
  }

  lemma DistinctIdsSeparate(refs: seq<Ref>)
    requires DistinctRefs(refs)
    ensures Separates(Precedes, refs)
  {
    forall i, j | 0 <= i < |refs| && 0 <= j < |refs| && refs[i] != refs[j]
      ensures Precedes(refs[i], refs[j]) || Precedes(refs[j], refs[i])
    {
      LessTotal(refs[i].id, refs[j].id);
      assert refs[i].id != refs[j].id;
    }
  }

  /** With one time per counting id, permuting or repeating observations changes no candidate. */
  lemma CandidateIgnoresOrder(env: Env, obs: seq<Observation>, obs': seq<Observation>, s: Scope)
    requires (forall x :: x in obs <==> x in obs') && OneTimeEach(env, obs, s)
    ensures CandidateOf(env, obs, s) == CandidateOf(env, obs', s)
  {
    hide Refs, Counts, TrimSpace, OneTimeEach;
    SameRefs(env, obs, obs', s);
    CandidateForSet(s, Refs(env, obs, s, |obs|), Refs(env, obs', s, |obs'|));
  }

  lemma SameRefs(env: Env, obs: seq<Observation>, obs': seq<Observation>, s: Scope)
    requires (forall x :: x in obs <==> x in obs') && OneTimeEach(env, obs, s)
    ensures var (a, b) := (Refs(env, obs, s, |obs|), Refs(env, obs', s, |obs'|));
      DistinctRefs(a) && DistinctRefs(b) && forall r :: r in a <==> r in b
  {
    hide Refs, Counts, TrimSpace, OneTimeEach, DistinctRefs;
    RefsDistinct(env, obs, s, |obs|);
    RefsDistinct(env, obs', s, |obs'|);
    OneTimeIgnoresOrder(env, obs, obs', s);
    var (a, b) := (Refs(env, obs, s, |obs|), Refs(env, obs', s, |obs'|));
    forall r ensures r in a <==> r in b {
      if r in a { RefsIgnoreOrder(env, obs, obs', s, r); }
      if r in b { RefsIgnoreOrder(env, obs', obs, s, r); }
    }
  }

  /** A candidate depends on the set of its evidence only. */
  lemma CandidateForSet(s: Scope, a: seq<Ref>, b: seq<Ref>)
    requires DistinctRefs(a) && DistinctRefs(b)
    requires forall r :: r in a <==> r in b
    ensures CandidateFor(s, a) == CandidateFor(s, b)
  {
    Finite.SameElementsPermute(a, b);
    assert |a| == |multiset(a)| == |multiset(b)| == |b|;
    SameEnds(a, b);
    PrecedesIsStrictWeak();
    DistinctIdsSeparate(a);
    hide First, Last, Precedes, StrictWeak, Separates, StableSort;
    StableSortIgnoresInputOrder(a, b, Precedes);
  }

  lemma SameEnds(a: seq<Ref>, b: seq<Ref>)
    requires forall r :: r in a <==> r in b
    ensures First(a) == First(b) && Last(a) == Last(b)
  {
    FirstMeaning(a);
    FirstMeaning(b);
    LastMeaning(a);
    LastMeaning(b);
    hide First, Last;
  }

  /** Every permutation of the observations gives the scope the same references. */
  ghost predicate OrderFree(env: Env, obs: seq<Observation>, s: Scope) {
    forall obs' | multiset(obs') == multiset(obs) :: SameEvidence(env, obs, obs', s)
  }

  ghost predicate SameEvidence(env: Env, obs: seq<Observation>, obs': seq<Observation>, s: Scope) {
    forall r :: r in Refs(env, obs, s, |obs|) <==> r in Refs(env, obs', s, |obs'|)
  }

  lemma PermutedMembers(obs: seq<Observation>, obs': seq<Observation>)
    requires multiset(obs) == multiset(obs')
    ensures forall x :: x in obs <==> x in obs'
  {
    forall x ensures x in obs <==> x in obs' {
      assert x in obs <==> x in multiset(obs);
      assert x in obs' <==> x in multiset(obs');
    }
  }

  /** A bucket keeps the time of the observation that opened it. */
  lemma {:induction false} FirstIsKept(env: Env, obs: seq<Observation>, s: Scope, n: nat)
    requires 0 < n <= |obs| && Counts(env, obs, s, obs[0])
    ensures var refs := Refs(env, obs, s, n); |refs| > 0 && refs[0] == Ref(TrimSpace(obs[0].id), obs[0].at)
  {
    hide Counts, TrimSpace;
    if n == 1 {
      assert Refs(env, obs, s, 0) == [] && !Has([], TrimSpace(obs[0].id));
    } else {
      hide Has;
      FirstIsKept(env, obs, s, n - 1);
    }
  }

  /** Where one observation comes first, its time is the one kept for its id. */
  lemma PutFirst(env: Env, obs: seq<Observation>, s: Scope, a: Observation) returns (obs': seq<Observation>)
    requires a in obs && Counts(env, obs, s, a)
    ensures multiset(obs') == multiset(obs) && Ref(TrimSpace(a.id), a.at) in Refs(env, obs', s, |obs'|)
  {
    hide Counts, TrimSpace, Refs;
    var i :| 0 <= i < |obs| && obs[i] == a;
    assert obs == obs[..i] + [obs[i]] + obs[i + 1..];
    obs' := [a] + (obs[..i] + obs[i + 1..]);
    assert multiset(obs') == multiset(obs);
    PermutedMembers(obs, obs');
    CountsIgnoreOrder(env, obs, obs', s, a);
    FirstIsKept(env, obs', s, |obs'|);
  }

  lemma OneRefEach(refs: seq<Ref>, r: Ref, r': Ref)
    requires DistinctRefs(refs) && r in refs && r' in refs && r.id == r'.id
    ensures r == r'
  {
    var i :| 0 <= i < |refs| && refs[i] == r;
    var j :| 0 <= j < |refs| && refs[j] == r';
  }

  /** The order of observations does not matter to a scope's evidence if and only if each id that
      counts against it counts at one time. */
  lemma OrderFreeExactly(env: Env, obs: seq<Observation>, s: Scope)
    ensures OrderFree(env, obs, s) <==> OneTimeEach(env, obs, s)
  {
    if OneTimeEach(env, obs, s) {
      hide Refs, Counts, TrimSpace, OneTimeEach, DistinctRefs;
      forall obs' | multiset(obs') == multiset(obs) ensures SameEvidence(env, obs, obs', s) {
        PermutedMembers(obs, obs');
        SameRefs(env, obs, obs', s);
      }
    }
    if OrderFree(env, obs, s) {
      hide Refs, Counts, TrimSpace, DistinctRefs;
      forall a, b | a in obs && b in obs && Counts(env, obs, s, a) && Counts(env, obs, s, b) &&
        TrimSpace(a.id) == TrimSpace(b.id) ensures a.at == b.at
      {
        var first := PutFirst(env, obs, s, a);
        var second := PutFirst(env, obs, s, b);
        RefsDistinct(env, obs, s, |obs|);
        assert SameEvidence(env, obs, first, s) && SameEvidence(env, obs, second, s);
        OneRefEach(Refs(env, obs, s, |obs|), Ref(TrimSpace(a.id), a.at), Ref(TrimSpace(b.id), b.at));
      }
    }
  }

  // ----- Where the order matters -----

  function ToolFailure(id: string, at: int): Observation {
    Observation(id, ToolError, "w", "", "p", "", map["tool_name" := "t"], None, at)
  }

  lemma FailuresCount(env: Env, obs: seq<Observation>, s: Scope, o: Observation)
    requires forall x | x in obs :: x.success == None
    requires o in obs && IsFailure(o) && ScopeOf(env, o) == s
    ensures Counts(env, obs, s, o)
  {
    hide ScopeOf, IsFailure;
  }

  lemma ThreeFailures(env: Env, a: Observation, b: Observation, c: Observation)
    requires a.success == b.success == c.success == None
    requires IsFailure(a) && IsFailure(b) && IsFailure(c)
    requires ScopeOf(env, a) == ScopeOf(env, b) == ScopeOf(env, c)
    requires TrimSpace(a.id) == TrimSpace(c.id) != TrimSpace(b.id)
    ensures Refs(env, [a, b, c], ScopeOf(env, a), 3) == [Ref(TrimSpace(a.id), a.at), Ref(TrimSpace(b.id), b.at)]
  {
    hide ScopeOf, IsFailure, Counts, TrimSpace, Has;
    var (obs, s) := ([a, b, c], ScopeOf(env, a));
    FailuresCount(env, obs, s, a);
    FailuresCount(env, obs, s, b);
    FailuresCount(env, obs, s, c);
    var (x, y) := (Ref(TrimSpace(a.id), a.at), Ref(TrimSpace(b.id), b.at));
    HasList(x, y);
    assert Refs(env, obs, s, 0) == [];
    assert [] + [x] == [x] && [x] + [y] == [x, y];
    assert Refs(env, obs, s, 1) == [x];
    assert Refs(env, obs, s, 2) == [x, y];
  }

  lemma HasList(x: Ref, y: Ref)
    ensures !Has([], x.id) && (Has([x], y.id) <==> x.id == y.id) && Has([x, y], x.id)
  {
    assert x in [x, y];
  }

  lemma TwoInOrder(x: Ref, y: Ref)
    requires x.at != ZERO && y.at != ZERO && x.at != y.at && x.at > ZERO && y.at > ZERO
    ensures StableSort([x, y], Precedes) == if x.at < y.at then [x, y] else [y, x]
    ensures First([x, y]) == if x.at < y.at then x.at else y.at
  {
    assert [x, y][1..] == [y] && [y][1..] == [];
    assert StableSort([], Precedes) == [] && StableSort([y], Precedes) == [y];
    assert StableSort([x, y], Precedes) == Insert(x, [y], Precedes);
    assert Insert(x, [], Precedes) == [x] && [x] + [y] == [x, y] && [y] + [x] == [y, x];
    assert [x, y][..1] == [x] && [x][..0] == [];
    assert First([x]) == x.at;
  }

  /** One id failing at 1 and at 5, another at 3: in one order the evidence is x, y from 1 on, in the
      other y, x from 3 on. */
  lemma OrderMatters(env: Env) returns (obs: seq<Observation>, obs': seq<Observation>, s: Scope)
    ensures multiset(obs) == multiset(obs')
    ensures CandidateOf(env, obs, s).evidenceIds == ["x", "y"] && CandidateOf(env, obs, s).first == 1
    ensures CandidateOf(env, obs', s).evidenceIds == ["y", "x"] && CandidateOf(env, obs', s).first == 3
  {
    var (a, b, c) := (ToolFailure("x", 1), ToolFailure("y", 3), ToolFailure("x", 5));
    assert TrimSpace("x") == "x" && TrimSpace("y") == "y";
    obs, obs', s := [a, b, c], [c, b, a], ScopeOf(env, a);
    assert ScopeOf(env, a) == ScopeOf(env, b) == ScopeOf(env, c) && IsFailure(a) && IsFailure(b) && IsFailure(c);
    hide *;
    ThreeFailures(env, a, b, c);
    ThreeFailures(env, c, b, a);
    TwoEvidences(env, obs, s, Ref("x", 1), Ref("y", 3));
    TwoEvidences(env, obs', s, Ref("x", 5), Ref("y", 3));
  }

  lemma TwoEvidences(env: Env, obs: seq<Observation>, s: Scope, x: Ref, y: Ref)
    requires Refs(env, obs, s, |obs|) == [x, y] && x.at != y.at && x.at > ZERO && y.at > ZERO
    ensures var c := CandidateOf(env, obs, s);
      && c.evidenceIds == (if x.at < y.at then [x.id, y.id] else [y.id, x.id])
      && c.first == if x.at < y.at then x.at else y.at
  {
    hide Refs, StableSort, First, Last, Precedes;
    TwoInOrder(x, y);
  }

  /** The set of candidates is the same for permuted observations. */
  lemma GeneratedIgnoresOrder(env: Env, obs: seq<Observation>, obs': seq<Observation>, least: nat,
                              out: seq<Candidate>, out': seq<Candidate>)
    requires multiset(obs) == multiset(obs') && (forall s :: OneTimeEach(env, obs, s)) && least > 0
    requires Generated(env, obs, least, out) && Generated(env, obs', least, out')
    ensures multiset(out) == multiset(out')
  {
    PermutedMembers(obs, obs');
    hide OneTimeEach, Counts;
    forall s ensures CandidateOf(env, obs, s) == CandidateOf(env, obs', s) && FailIds(env, obs, s) == FailIds(env, obs', s) {
      CandidateIgnoresOrder(env, obs, obs', s);
      forall o ensures Counts(env, obs, s, o) <==> Counts(env, obs', s, o) { CountsIgnoreOrder(env, obs, obs', s, o); }
    }
    hide CandidateOf, FailIds, SoonerBy;
    forall c ensures c in out <==> c in out' {
      if c in out {
        assert Deserved(env, obs, least, c) && Deserving(env, obs', least, c.scope);
      }
      if c in out' {
        assert Deserved(env, obs', least, c) && Deserving(env, obs, least, c.scope);
      }
    }
    Finite.SameElementsPermute(out, out');
  }
}
