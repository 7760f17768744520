/** service/recall_graph.go: recall candidates pull in memories they are related to, round by
    round. A round first annotates candidates it already has (`enrich`), then adds related
    memories (`expand`), until neither does anything. */
module RecallGraph {
  import opened Text

  datatype Evidence = Evidence(kind: string, source: string, id: string, note: string, score: real)

  /** The fields expansion copies without looking at them. */
  datatype Details = Details(sourceType: string, content: string, sessionId: string, agentId: string,
                             createdAt: int, importance: real)

  datatype Candidate = Candidate(memoryId: string, scopeId: string, details: Details, provenance: seq<Evidence>)

  datatype Relation = Relation(fromId: string, toId: string, name: string, queryTerms: seq<string>,
                               activationTerms: seq<string>, evidenceId: string, score: real, state: string)

  /** One recall: the query, the index, and the text functions that compare regardless of case. */
  datatype Context = Context(query: string, scopeId: string, memories: map<string, Candidate>,
                             relations: seq<Relation>, lower: string -> string,
                             containsAll: (string, seq<string>) -> bool)

  datatype State = State(out: seq<Candidate>, seen: set<string>, active: map<string, Candidate>,
                         position: map<string, nat>)

  datatype Option<T> = None | Some(value: T)

  const ACCEPTED := "accepted"
  const GRAPH := "graph"

  // ----- Relations -----

  function StableId(c: Candidate): string {
    TrimSpace(c.memoryId)
  }

  function From(r: Relation): string {
    TrimSpace(r.fromId)
  }

  function To(r: Relation): string {
    TrimSpace(r.toId)
  }

  function Note(r: Relation): string {
    From(r) + " -> " + r.name + " -> " + To(r)
  }

  function EvidenceOf(r: Relation): Evidence {
    Evidence(GRAPH, From(r), r.evidenceId, Note(r), r.score)
  }

  predicate Accepted(cx: Context, r: Relation) {
    var state := cx.lower(TrimSpace(r.state));
    state == "" || state == ACCEPTED
  }

  predicate Matches(cx: Context, r: Relation) {
    cx.containsAll(cx.query, r.queryTerms) && cx.containsAll(cx.query, r.activationTerms)
  }

  predicate ScopeMismatch(cx: Context, c: Candidate) {
    var q, s := TrimSpace(cx.scopeId), TrimSpace(c.scopeId);
    q != "" && s != "" && s != q
  }

  /** The indexed memory a relation points at, filed under its own id. */
  function Target(cx: Context, r: Relation): Option<Candidate> {
    if From(r) == "" || To(r) == "" || To(r) !in cx.memories then None
    else
      var t := cx.memories[To(r)];
      if StableId(t) == "" || StableId(t) != To(r) then None else Some(t.(memoryId := StableId(t)))
  }

  /** The conditions of both passes that do not depend on how far expansion has come. */
  predicate Enabled(cx: Context, r: Relation) {
    && From(r) != "" && To(r) != ""
    && Accepted(cx, r) && Matches(cx, r)
    && Target(cx, r).Some? && !ScopeMismatch(cx, Target(cx, r).value)
  }

  predicate HasEvidence(c: Candidate, r: Relation) {
    exists item | item in c.provenance ::
      && item.kind == GRAPH
      && ((r.evidenceId != "" && item.id == r.evidenceId) || (item.source == From(r) && item.note == Note(r)))
  }

  function GraphEvidence(provenance: seq<Evidence>): (r: seq<Evidence>)
    ensures forall e :: e in r <==> e in provenance && e.kind == GRAPH
  {
    if provenance == [] then []
    else (if provenance[0].kind == GRAPH then [provenance[0]] else []) + GraphEvidence(provenance[1..])
  }

  function Expanded(source: Candidate, target: Candidate, r: Relation): Candidate {
    target.(provenance := target.provenance + GraphEvidence(source.provenance) + [EvidenceOf(r)])
  }

  // ----- The passes as functions -----

  function AddAt(st: State, c: Candidate, i: nat): State {
    var id := StableId(c);
    if id == "" then st
    else st.(seen := st.seen + {id}, active := st.active[id := c], position := st.position[id := i])
  }

  function Initial(base: seq<Candidate>, n: nat): State
    requires n <= |base|
  {
    if n == 0 then State(base, {}, map[], map[]) else AddAt(Initial(base, n - 1), base[n - 1], n - 1)
  }

  /** The relation annotates a candidate that is already there. The target is filed back under
      its own, untrimmed id. */
  predicate Annotates(cx: Context, st: State, r: Relation) {
    && Enabled(cx, r) && From(r) in st.seen && To(r) in st.seen
    && From(r) in st.active && To(r) in st.active && To(r) in st.position
    && !HasEvidence(st.active[To(r)], r)
  }

  function Enrich(cx: Context, st: State, r: Relation): State
    requires WellPlaced(st)
  {
    if !Annotates(cx, st, r) then st
    else
      var target := Expanded(st.active[From(r)], st.active[To(r)], r);
      st.(out := st.out[st.position[To(r)] := target], active := st.active[target.memoryId := target])
  }

  /** The relation brings in a memory that is not there yet. */
  predicate Adds(cx: Context, st: State, r: Relation) {
    Enabled(cx, r) && From(r) in st.seen && To(r) !in st.seen && From(r) in st.active
  }

  function Expand(cx: Context, st: State, r: Relation): State {
    if !Adds(cx, st, r) then st
    else
      var target := Expanded(st.active[From(r)], Target(cx, r).value, r);
      AddAt(st.(out := st.out + [target]), target, |st.out|)
  }

  ghost predicate WellPlaced(st: State) {
    forall id | id in st.position :: st.position[id] < |st.out|
  }

  /** The first n relations of the enrich pass, and whether any annotated something. */
  function EnrichPass(cx: Context, st: State, n: nat): (r: (State, bool))
    requires WellPlaced(st) && n <= |cx.relations|
    ensures WellPlaced(r.0)
  {
    if n == 0 then (st, false)
    else
      var (s, fired) := EnrichPass(cx, st, n - 1);
      (Enrich(cx, s, cx.relations[n - 1]), fired || Annotates(cx, s, cx.relations[n - 1]))
  }

  function ExpandPass(cx: Context, st: State, n: nat): (r: (State, bool))
    requires WellPlaced(st) && n <= |cx.relations|
    ensures WellPlaced(r.0)
  {
    if n == 0 then (st, false)
    else
      var (s, fired) := ExpandPass(cx, st, n - 1);
      (Expand(cx, s, cx.relations[n - 1]), fired || Adds(cx, s, cx.relations[n - 1]))
  }

  /** One turn of the loop, and whether the loop goes on. */
  function Round(cx: Context, st: State): (r: (State, bool))
    requires WellPlaced(st)
    ensures WellPlaced(r.0)
  {
    var (s, enriched) := EnrichPass(cx, st, |cx.relations|);
    var (t, added) := ExpandPass(cx, s, |cx.relations|);
    (t, enriched || added)
  }

  // ----- What expansion should find -----

  function IdsOf(cs: seq<Candidate>): set<string> {
    set c | c in cs && StableId(c) != "" :: StableId(c)
  }

  /** The path leads from a base id to `id` along enabled relations of the index. */
  ghost predicate PathTo(cx: Context, ids: set<string>, path: seq<Relation>, id: string) {
    if path == [] then id in ids
    else
      var r := path[|path| - 1];
      r in cx.relations && Enabled(cx, r) && To(r) == id && PathTo(cx, ids, path[..|path| - 1], From(r))
  }

  ghost predicate Reachable(cx: Context, ids: set<string>, id: string) {
    exists path :: PathTo(cx, ids, path, id)
  }

  /** The set holds the base ids and is closed under enabled relations. */
  ghost predicate ClosedOver(cx: Context, ids: set<string>, s: set<string>) {
    && ids <= s
    && forall r | r in cx.relations && Enabled(cx, r) && From(r) in s :: To(r) in s
  }

  lemma {:induction false} PathStaysInside(cx: Context, ids: set<string>, s: set<string>, path: seq<Relation>, id: string)
    requires ClosedOver(cx, ids, s) && PathTo(cx, ids, path, id)
    ensures id in s
  {
    if path != [] {
      PathStaysInside(cx, ids, s, path[..|path| - 1], From(path[|path| - 1]));
    }
  }

  lemma ReachableStep(cx: Context, ids: set<string>, path: seq<Relation>, r: Relation)
    requires r in cx.relations && Enabled(cx, r) && PathTo(cx, ids, path, From(r))
    ensures PathTo(cx, ids, path + [r], To(r))
  {
    assert (path + [r])[..|path|] == path;
  }

  ghost predicate Evidenced(provenance: seq<Evidence>, path: seq<Relation>) {
    forall r | r in path :: EvidenceOf(r) in provenance
  }

  /** Position p holds the last base candidate known as `id`. */
  ghost predicate IsLast(base: seq<Candidate>, id: string, p: int) {
    && 0 <= p < |base| && StableId(base[p]) == id
    && forall q | p < q < |base| :: StableId(base[q]) != id
  }

  /** Some relation the expansion will reach points at a base candidate whose id is not trimmed
      and whose provenance does not already mention the relation. */
  ghost predicate Stalls(cx: Context, base: seq<Candidate>) {
    exists r, p :: StallsAt(cx, base, r, p)
  }

  ghost predicate StallsAt(cx: Context, base: seq<Candidate>, r: Relation, p: int) {
    && r in cx.relations && Enabled(cx, r) && Reachable(cx, IdsOf(base), From(r))
    && IsLast(base, To(r), p) && base[p].memoryId != To(r) && !HasEvidence(base[p], r)
  }

  // ----- The invariant -----

  ghost predicate SameButMore(a: Candidate, b: Candidate) {
    a.provenance <= b.provenance && b.(provenance := a.provenance) == a
  }

  /** Base candidates keep their slots, and their fields but for added provenance. */
  ghost predicate KeepsBase(base: seq<Candidate>, st: State) {
    |base| <= |st.out| && forall i | 0 <= i < |base| :: SameButMore(base[i], st.out[i])
  }

  /** Each added candidate has a trimmed id of its own. */
  ghost predicate AddsOnce(base: seq<Candidate>, st: State) {
    && |base| <= |st.out|
    && (forall i | |base| <= i < |st.out| ::
          var id := st.out[i].memoryId; Trimmed(id) && id != "" && id !in IdsOf(base))
    && (forall i, j :: |base| <= i < j < |st.out| ==> st.out[i].memoryId != st.out[j].memoryId)
  }

  /** Where `id` is, and what the passes read for it. An untrimmed base candidate is read as it
      was given; every other one as it now stands. */
  ghost predicate Filed(base: seq<Candidate>, st: State, id: string) {
    && id in st.active && id in st.position && st.position[id] < |st.out|
    && id != "" && Trimmed(id)
    && StableId(st.out[st.position[id]]) == id
    && (id in IdsOf(base) <==> st.position[id] < |base|)
    && (id in IdsOf(base) ==> IsLast(base, id, st.position[id]))
    && (if id in IdsOf(base) && base[st.position[id]].memoryId != id
        then st.active[id] == base[st.position[id]]
        else st.active[id].memoryId == id && st.active[id] == st.out[st.position[id]])
  }

  ghost predicate Explained(cx: Context, base: seq<Candidate>, st: State, id: string)
    requires id in st.active
  {
    exists path :: PathTo(cx, IdsOf(base), path, id) && Evidenced(st.active[id].provenance, path)
  }

  ghost predicate Inv(cx: Context, base: seq<Candidate>, st: State) {
    && WellPlaced(st)
    && st.seen == IdsOf(st.out)
    && KeepsBase(base, st) && AddsOnce(base, st)
    && (forall id | id in st.seen :: Filed(base, st, id) && Explained(cx, base, st, id))
  }

  // ----- The invariant holds at the start -----

  /** After the first n base candidates, `id` is filed at the last of them that carries it. */
  ghost predicate FiledUpTo(base: seq<Candidate>, n: nat, st: State, id: string)
    requires n <= |base|
  {
    if id in st.seen then
      && id != "" && Trimmed(id) && id in st.active && id in st.position && st.position[id] < n
      && StableId(base[st.position[id]]) == id && st.active[id] == base[st.position[id]]
      && forall q | st.position[id] < q < n :: StableId(base[q]) != id
    else
      id !in st.position && (id == "" || forall q | 0 <= q < n :: StableId(base[q]) != id)
  }

  lemma {:induction false} InitialFiled(base: seq<Candidate>, n: nat, id: string)
    requires n <= |base|
    ensures Initial(base, n).out == base && FiledUpTo(base, n, Initial(base, n), id)
  {
    hide TrimSpace;
    if n > 0 {
      InitialFiled(base, n - 1, id);
      TrimSpaceIdempotent(base[n - 1].memoryId);
    }
  }

  lemma InitialInv(cx: Context, base: seq<Candidate>)
    ensures Inv(cx, base, Initial(base, |base|))
  {
    hide TrimSpace, Initial, Enabled;
    var st := Initial(base, |base|);
    InitialFiled(base, |base|, "");
    forall id ensures id in st.seen <==> id in IdsOf(base) {
      InitialFiled(base, |base|, id);
      if id in st.seen {
        assert base[st.position[id]] in base;
      }
    }
    assert st.seen == IdsOf(st.out);
    forall id | id in st.position ensures st.position[id] < |st.out| {
      InitialFiled(base, |base|, id);
    }
    forall id | id in st.seen ensures Filed(base, st, id) && Explained(cx, base, st, id) {
      InitialFiled(base, |base|, id);
      assert PathTo(cx, IdsOf(base), [], id);
    }
  }

  // ----- Each relation keeps the invariant -----

  lemma ExpandedEvidence(source: Candidate, target: Candidate, r: Relation, path: seq<Relation>)
    ensures Evidenced(target.provenance, path) ==> Evidenced(Expanded(source, target, r).provenance, path)
    ensures Evidenced(source.provenance, path) ==> Evidenced(Expanded(source, target, r).provenance, path + [r])
    ensures target.provenance <= Expanded(source, target, r).provenance
    ensures HasEvidence(Expanded(source, target, r), r)
  {
    hide TrimSpace, GraphEvidence;
    var p := Expanded(source, target, r).provenance;
    assert p[|p| - 1] == EvidenceOf(r);
    assert EvidenceOf(r) in p;
  }

  lemma IdsSame(a: seq<Candidate>, b: seq<Candidate>)
    requires |a| == |b| && forall i | 0 <= i < |a| :: StableId(a[i]) == StableId(b[i])
    ensures IdsOf(a) == IdsOf(b)
  {
    hide StableId;
    forall id | id in IdsOf(a) ensures id in IdsOf(b) {
      var i :| 0 <= i < |a| && StableId(a[i]) == id;
      assert b[i] in b;
    }
    forall id | id in IdsOf(b) ensures id in IdsOf(a) {
      var i :| 0 <= i < |b| && StableId(b[i]) == id;
      assert a[i] in a;
    }
  }

  lemma EnrichKeepsFiled(cx: Context, base: seq<Candidate>, st: State, r: Relation, id: string)
    requires WellPlaced(st) && Annotates(cx, st, r)
    requires Filed(base, st, To(r)) && Filed(base, st, id)
    ensures Filed(base, Enrich(cx, st, r), id)
  {
    hide Enabled, HasEvidence, GraphEvidence, IdsOf, TrimSpace;
  }

  lemma FiledId(base: seq<Candidate>, st: State, id: string)
    requires Filed(base, st, id)
    ensures StableId(st.active[id]) == id && Trimmed(id)
  {
    hide TrimSpace, IdsOf;
  }

  /** The raw id a target is written back under is an id in use only if it is the target's. */
  lemma WriteBackHitsItself(base: seq<Candidate>, st: State, to: string, id: string)
    requires Filed(base, st, to) && Filed(base, st, id) && st.active[to].memoryId == id
    ensures to == id
  {
    FiledId(base, st, to);
    FiledId(base, st, id);
  }

  lemma EnrichKeepsExplained(cx: Context, base: seq<Candidate>, st: State, r: Relation, id: string)
    requires WellPlaced(st) && Annotates(cx, st, r)
    requires Filed(base, st, To(r)) && Filed(base, st, id) && Explained(cx, base, st, id)
    ensures Filed(base, Enrich(cx, st, r), id) && Explained(cx, base, Enrich(cx, st, r), id)
  {
    EnrichKeepsFiled(cx, base, st, r, id);
    hide Enabled, HasEvidence, IdsOf, PathTo, Evidenced, TrimSpace, GraphEvidence, Filed;
    var path :| PathTo(cx, IdsOf(base), path, id) && Evidenced(st.active[id].provenance, path);
    ExpandedEvidence(st.active[From(r)], st.active[To(r)], r, path);
    if st.active[To(r)].memoryId == id {
      WriteBackHitsItself(base, st, To(r), id);
    }
    assert Evidenced(Enrich(cx, st, r).active[id].provenance, path);
  }

  lemma EnrichKeepsInv(cx: Context, base: seq<Candidate>, st: State, r: Relation)
    requires Inv(cx, base, st)
    ensures Inv(cx, base, Enrich(cx, st, r))
  {
    if Annotates(cx, st, r) {
      var st' := Enrich(cx, st, r);
      forall id | id in st.seen ensures Filed(base, st', id) && Explained(cx, base, st', id) {
        EnrichKeepsExplained(cx, base, st, r, id);
      }
      EnrichKeepsSlots(cx, base, st, r);
    }
  }

  lemma EnrichKeepsSlots(cx: Context, base: seq<Candidate>, st: State, r: Relation)
    requires WellPlaced(st) && Annotates(cx, st, r) && Filed(base, st, To(r))
    requires KeepsBase(base, st) && AddsOnce(base, st)
    ensures var st' := Enrich(cx, st, r);
      WellPlaced(st') && IdsOf(st'.out) == IdsOf(st.out) && KeepsBase(base, st') && AddsOnce(base, st')
  {
    hide Enabled, HasEvidence, TrimSpace, GraphEvidence;
    var st' := Enrich(cx, st, r);
    forall i | 0 <= i < |st.out| ensures st'.out[i].memoryId == st.out[i].memoryId {
    }
    IdsSame(st.out, st'.out);
    hide IdsOf;
  }

  /** What the memory a relation brings in looks like. */
  lemma AddedCandidate(cx: Context, st: State, r: Relation)
    requires Adds(cx, st, r)
    ensures var t := Expanded(st.active[From(r)], Target(cx, r).value, r);
      && t.memoryId == To(r) == StableId(t) && Trimmed(To(r)) && To(r) != ""
      && Expand(cx, st, r) == State(st.out + [t], st.seen + {To(r)}, st.active[To(r) := t], st.position[To(r) := |st.out|])
  {
    TrimSpaceIdempotent(r.toId);
  }

  lemma IdsMore(cs: seq<Candidate>, c: Candidate)
    requires StableId(c) != ""
    ensures IdsOf(cs + [c]) == IdsOf(cs) + {StableId(c)}
  {
    hide StableId;
    assert c in cs + [c];
  }

  lemma IdsOfBase(base: seq<Candidate>, st: State)
    requires KeepsBase(base, st)
    ensures IdsOf(base) <= IdsOf(st.out)
  {
    hide TrimSpace;
    forall id | id in IdsOf(base) ensures id in IdsOf(st.out) {
      var i :| 0 <= i < |base| && StableId(base[i]) == id;
      assert st.out[i] in st.out && SameButMore(base[i], st.out[i]);
    }
  }

  lemma AddKeepsFiled(base: seq<Candidate>, st: State, st': State, c: Candidate, id: string)
    requires st' == State(st.out + [c], st.seen + {c.memoryId}, st.active[c.memoryId := c], st.position[c.memoryId := |st.out|])
    requires Filed(base, st, id) && c.memoryId != id
    ensures Filed(base, st', id)
  {
    hide TrimSpace, IdsOf;
  }

  lemma AddFilesNew(base: seq<Candidate>, st: State, st': State, c: Candidate)
    requires st' == State(st.out + [c], st.seen + {c.memoryId}, st.active[c.memoryId := c], st.position[c.memoryId := |st.out|])
    requires StableId(c) == c.memoryId != "" && c.memoryId !in IdsOf(base) && |base| <= |st.out|
    ensures Filed(base, st', c.memoryId)
  {
    hide TrimSpace, IdsOf;
  }

  ghost predicate FiledAndExplained(cx: Context, base: seq<Candidate>, st: State, id: string) {
    Filed(base, st, id) && Explained(cx, base, st, id)
  }

  lemma ExpandKeepsOld(cx: Context, base: seq<Candidate>, st: State, r: Relation, id: string)
    requires Adds(cx, st, r) && id != To(r) && FiledAndExplained(cx, base, st, id)
    ensures FiledAndExplained(cx, base, Expand(cx, st, r), id)
  {
    hide StableId, Target, Enabled, IdsOf, Expanded, Expand, PathTo, Evidenced;
    AddsEnabled(cx, st, r);
    AddedCandidate(cx, st, r);
    AddKeepsFiled(base, st, Expand(cx, st, r), Expanded(st.active[From(r)], Target(cx, r).value, r), id);
    hide Filed;
    var path :| PathTo(cx, IdsOf(base), path, id) && Evidenced(st.active[id].provenance, path);
    assert Evidenced(Expand(cx, st, r).active[id].provenance, path);
  }

  lemma ExpandExplainsNew(cx: Context, base: seq<Candidate>, st: State, r: Relation)
    requires Adds(cx, st, r) && r in cx.relations && FiledAndExplained(cx, base, st, From(r))
    requires To(r) !in IdsOf(base) && |base| <= |st.out|
    ensures FiledAndExplained(cx, base, Expand(cx, st, r), To(r))
  {
    hide StableId, Target, Enabled, IdsOf, Expanded, Expand, PathTo, Evidenced, Filed;
    AddedCandidate(cx, st, r);
    AddsEnabled(cx, st, r);
    var path :| PathTo(cx, IdsOf(base), path, From(r)) && Evidenced(st.active[From(r)].provenance, path);
    ReachableStep(cx, IdsOf(base), path, r);
    ExpandedEvidence(st.active[From(r)], Target(cx, r).value, r, path);
    AddFilesNew(base, st, Expand(cx, st, r), Expanded(st.active[From(r)], Target(cx, r).value, r));
    assert Evidenced(Expand(cx, st, r).active[To(r)].provenance, path + [r]);
  }

  lemma ExpandKeepsSlots(cx: Context, base: seq<Candidate>, st: State, r: Relation)
    requires Adds(cx, st, r) && WellPlaced(st) && st.seen == IdsOf(st.out)
    requires KeepsBase(base, st) && AddsOnce(base, st)
    ensures var st' := Expand(cx, st, r);
      WellPlaced(st') && st'.seen == IdsOf(st'.out) && KeepsBase(base, st') && AddsOnce(base, st')
  {
    hide StableId, Target, Enabled, IdsOf, Expanded, Expand;
    AddsEnabled(cx, st, r);
    AddedCandidate(cx, st, r);
    var target := Expanded(st.active[From(r)], Target(cx, r).value, r);
    IdsMore(st.out, target);
    IdsOfBase(base, st);
    AddsFreshId(base, st, target);
  }

  lemma ExpandKeepsInv(cx: Context, base: seq<Candidate>, st: State, r: Relation)
    requires Inv(cx, base, st) && r in cx.relations
    ensures Inv(cx, base, Expand(cx, st, r))
  {
    if Adds(cx, st, r) {
      hide Enabled, IdsOf, Expanded, Expand, Filed, Explained, AddsOnce, SameButMore;
      AddedCandidate(cx, st, r);
      ExpandKeepsSlots(cx, base, st, r);
      IdsOfBase(base, st);
      ExpandExplainsNew(cx, base, st, r);
      forall id | id in st.seen ensures FiledAndExplained(cx, base, Expand(cx, st, r), id) {
        ExpandKeepsOld(cx, base, st, r, id);
      }
    }
  }

  lemma AddsEnabled(cx: Context, st: State, r: Relation)
    requires Adds(cx, st, r)
    ensures Enabled(cx, r) && Target(cx, r).Some?
  {
  }

  lemma NotAmong(cs: seq<Candidate>, i: nat, id: string)
    requires i < |cs| && Trimmed(id) && id != "" && id !in IdsOf(cs)
    ensures cs[i].memoryId != id
  {
    hide TrimSpace;
    assert cs[i] in cs;
    assert StableId(cs[i]) != "" ==> StableId(cs[i]) in IdsOf(cs);
  }

  lemma AddsFreshId(base: seq<Candidate>, st: State, target: Candidate)
    requires AddsOnce(base, st) && IdsOf(base) <= IdsOf(st.out)
    requires Trimmed(target.memoryId) && target.memoryId != "" && target.memoryId !in IdsOf(st.out)
    ensures AddsOnce(base, st.(out := st.out + [target]))
  {
    hide Trimmed, IdsOf;
    forall i | 0 <= i < |st.out| ensures st.out[i].memoryId != target.memoryId {
      NotAmong(st.out, i, target.memoryId);
    }
  }

  // ----- Whole passes and rounds -----

  lemma {:induction false} EnrichPassKeepsInv(cx: Context, base: seq<Candidate>, st: State, n: nat)
    requires Inv(cx, base, st) && n <= |cx.relations|
    ensures Inv(cx, base, EnrichPass(cx, st, n).0)
  {
    hide Inv, Enrich, Annotates;
    InvIsPlaced(cx, base, st);
    if n > 0 {
      EnrichPassKeepsInv(cx, base, st, n - 1);
      EnrichKeepsInv(cx, base, EnrichPass(cx, st, n - 1).0, cx.relations[n - 1]);
    }
  }

  lemma {:induction false} ExpandPassKeepsInv(cx: Context, base: seq<Candidate>, st: State, n: nat)
    requires Inv(cx, base, st) && n <= |cx.relations|
    ensures Inv(cx, base, ExpandPass(cx, st, n).0)
  {
    hide Inv, Expand, Adds;
    InvIsPlaced(cx, base, st);
    if n > 0 {
      ExpandPassKeepsInv(cx, base, st, n - 1);
      ExpandKeepsInv(cx, base, ExpandPass(cx, st, n - 1).0, cx.relations[n - 1]);
    }
  }

  lemma RoundKeepsInv(cx: Context, base: seq<Candidate>, st: State)
    requires Inv(cx, base, st)
    ensures Inv(cx, base, Round(cx, st).0)
  {
    hide Inv, EnrichPass, ExpandPass;
    InvIsPlaced(cx, base, st);
    EnrichPassKeepsInv(cx, base, st, |cx.relations|);
    ExpandPassKeepsInv(cx, base, EnrichPass(cx, st, |cx.relations|).0, |cx.relations|);
  }

  lemma InvIsPlaced(cx: Context, base: seq<Candidate>, st: State)
    requires Inv(cx, base, st)
    ensures WellPlaced(st)
  {
  }

  // ----- A quiet round has found everything -----

  lemma {:induction false} QuietEnrich(cx: Context, st: State, n: nat)
    requires WellPlaced(st) && n <= |cx.relations| && !EnrichPass(cx, st, n).1
    ensures EnrichPass(cx, st, n).0 == st
    ensures forall k | 0 <= k < n :: !Annotates(cx, st, cx.relations[k])
  {
    hide Annotates;
    if n > 0 {
      QuietEnrich(cx, st, n - 1);
    }
  }

  lemma {:induction false} QuietExpand(cx: Context, st: State, n: nat)
    requires WellPlaced(st) && n <= |cx.relations| && !ExpandPass(cx, st, n).1
    ensures ExpandPass(cx, st, n).0 == st
    ensures forall k | 0 <= k < n :: !Adds(cx, st, cx.relations[k])
  {
    hide Adds;
    if n > 0 {
      QuietExpand(cx, st, n - 1);
    }
  }

  /** A round that does nothing leaves the state alone, has every reachable id, and no relation
      left to annotate with. */
  lemma QuietRound(cx: Context, base: seq<Candidate>, st: State)
    requires Inv(cx, base, st) && !Round(cx, st).1
    ensures Round(cx, st).0 == st
    ensures forall id :: id in st.seen <==> Reachable(cx, IdsOf(base), id)
    ensures forall r | r in cx.relations :: !Annotates(cx, st, r)
  {
    hide TrimSpace, Enabled, HasEvidence, EnrichPass, ExpandPass;
    QuietEnrich(cx, st, |cx.relations|);
    QuietExpand(cx, st, |cx.relations|);
    IdsOfBase(base, st);
    forall r | r in cx.relations ensures !Annotates(cx, st, r) && !Adds(cx, st, r) {
      var k :| 0 <= k < |cx.relations| && cx.relations[k] == r;
    }
    assert ClosedOver(cx, IdsOf(base), st.seen) by {
      forall r | r in cx.relations && Enabled(cx, r) && From(r) in st.seen ensures To(r) in st.seen {
        assert Filed(base, st, From(r)) && !Adds(cx, st, r);
      }
    }
    forall id ensures id in st.seen <==> Reachable(cx, IdsOf(base), id) {
      if id in st.seen {
        assert Explained(cx, base, st, id);
      }
      if Reachable(cx, IdsOf(base), id) {
        var path :| PathTo(cx, IdsOf(base), path, id);
        PathStaysInside(cx, IdsOf(base), st.seen, path, id);
      }
    }
  }

  lemma StallAnnotates(cx: Context, base: seq<Candidate>, st: State) returns (r: Relation)
    requires Inv(cx, base, st) && Stalls(cx, base)
    requires forall id :: id in st.seen <==> Reachable(cx, IdsOf(base), id)
    ensures r in cx.relations && Annotates(cx, st, r)
  {
    hide TrimSpace, Enabled, HasEvidence;
    var p;
    r, p :| StallsAt(cx, base, r, p);
    assert base[p] in base && StableId(base[p]) == To(r);
    assert To(r) in IdsOf(base) by {
      StallTargetNamed(cx, base, r, p);
    }
    IdsOfBase(base, st);
    assert Filed(base, st, To(r)) && Filed(base, st, From(r));
    LastIsUnique(base, To(r), p, st.position[To(r)]);
  }

  lemma StallTargetNamed(cx: Context, base: seq<Candidate>, r: Relation, p: int)
    requires StallsAt(cx, base, r, p)
    ensures To(r) != ""
  {
  }

  /** If some relation stalls on an untrimmed base id, no round is ever quiet. */
  lemma StalledRoundIsNotQuiet(cx: Context, base: seq<Candidate>, st: State)
    requires Inv(cx, base, st) && Stalls(cx, base)
    ensures Round(cx, st).1
  {
    hide Inv, Stalls, Annotates, Round;
    InvIsPlaced(cx, base, st);
    if !Round(cx, st).1 {
      QuietRound(cx, base, st);
      var _ := StallAnnotates(cx, base, st);
    }
  }

  lemma LastIsUnique(base: seq<Candidate>, id: string, p: int, q: int)
    requires IsLast(base, id, p) && IsLast(base, id, q)
    ensures p == q
  {
  }

  // ----- Termination -----

  /** Indexed memories the expansion has not got yet. */
  function Missing(cx: Context, st: State): nat {
    |cx.memories.Keys - st.seen|
  }

  /** A relation whose target is there, under a trimmed id, without evidence of the relation. */
  predicate Pending(cx: Context, st: State, r: Relation) {
    && Enabled(cx, r) && To(r) in st.seen && To(r) in st.active
    && st.active[To(r)].memoryId == To(r) && !HasEvidence(st.active[To(r)], r)
  }

  function PendingCount(cx: Context, st: State, n: nat): nat
    requires n <= |cx.relations|
  {
    if n == 0 then 0 else PendingCount(cx, st, n - 1) + if Pending(cx, st, cx.relations[n - 1]) then 1 else 0
  }

  lemma {:induction false} FewerPending(cx: Context, st: State, st': State, n: nat, k: int)
    requires n <= |cx.relations|
    requires forall r | r in cx.relations && Pending(cx, st', r) :: Pending(cx, st, r)
    ensures PendingCount(cx, st', n) <= PendingCount(cx, st, n)
    ensures 0 <= k < n && Pending(cx, st, cx.relations[k]) && !Pending(cx, st', cx.relations[k])
      ==> PendingCount(cx, st', n) < PendingCount(cx, st, n)
  {
    hide Pending;
    if n > 0 {
      FewerPending(cx, st, st', n - 1, k);
      assert cx.relations[n - 1] in cx.relations;
    }
  }

  lemma HasEvidenceMore(a: Candidate, b: Candidate, r: Relation)
    requires HasEvidence(a, r) && a.provenance <= b.provenance
    ensures HasEvidence(b, r)
  {
    hide Note, From;
  }

  /** Without a stall, an annotation is made on a trimmed id. */
  lemma AnnotatesPending(cx: Context, base: seq<Candidate>, st: State, r: Relation)
    requires Inv(cx, base, st) && !Stalls(cx, base) && r in cx.relations && Annotates(cx, st, r)
    ensures Pending(cx, st, r)
  {
    hide TrimSpace, Enabled, HasEvidence;
    assert Filed(base, st, To(r)) && Explained(cx, base, st, From(r));
    var p := st.position[To(r)];
    assert Reachable(cx, IdsOf(base), From(r));
    assert !StallsAt(cx, base, r, p);
  }

  /** An annotation that was due is made, and none comes undone. */
  lemma EnrichShrinks(cx: Context, base: seq<Candidate>, st: State, r: Relation)
    requires Inv(cx, base, st) && !Stalls(cx, base) && r in cx.relations && Annotates(cx, st, r)
    ensures var st' := Enrich(cx, st, r);
      && st'.seen == st.seen
      && (forall q | q in cx.relations && Pending(cx, st', q) :: Pending(cx, st, q))
      && Pending(cx, st, r) && !Pending(cx, st', r)
  {
    AnnotatesPending(cx, base, st, r);
    hide TrimSpace, Enabled, HasEvidence, Expanded, Stalls;
    var source, target := st.active[From(r)], st.active[To(r)];
    ExpandedEvidence(source, target, r, []);
    ExpandedId(source, target, r);
    var st' := Enrich(cx, st, r);
    forall q | q in cx.relations && Pending(cx, st', q) ensures Pending(cx, st, q) {
      if To(q) == To(r) && HasEvidence(target, q) {
        HasEvidenceMore(target, Expanded(source, target, r), q);
      }
    }
  }

  lemma ExpandedId(source: Candidate, target: Candidate, r: Relation)
    ensures Expanded(source, target, r).memoryId == target.memoryId
  {
  }

  lemma {:induction false} EnrichPassShrinks(cx: Context, base: seq<Candidate>, st: State, n: nat)
    requires Inv(cx, base, st) && !Stalls(cx, base) && n <= |cx.relations|
    ensures Inv(cx, base, EnrichPass(cx, st, n).0) && EnrichPass(cx, st, n).0.seen == st.seen
    ensures PendingCount(cx, EnrichPass(cx, st, n).0, |cx.relations|) <= PendingCount(cx, st, |cx.relations|)
    ensures EnrichPass(cx, st, n).1 ==>
      PendingCount(cx, EnrichPass(cx, st, n).0, |cx.relations|) < PendingCount(cx, st, |cx.relations|)
  {
    hide Inv, Enrich, Annotates, Pending, Stalls, PendingCount;
    InvIsPlaced(cx, base, st);
    EnrichPassKeepsInv(cx, base, st, n);
    if n > 0 {
      EnrichPassShrinks(cx, base, st, n - 1);
      var s, r := EnrichPass(cx, st, n - 1).0, cx.relations[n - 1];
      if Annotates(cx, s, r) {
        EnrichShrinks(cx, base, s, r);
        FewerPending(cx, s, Enrich(cx, s, r), |cx.relations|, n - 1);
      } else {
        QuietOne(cx, s, r);
      }
    }
  }

  lemma QuietOne(cx: Context, st: State, r: Relation)
    requires WellPlaced(st) && !Annotates(cx, st, r)
    ensures Enrich(cx, st, r) == st
  {
  }

  lemma {:induction false} ExpandPassShrinks(cx: Context, st: State, n: nat)
    requires WellPlaced(st) && n <= |cx.relations|
    ensures Missing(cx, ExpandPass(cx, st, n).0) <= Missing(cx, st)
    ensures ExpandPass(cx, st, n).1 ==> Missing(cx, ExpandPass(cx, st, n).0) < Missing(cx, st)
    ensures !ExpandPass(cx, st, n).1 ==> ExpandPass(cx, st, n).0 == st
  {
    hide Expand, Adds, Missing;
    if n > 0 {
      ExpandPassShrinks(cx, st, n - 1);
      ExpandShrinks(cx, ExpandPass(cx, st, n - 1).0, cx.relations[n - 1]);
    }
  }

  lemma ExpandShrinks(cx: Context, st: State, r: Relation)
    ensures Adds(cx, st, r) ==> Missing(cx, Expand(cx, st, r)) < Missing(cx, st)
    ensures !Adds(cx, st, r) ==> Expand(cx, st, r) == st
  {
    if Adds(cx, st, r) {
      AddedCandidate(cx, st, r);
      hide Expanded, Expand, StableId;
      assert To(r) in cx.memories.Keys - st.seen;
      assert cx.memories.Keys - Expand(cx, st, r).seen == cx.memories.Keys - st.seen - {To(r)};
    }
  }

  /** Every round after which the loop goes on lowers the pair (memories missing, annotations
      pending), taken lexicographically. */
  lemma RoundShrinks(cx: Context, base: seq<Candidate>, st: State)
    requires Inv(cx, base, st) && !Stalls(cx, base) && Round(cx, st).1
    ensures var st' := Round(cx, st).0;
      || Missing(cx, st') < Missing(cx, st)
      || (Missing(cx, st') == Missing(cx, st)
          && PendingCount(cx, st', |cx.relations|) < PendingCount(cx, st, |cx.relations|))
  {
    hide Inv, Stalls, EnrichPass, ExpandPass, PendingCount;
    InvIsPlaced(cx, base, st);
    EnrichPassShrinks(cx, base, st, |cx.relations|);
    ExpandPassShrinks(cx, EnrichPass(cx, st, |cx.relations|).0, |cx.relations|);
  }

  /** The state after n rounds. */
  function Rounds(cx: Context, st: State, n: nat): (r: State)
    requires WellPlaced(st)
    ensures WellPlaced(r)
  {
    if n == 0 then st else Round(cx, Rounds(cx, st, n - 1)).0
  }

  lemma {:induction false} RoundsKeepInv(cx: Context, base: seq<Candidate>, st: State, n: nat)
    requires Inv(cx, base, st) && WellPlaced(st)
    ensures Inv(cx, base, Rounds(cx, st, n))
  {
    hide Inv, Round;
    if n > 0 {
      RoundsKeepInv(cx, base, st, n - 1);
      RoundKeepsInv(cx, base, Rounds(cx, st, n - 1));
    }
  }

  lemma {:induction false} QuietEventually(cx: Context, base: seq<Candidate>, st: State, n: nat) returns (m: nat)
    requires WellPlaced(st) && Inv(cx, base, st) && !Stalls(cx, base)
    ensures !Round(cx, Rounds(cx, st, m)).1
    decreases Missing(cx, Rounds(cx, st, n)), PendingCount(cx, Rounds(cx, st, n), |cx.relations|)
  {
    hide Inv, Round, Stalls, Missing, PendingCount;
    RoundsKeepInv(cx, base, st, n);
    var s := Rounds(cx, st, n);
    if Round(cx, s).1 {
      RoundShrinks(cx, base, s);
      m := QuietEventually(cx, base, st, n + 1);
    } else {
      m := n;
    }
  }

  /** The loop ends exactly when no reachable relation stalls on an untrimmed base id; otherwise
      every round, forever, reports that it enriched something. */
  lemma LoopEndsUnlessStalled(cx: Context, base: seq<Candidate>)
    ensures Inv(cx, base, Initial(base, |base|)) && WellPlaced(Initial(base, |base|))
    ensures (exists n :: !Round(cx, Rounds(cx, Initial(base, |base|), n)).1) <==> !Stalls(cx, base)
  {
    hide Inv, Round, Stalls, Rounds, Initial;
    InitialInv(cx, base);
    var st := Initial(base, |base|);
    InvIsPlaced(cx, base, st);
    if !Stalls(cx, base) {
      var m := QuietEventually(cx, base, st, 0);
    } else {
      forall n: nat ensures Round(cx, Rounds(cx, st, n)).1 {
        RoundsKeepInv(cx, base, st, n);
        StalledRoundIsNotQuiet(cx, base, Rounds(cx, st, n));
      }
    }
  }

  /** Base ids that are trimmed, as they come from the store, never stall. */
  lemma TrimmedBaseNeverStalls(cx: Context, base: seq<Candidate>)
    requires forall c | c in base :: Trimmed(c.memoryId)
    ensures !Stalls(cx, base)
  {
    hide TrimSpace, Enabled, HasEvidence;
    forall r, p ensures !StallsAt(cx, base, r, p) {
      assert 0 <= p < |base| ==> base[p] in base;
    }
  }

  /** A stall in the smallest: " b" is in the base, "a" points at "b". */
  lemma StallExample() returns (cx: Context, base: seq<Candidate>)
    ensures |base| == 2 && |cx.relations| == 1 && Stalls(cx, base)
  {
    var d := Details("", "", "", "", 0, 0.0);
    var r := Relation("a", "b", "knows", [], [], "", 1.0, "");
    cx := Context("", "", map["b" := Candidate("b", "", d, [])], [r], (s: string) => s,
                  (q: string, terms: seq<string>) => true);
    base := [Candidate("a", "", d, []), Candidate(" b", "", d, [])];
    assert TrimSpace(" b") == "b";
    assert From(r) == "a" && To(r) == "b" && StableId(base[0]) == "a";
    assert Enabled(cx, r);
    assert base[0] in base;
    assert "a" in IdsOf(base);
    assert PathTo(cx, IdsOf(base), [], "a");
    assert IsLast(base, "b", 1);
    assert StallsAt(cx, base, r, 1);
  }

  // ----- What later rounds keep -----

  /** Added candidates keep their slots, their fields and their provenance. */
  ghost predicate Grows(base: seq<Candidate>, st: State, st': State) {
    |st.out| <= |st'.out| && forall i | |base| <= i < |st.out| :: SameButMore(st.out[i], st'.out[i])
  }

  lemma EnrichGrows(cx: Context, base: seq<Candidate>, st: State, r: Relation)
    requires Inv(cx, base, st)
    ensures Grows(base, st, Enrich(cx, st, r))
  {
    hide TrimSpace, Enabled, HasEvidence, GraphEvidence;
    if Annotates(cx, st, r) {
      assert Filed(base, st, To(r));
      ExpandedEvidence(st.active[From(r)], st.active[To(r)], r, []);
    }
  }

  lemma {:induction false} EnrichPassGrows(cx: Context, base: seq<Candidate>, st: State, n: nat)
    requires Inv(cx, base, st) && WellPlaced(st) && n <= |cx.relations|
    ensures Grows(base, st, EnrichPass(cx, st, n).0)
  {
    hide Inv, Enrich, Annotates;
    if n > 0 {
      EnrichPassGrows(cx, base, st, n - 1);
      EnrichPassKeepsInv(cx, base, st, n - 1);
      EnrichGrows(cx, base, EnrichPass(cx, st, n - 1).0, cx.relations[n - 1]);
    }
  }

  lemma {:induction false} ExpandPassGrows(cx: Context, st: State, n: nat)
    requires WellPlaced(st) && n <= |cx.relations|
    ensures st.out <= ExpandPass(cx, st, n).0.out
  {
    hide Adds, Expanded, Target;
    if n > 0 {
      ExpandPassGrows(cx, st, n - 1);
    }
  }

  /** Later rounds never take provenance away from a candidate expansion has added. */
  lemma RoundGrows(cx: Context, base: seq<Candidate>, st: State)
    requires Inv(cx, base, st) && WellPlaced(st)
    ensures Grows(base, st, Round(cx, st).0)
  {
    hide Inv, EnrichPass, ExpandPass;
    EnrichPassGrows(cx, base, st, |cx.relations|);
    ExpandPassGrows(cx, EnrichPass(cx, st, |cx.relations|).0, |cx.relations|);
  }

  // ----- The expansion -----

  /** What the caller gets: the base with more provenance, then each reachable memory that was
      not in it, once, carrying evidence for every edge of a path from a base candidate, and for
      every enabled relation into it from a reachable memory. Base candidates are annotated alike. */
  ghost predicate Expansion(cx: Context, base: seq<Candidate>, out: seq<Candidate>) {
    && |base| <= |out|
    && (forall i | 0 <= i < |base| :: SameButMore(base[i], out[i]))
    && (forall id :: id in IdsOf(out) <==> Reachable(cx, IdsOf(base), id) && id != "")
    && (forall i | |base| <= i < |out| ::
          var id := out[i].memoryId;
          && Trimmed(id) && id != "" && id !in IdsOf(base)
          && (exists path :: PathTo(cx, IdsOf(base), path, id) && Evidenced(out[i].provenance, path))
          && (forall r | r in cx.relations && Enabled(cx, r) && To(r) == id && Reachable(cx, IdsOf(base), From(r)) ::
                HasEvidence(out[i], r)))
    && (forall i, j :: |base| <= i < j < |out| ==> out[i].memoryId != out[j].memoryId)
    && BaseAnnotated(cx, base, out)
  }

  /** Of the base candidates of one id the last has evidence of every enabled relation into it from
      a reachable id. */
  ghost predicate BaseAnnotated(cx: Context, base: seq<Candidate>, out: seq<Candidate>)
    requires |base| <= |out|
  {
    forall i, r | 0 <= i < |base| && r in cx.relations && IntoBase(cx, base, i, r) :: HasEvidence(out[i], r)
  }

  ghost predicate IntoBase(cx: Context, base: seq<Candidate>, i: int, r: Relation) {
    IsLast(base, To(r), i) && Enabled(cx, r) && Reachable(cx, IdsOf(base), From(r))
  }

  lemma QuietIsAnnotated(cx: Context, base: seq<Candidate>, st: State, i: nat, r: Relation)
    requires Inv(cx, base, st) && r in cx.relations && IntoBase(cx, base, i, r)
    requires (forall id :: id in st.seen <==> Reachable(cx, IdsOf(base), id)) && !Annotates(cx, st, r)
    ensures HasEvidence(st.out[i], r)
  {
    hide TrimSpace, HasEvidence, Accepted, Matches, Target, ScopeMismatch;
    var id := To(r);
    assert base[i] in base && id in IdsOf(base);
    IdsOfBase(base, st);
    assert Filed(base, st, id) && Filed(base, st, From(r));
    LastIsUnique(base, id, i, st.position[id]);
    assert HasEvidence(st.active[id], r);
    EvidenceStays(st.active[id], st.out[i], r);
  }

  lemma EvidenceStays(a: Candidate, b: Candidate, r: Relation)
    requires HasEvidence(a, r) && a.provenance <= b.provenance
    ensures HasEvidence(b, r)
  {
    var item :| item in a.provenance && item.kind == GRAPH
      && ((r.evidenceId != "" && item.id == r.evidenceId) || (item.source == From(r) && item.note == Note(r)));
    assert item in b.provenance;
  }

  lemma AddedIsFiled(base: seq<Candidate>, st: State, i: nat)
    requires |base| <= i < |st.out| && AddsOnce(base, st) && st.seen == IdsOf(st.out)
    requires forall id | id in st.seen :: Filed(base, st, id)
    ensures var id := st.out[i].memoryId;
      id in st.seen && id in st.active && st.active[id] == st.out[i]
  {
    var id := st.out[i].memoryId;
    hide TrimSpace;
    assert st.out[i] in st.out && StableId(st.out[i]) == id;
    assert Filed(base, st, id);
  }

  lemma QuietIsExpansion(cx: Context, base: seq<Candidate>, st: State)
    requires Inv(cx, base, st) && !Round(cx, st).1
    ensures Expansion(cx, base, st.out)
  {
    hide TrimSpace, Enabled, HasEvidence, Round;
    QuietRound(cx, base, st);
    forall i | |base| <= i < |st.out|
      ensures var id := st.out[i].memoryId;
          && (exists path :: PathTo(cx, IdsOf(base), path, id) && Evidenced(st.out[i].provenance, path))
          && (forall r | r in cx.relations && Enabled(cx, r) && To(r) == id && Reachable(cx, IdsOf(base), From(r)) ::
                HasEvidence(st.out[i], r))
    {
      AddedIsFiled(base, st, i);
      var id := st.out[i].memoryId;
      assert Explained(cx, base, st, id) && Filed(base, st, id);
      forall r | r in cx.relations && Enabled(cx, r) && To(r) == id && Reachable(cx, IdsOf(base), From(r))
        ensures HasEvidence(st.out[i], r)
      {
        assert Filed(base, st, From(r)) && !Annotates(cx, st, r);
      }
    }
    hide Inv;
    forall i, r | 0 <= i < |base| && r in cx.relations && IntoBase(cx, base, i, r) ensures HasEvidence(st.out[i], r) {
      QuietIsAnnotated(cx, base, st, i, r);
    }
  }

  /** The ids found do not depend on the order or repetition of relations. */
  lemma IdsIgnoreRelationOrder(cx: Context, cx': Context, base: seq<Candidate>,
                               out: seq<Candidate>, out': seq<Candidate>)
    requires cx' == cx.(relations := cx'.relations)
    requires forall r :: r in cx.relations <==> r in cx'.relations
    requires Expansion(cx, base, out) && Expansion(cx', base, out')
    ensures IdsOf(out) == IdsOf(out')
  {
    forall id ensures Reachable(cx, IdsOf(base), id) <==> Reachable(cx', IdsOf(base), id) {
      forall path ensures PathTo(cx, IdsOf(base), path, id) <==> PathTo(cx', IdsOf(base), path, id) {
        PathIgnoresOrder(cx, cx', IdsOf(base), path, id);
      }
      hide PathTo;
    }
  }

  lemma {:induction false} PathIgnoresOrder(cx: Context, cx': Context, ids: set<string>, path: seq<Relation>, id: string)
    requires cx' == cx.(relations := cx'.relations)
    requires forall r :: r in cx.relations <==> r in cx'.relations
    ensures PathTo(cx, ids, path, id) <==> PathTo(cx', ids, path, id)
  {
    if path != [] {
      PathIgnoresOrder(cx, cx', ids, path[..|path| - 1], From(path[|path| - 1]));
    }
  }

  class GraphExpansion {
    const cx: Context
    var candidates: seq<Candidate>
    var seen: set<string>
    var active: map<string, Candidate>
    var position: map<string, nat>

    ghost function Current(): State
      reads this
    {
      State(candidates, seen, active, position)
    }

    /** `newGraphExpansionState` over a copy of the base. */
    constructor (cx: Context, base: seq<Candidate>)
      ensures this.cx == cx && Current() == Initial(base, |base|)
    {
      this.cx := cx;
      candidates, seen, active, position := base, {}, map[], map[];
      new;
      for i := 0 to |base|
        invariant candidates == base && Current() == Initial(base, i)
      {
        Register(base[i], i);
      }
    }

    /** `addAt`. */
    method Register(c: Candidate, i: nat)
      modifies this
      ensures Current() == AddAt(old(Current()), c, i)
    {
      var id := StableId(c);
      if id != "" {
        seen := seen + {id};
        active := active[id := c];
        position := position[id := i];
      }
    }

    /** `enrichExistingGraphRecallCandidates`. */
    method EnrichExisting() returns (enriched: bool)
      requires WellPlaced(Current())
      modifies this
      ensures WellPlaced(Current()) && (Current(), enriched) == EnrichPass(cx, old(Current()), |cx.relations|)
    {
      hide Enabled, HasEvidence, Expanded;
      enriched := false;
      for i := 0 to |cx.relations|
        invariant WellPlaced(Current()) && (Current(), enriched) == EnrichPass(cx, old(Current()), i)
      {
        var r := cx.relations[i];
        if !Enabled(cx, r) || From(r) !in seen || To(r) !in seen {
          continue;
        }
        if From(r) !in active || To(r) !in active || To(r) !in position || HasEvidence(active[To(r)], r) {
          continue;
        }
        var target := Expanded(active[From(r)], active[To(r)], r);
        candidates := candidates[position[To(r)] := target];
        active := active[target.memoryId := target];
        enriched := true;
      }
    }

    /** The second half of a round, in `expandGraphRecallCandidates`. */
    method AddRelated() returns (added: bool)
      requires WellPlaced(Current())
      modifies this
      ensures WellPlaced(Current()) && (Current(), added) == ExpandPass(cx, old(Current()), |cx.relations|)
    {
      hide HasEvidence, Expanded, StableId, Accepted, Matches, ScopeMismatch;
      added := false;
      for i := 0 to |cx.relations|
        invariant WellPlaced(Current()) && (Current(), added) == ExpandPass(cx, old(Current()), i)
      {
        var r := cx.relations[i];
        if !Enabled(cx, r) || From(r) !in seen || To(r) in seen {
          continue;
        }
        if From(r) !in active {
          continue;
        }
        var target := Expanded(active[From(r)], Target(cx, r).value, r);
        candidates := candidates + [target];
        Register(target, |candidates| - 1);
        added := true;
      }
    }
  }

  /** The whole expansion. The source loops for ever on a stall, and on nothing else
      (`LoopEndsUnlessStalled`). */
  method ExpandGraphRecallCandidates(cx: Context, base: seq<Candidate>) returns (out: seq<Candidate>)
    requires !Stalls(cx, base)
    ensures Expansion(cx, base, out)
  {
    hide Inv, Stalls, EnrichPass, ExpandPass, Initial, PendingCount, Missing, Expansion;
    var g := new GraphExpansion(cx, base);
    InitialInv(cx, base);
    while true
      invariant g.cx == cx && fresh(g) && Inv(cx, base, g.Current())
      decreases Missing(cx, g.Current()), PendingCount(cx, g.Current(), |cx.relations|)
    {
      ghost var before := g.Current();
      InvIsPlaced(cx, base, before);
      var enriched := g.EnrichExisting();
      var added := g.AddRelated();
      RoundKeepsInv(cx, base, before);
      assert (g.Current(), enriched || added) == Round(cx, before);
      if !added && !enriched {
        QuietIsExpansion(cx, base, before);
        QuietRoundStays(cx, base, before);
        return g.candidates;
      }
      RoundShrinks(cx, base, before);
    }
  }

  lemma QuietRoundStays(cx: Context, base: seq<Candidate>, st: State)
    requires Inv(cx, base, st) && !Round(cx, st).1
    ensures Round(cx, st).0 == st
  {
    hide Inv, Round;
    InvIsPlaced(cx, base, st);
    QuietRound(cx, base, st);
  }
}
