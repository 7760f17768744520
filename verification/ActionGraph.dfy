/** service/action_graph.go: actions with dependencies, and the frontier of actions that may be
    done next. One workspace, profile and peer; signals are not part of the model. */
module ActionGraph {
  import Finite
  import opened Text
  import opened Sorting

  datatype Option<T> = None | Some(value: T)

  datatype Status = Pending | Done

  datatype Action = Action(title: string, status: Status, createdAt: int, updatedAt: int)

  /** The two tables: actions by id, and rows (action, depends_on). */
  datatype Graph = Graph(actions: map<string, Action>, edges: set<(string, string)>)

  datatype Node = Node(id: string, action: Action, dependsOn: set<string>)

  datatype Error = IdRequired | TitleRequired | NoSuchAction

  datatype Result<T> = Ok(value: T) | Err(error: Error)

  function DependsOn(g: Graph, id: string): set<string> {
    set e | e in g.edges && e.0 == id :: e.1
  }

  function NodeOf(g: Graph, id: string): Node
    requires id in g.actions
  {
    Node(id, g.actions[id], DependsOn(g, id))
  }

  predicate PendingIn(g: Graph, id: string) {
    id in g.actions && g.actions[id].status == Pending
  }

  predicate DoneIn(g: Graph, id: string) {
    id in g.actions && g.actions[id].status == Done
  }

  /** The action may be done next: it is pending and everything it depends on is done. */
  predicate Ready(g: Graph, id: string) {
    PendingIn(g, id) && forall d | d in DependsOn(g, id) :: DoneIn(g, d)
  }

  // ----- The writes as functions -----

  /** `textutil.UniqueTrimmed`, as a set. */
  function TrimmedNonEmpty(values: seq<string>): set<string> {
    set v | v in values && TrimSpace(v) != "" :: TrimSpace(v)
  }

  function Upsert(g: Graph, id: string, title: string, dependsOn: seq<string>, now: int): (Graph, Result<Node>) {
    var key, name := TrimSpace(id), TrimSpace(title);
    if key == "" then (g, Err(IdRequired))
    else if name == "" then (g, Err(TitleRequired))
    else
      var action := if key in g.actions
                    then g.actions[key].(title := name, updatedAt := now)
                    else Action(name, Pending, now, now);
      var kept := set e | e in g.edges && e.0 != key;
      var added := set d | d in TrimmedNonEmpty(dependsOn) :: (key, d);
      var g' := Graph(g.actions[key := action], kept + added);
      (g', Ok(NodeOf(g', key)))
  }

  /** What an upsert has in hand between reading the action and writing it. */
  datatype InHand = InHand(key: string, action: Action, dependsOn: set<string>)

  /** The reading half: a known action keeps its status and creation time. */
  function BeginUpsert(g: Graph, id: string, title: string, dependsOn: seq<string>, now: int): InHand {
    var key := TrimSpace(id);
    var action := Action(TrimSpace(title), if key in g.actions then g.actions[key].status else Pending,
                         if key in g.actions then g.actions[key].createdAt else now, now);
    InHand(key, action, TrimmedNonEmpty(dependsOn))
  }

  /** The writing half: a row that is there keeps its creation time, and takes title and status. */
  function FinishUpsert(g: Graph, h: InHand): Graph {
    var action := if h.key in g.actions then h.action.(createdAt := g.actions[h.key].createdAt) else h.action;
    Graph(g.actions[h.key := action],
          (set e | e in g.edges && e.0 != h.key) + (set d | d in h.dependsOn :: (h.key, d)))
  }

  /** Undisturbed, the halves make the whole. */
  lemma UpsertReadsThenWrites(g: Graph, id: string, title: string, dependsOn: seq<string>, now: int)
    requires TrimSpace(id) != "" && TrimSpace(title) != ""
    ensures Upsert(g, id, title, dependsOn, now).0 == FinishUpsert(g, BeginUpsert(g, id, title, dependsOn, now))
  {
    hide TrimSpace, TrimmedNonEmpty, DependsOn;
  }

  function Complete(g: Graph, id: string, now: int): (Graph, Result<Node>) {
    var key := TrimSpace(id);
    if key == "" then (g, Err(IdRequired))
    else if key !in g.actions then (g, Err(NoSuchAction))
    else
      var g' := g.(actions := g.actions[key := g.actions[key].(status := Done, updatedAt := now)]);
      (g', Ok(NodeOf(g', key)))
  }

  // ----- The frontier as a function -----

  /** ORDER BY created_at, action_id; also the order of the frontier. */
  predicate Earlier(a: Node, b: Node) {
    a.action.createdAt < b.action.createdAt || (a.action.createdAt == b.action.createdAt && Less(a.id, b.id))
  }

  /** `statusByID`: the last node listed under an id decides. */
  function Statuses(nodes: seq<Node>): map<string, Status> {
    if nodes == [] then map[]
    else Statuses(nodes[..|nodes| - 1])[nodes[|nodes| - 1].id := nodes[|nodes| - 1].action.status]
  }

  predicate ReadyNode(statuses: map<string, Status>, node: Node) {
    node.action.status == Pending && forall d | d in node.dependsOn :: d in statuses && statuses[d] == Done
  }

  function ReadyNodes(statuses: map<string, Status>, nodes: seq<Node>): seq<Node> {
    if nodes == [] then []
    else ReadyNodes(statuses, nodes[..|nodes| - 1]) +
         (if ReadyNode(statuses, nodes[|nodes| - 1]) then [nodes[|nodes| - 1]] else [])
  }

  function Frontier(nodes: seq<Node>): seq<Node> {
    StableSort(ReadyNodes(Statuses(nodes), nodes), Earlier)
  }

  /** `actionFrontier`. */
  method ActionFrontier(nodes: seq<Node>) returns (frontier: seq<Node>)
    ensures frontier == Frontier(nodes)
  {
    var statuses: map<string, Status> := map[];
    for i := 0 to |nodes|
      invariant statuses == Statuses(nodes[..i])
    {
      assert nodes[..i + 1][..i] == nodes[..i];
      statuses := statuses[nodes[i].id := nodes[i].action.status];
    }
    assert nodes[..|nodes|] == nodes;
    frontier := [];
    for i := 0 to |nodes|
      invariant frontier == ReadyNodes(statuses, nodes[..i])
    {
      assert nodes[..i + 1][..i] == nodes[..i];
      var node := nodes[i];
      if node.action.status != Pending {
        continue;
      }
      var ready := true;
      var rest := node.dependsOn;
      while rest != {}
        invariant ready && rest <= node.dependsOn
        invariant forall d | d in node.dependsOn && d !in rest :: d in statuses && statuses[d] == Done
        decreases rest
      {
        var d :| d in rest;
        if d !in statuses || statuses[d] != Done {
          ready := false;
          break;
        }
        rest := rest - {d};
      }
      if ready {
        frontier := frontier + [node];
      }
    }
    frontier := StableSort(frontier, Earlier);
  }

  // ----- The graph as it is read -----

  /** The nodes `listActionNodes` gives: every action once, in order. */
  ghost predicate Lists(g: Graph, nodes: seq<Node>) {
    && (forall n | n in nodes :: n.id in g.actions && n == NodeOf(g, n.id))
    && (forall id | id in g.actions :: NodeOf(g, id) in nodes)
    && (forall i, j :: 0 <= i < j < |nodes| ==> nodes[i].id != nodes[j].id)
    && Sorted(nodes, Earlier)
  }

  datatype Reading = Reading(nodes: seq<Node>, frontier: seq<Node>, next: Option<Node>)

  lemma {:induction false} StatusesOfDistinct(nodes: seq<Node>, i: nat)
    requires forall i, j :: 0 <= i < j < |nodes| ==> nodes[i].id != nodes[j].id
    requires i < |nodes|
    ensures nodes[i].id in Statuses(nodes) && Statuses(nodes)[nodes[i].id] == nodes[i].action.status
  {
    if i < |nodes| - 1 {
      StatusesOfDistinct(nodes[..|nodes| - 1], i);
    }
  }

  lemma {:induction false} StatusesKeys(nodes: seq<Node>, id: string)
    requires id in Statuses(nodes)
    ensures exists i :: 0 <= i < |nodes| && nodes[i].id == id
  {
    var n := |nodes| - 1;
    if nodes[n].id != id {
      StatusesKeys(nodes[..n], id);
      var i :| 0 <= i < n && nodes[..n][i].id == id;
      assert nodes[i].id == id;
    }
  }

  lemma StatusesMeanGraph(g: Graph, nodes: seq<Node>, id: string)
    requires Lists(g, nodes)
    ensures id in Statuses(nodes) && Statuses(nodes)[id] == Done <==> DoneIn(g, id)
  {
    hide Statuses;
    if id in Statuses(nodes) {
      StatusesKeys(nodes, id);
      var i :| 0 <= i < |nodes| && nodes[i].id == id;
      assert nodes[i] in nodes;
      StatusesOfDistinct(nodes, i);
    }
    if id in g.actions {
      assert NodeOf(g, id) in nodes;
      var i :| 0 <= i < |nodes| && nodes[i] == NodeOf(g, id);
      StatusesOfDistinct(nodes, i);
    }
  }

  lemma {:induction false} ReadyNodesMembers(statuses: map<string, Status>, nodes: seq<Node>, n: Node)
    ensures n in ReadyNodes(statuses, nodes) <==> n in nodes && ReadyNode(statuses, n)
  {
    if nodes != [] {
      ReadyNodesMembers(statuses, nodes[..|nodes| - 1], n);
    }
  }

  lemma EarlierIsStrictWeak()
    ensures StrictWeak(Earlier)
  {
    forall x: Node, y: Node | Earlier(x, y) ensures !Earlier(y, x) {
      if Less(x.id, y.id) && Less(y.id, x.id) {
        LessTransitive(x.id, y.id, x.id);
        LessIrreflexive(x.id);
      }
    }
    forall x: Node, y: Node, z: Node | Earlier(x, z) ensures Earlier(x, y) || Earlier(y, z) {
      LessTotal(x.id, y.id);
      if Less(y.id, x.id) && Less(x.id, z.id) {
        LessTransitive(y.id, x.id, z.id);
      }
    }
  }

  /** `id` is what the reading offers as the next action: ready, and no ready one is earlier. */
  ghost predicate IsNext(g: Graph, id: string) {
    Ready(g, id) && forall o | Ready(g, o) :: !Earlier(NodeOf(g, o), NodeOf(g, id))
  }

  /** The frontier is the ready actions, in order, and the next action is the first of them. */
  ghost predicate Reads(g: Graph, r: Reading) {
    && Lists(g, r.nodes)
    && (forall n :: n in r.frontier <==> Ready(g, n.id) && n == NodeOf(g, n.id))
    && Sorted(r.frontier, Earlier)
    && (r.next == None <==> forall id :: !Ready(g, id))
    && (r.next.Some? ==> IsNext(g, r.next.value.id) && r.next.value == NodeOf(g, r.next.value.id))
  }

  lemma FrontierMeansReady(g: Graph, nodes: seq<Node>)
    requires Lists(g, nodes)
    ensures var f := Frontier(nodes); Reads(g, Reading(nodes, f, if f == [] then None else Some(f[0])))
  {
    var statuses := Statuses(nodes);
    var picked := ReadyNodes(statuses, nodes);
    var f := Frontier(nodes);
    StableSortMembers(picked, Earlier);
    EarlierIsStrictWeak();
    StableSortSorts(picked, Earlier);
    hide StableSort, Statuses, ReadyNodes, Less, StrictWeak;
    forall n ensures n in f <==> Ready(g, n.id) && n == NodeOf(g, n.id) {
      ReadyNodesMembers(statuses, nodes, n);
      if n in nodes {
        assert n == NodeOf(g, n.id);
        forall d ensures d in statuses && statuses[d] == Done <==> DoneIn(g, d) {
          StatusesMeanGraph(g, nodes, d);
        }
      }
    }
    assert forall id | Ready(g, id) :: NodeOf(g, id) in f;
    if f != [] {
      assert f[0] in f;
      forall o | Ready(g, o) ensures !Earlier(NodeOf(g, o), f[0]) {
        assert NodeOf(g, o) in f;
        var i :| 0 <= i < |f| && f[i] == NodeOf(g, o);
        NotEarlierThanItself(f[0]);
      }
    }
  }

  lemma NotEarlierThanItself(n: Node)
    ensures !Earlier(n, n)
  {
    LessIrreflexive(n.id);
  }

  lemma UpsertReplies(g: Graph, id: string, title: string, dependsOn: seq<string>, now: int)
    requires TrimSpace(id) != "" && TrimSpace(title) != ""
    ensures var (g', r) := Upsert(g, id, title, dependsOn, now);
      TrimSpace(id) in g'.actions && r == Ok(NodeOf(g', TrimSpace(id)))
  {
    hide TrimSpace, TrimmedNonEmpty, DependsOn;
  }

  class ActionStore {
    var graph: Graph

    method UpsertAction(id: string, title: string, dependsOn: seq<string>, now: int) returns (r: Result<Node>)
      modifies this
      ensures (graph, r) == Upsert(old(graph), id, title, dependsOn, now)
    {
      hide TrimSpace;
      var key, name := TrimSpace(id), TrimSpace(title);
      if key == "" {
        return Err(IdRequired);
      }
      if name == "" {
        return Err(TitleRequired);
      }
      var status, createdAt := Pending, now;
      if key in graph.actions {
        status, createdAt := graph.actions[key].status, graph.actions[key].createdAt;
      }
      UpsertReadsThenWrites(graph, id, title, dependsOn, now);
      hide Upsert;
      WriteAction(InHand(key, Action(name, status, createdAt, now), TrimmedNonEmpty(dependsOn)));
      UpsertReplies(old(graph), id, title, dependsOn, now);
      return Ok(NodeOf(graph, key));
    }

    /** `upsertActionNode` and `replaceActionDependencies`. */
    method WriteAction(h: InHand)
      modifies this
      ensures graph == FinishUpsert(old(graph), h)
    {
      if h.key in graph.actions {
        var row := graph.actions[h.key];
        row := row.(title := h.action.title, status := h.action.status, updatedAt := h.action.updatedAt);
        graph := graph.(actions := graph.actions[h.key := row]);
      } else {
        graph := graph.(actions := graph.actions[h.key := h.action]);
      }
      ReplaceDependencies(h.key, h.dependsOn);
    }

    /** `replaceActionDependencies`: delete the rows of the action, insert one per dependency. */
    method ReplaceDependencies(key: string, dependsOn: set<string>)
      modifies this
      ensures graph.actions == old(graph).actions
      ensures graph.edges == (set e | e in old(graph).edges && e.0 != key) + (set d | d in dependsOn :: (key, d))
    {
      var edges := set e | e in graph.edges && e.0 != key;
      var rest := dependsOn;
      while rest != {}
        invariant rest <= dependsOn
        invariant edges == (set e | e in graph.edges && e.0 != key) + (set d | d in dependsOn - rest :: (key, d))
        decreases rest
      {
        var d :| d in rest;
        edges, rest := edges + {(key, d)}, rest - {d};
      }
      graph := graph.(edges := edges);
    }

    method CompleteAction(id: string, now: int) returns (r: Result<Node>)
      modifies this
      ensures (graph, r) == Complete(old(graph), id, now)
    {
      var key := TrimSpace(id);
      if key == "" {
        return Err(IdRequired);
      }
      if key !in graph.actions {
        return Err(NoSuchAction);
      }
      graph := graph.(actions := graph.actions[key := graph.actions[key].(status := Done, updatedAt := now)]);
      return Ok(NodeOf(graph, key));
    }

    /** The rows of the action table, sorted. */
    method ListNodes() returns (nodes: seq<Node>)
      ensures Lists(graph, nodes)
    {
      hide DependsOn, Less, Earlier;
      nodes := [];
      var rest := graph.actions.Keys;
      while rest != {}
        invariant rest <= graph.actions.Keys
        invariant forall n | n in nodes :: n.id in graph.actions && n.id !in rest && n == NodeOf(graph, n.id)
        invariant forall id | id in graph.actions && id !in rest :: NodeOf(graph, id) in nodes
        invariant forall i, j :: 0 <= i < j < |nodes| ==> nodes[i].id != nodes[j].id
        decreases rest
      {
        var id :| id in rest;
        nodes, rest := nodes + [NodeOf(graph, id)], rest - {id};
      }
      SortedListing(graph, nodes);
      nodes := StableSort(nodes, Earlier);
    }

    /** `ReadActionGraph`. */
    method ReadActionGraph() returns (r: Reading)
      ensures Reads(graph, r)
    {
      hide Frontier, Reads, Lists;
      var nodes := ListNodes();
      FrontierMeansReady(graph, nodes);
      var frontier := ActionFrontier(nodes);
      var next := None;
      if |frontier| > 0 {
        next := Some(frontier[0]);
      }
      return Reading(nodes, frontier, next);
    }
  }

  lemma SortedListing(g: Graph, nodes: seq<Node>)
    requires forall n | n in nodes :: n.id in g.actions && n == NodeOf(g, n.id)
    requires forall id | id in g.actions :: NodeOf(g, id) in nodes
    requires forall i, j :: 0 <= i < j < |nodes| ==> nodes[i].id != nodes[j].id
    ensures Lists(g, StableSort(nodes, Earlier))
  {
    var s := StableSort(nodes, Earlier);
    EarlierIsStrictWeak();
    StableSortMembers(nodes, Earlier);
    StableSortSorts(nodes, Earlier);
    StableSortKeeps(nodes, Earlier);
    hide StableSort, Earlier, StrictWeak, DependsOn;
    DistinctIdsPermuted(nodes, s);
  }

  lemma DistinctIdsPermuted(nodes: seq<Node>, s: seq<Node>)
    requires (forall i, j :: 0 <= i < j < |nodes| ==> nodes[i].id != nodes[j].id) && multiset(nodes) == multiset(s)
    ensures forall i, j :: 0 <= i < j < |s| ==> s[i].id != s[j].id
  {
    Finite.PermutationDistinct(nodes, s);
    forall i, j | 0 <= i < j < |s| ensures s[i].id != s[j].id {
      assert s[i] in multiset(nodes) && s[j] in multiset(nodes);
      var k :| 0 <= k < |nodes| && nodes[k] == s[i];
      var l :| 0 <= l < |nodes| && nodes[l] == s[j];
      assert k != l;
    }
  }

  // ----- Done is for ever -----

  datatype Write = UpsertOf(id: string, title: string, dependsOn: seq<string>, now: int) | CompleteOf(id: string, now: int)

  function Apply(g: Graph, w: Write): Graph {
    match w
    case UpsertOf(id, title, dependsOn, now) => Upsert(g, id, title, dependsOn, now).0
    case CompleteOf(id, now) => Complete(g, id, now).0
  }

  function ApplyAll(g: Graph, ws: seq<Write>): Graph {
    if ws == [] then g else Apply(ApplyAll(g, ws[..|ws| - 1]), ws[|ws| - 1])
  }

  /** No sequence of writes turns a done action back, changes when an action was created, or
      removes one. */
  lemma {:induction false} DoneStaysDone(g: Graph, ws: seq<Write>, id: string)
    requires id in g.actions
    ensures id in ApplyAll(g, ws).actions
    ensures DoneIn(g, id) ==> DoneIn(ApplyAll(g, ws), id)
    ensures ApplyAll(g, ws).actions[id].createdAt == g.actions[id].createdAt
  {
    hide TrimSpace, TrimmedNonEmpty, DependsOn;
    if ws != [] {
      DoneStaysDone(g, ws[..|ws| - 1], id);
    }
  }

  // ----- Calls that overlap -----

  /** A call as it commits. An upsert writes what it had in hand since it read the graph, `readAt`
      commits after the start. */
  datatype Commit =
    | Written(id: string, title: string, dependsOn: seq<string>, now: int, readAt: nat)
    | Completed(id: string, now: int)

  predicate Writes(c: Commit, id: string) {
    c.Written? && TrimSpace(c.id) == id && TrimSpace(c.id) != "" && TrimSpace(c.title) != ""
  }

  /** No upsert writes before it has read. */
  predicate Causal(commits: seq<Commit>) {
    forall p | 0 <= p < |commits| && commits[p].Written? :: commits[p].readAt <= p
  }

  /** The graph after the first n commits. */
  function After(g: Graph, commits: seq<Commit>, n: nat): Graph
    requires n <= |commits| && Causal(commits)
    decreases n
  {
    if n == 0 then g
    else
      match commits[n - 1]
      case Completed(id, now) => Complete(After(g, commits, n - 1), id, now).0
      case Written(id, title, dependsOn, now, readAt) =>
        if TrimSpace(id) == "" || TrimSpace(title) == "" then After(g, commits, n - 1)
        else FinishUpsert(After(g, commits, n - 1), BeginUpsert(After(g, commits, readAt), id, title, dependsOn, now))
  }

  /** A commit undoes a done action exactly when it writes it stale. */
  lemma DoneAfterCommit(g: Graph, commits: seq<Commit>, n: nat, id: string)
    requires n < |commits| && Causal(commits) && DoneIn(After(g, commits, n), id)
    ensures DoneIn(After(g, commits, n + 1), id) <==> !WritesStale(g, commits, n, id)
  {
    hide TrimSpace, TrimmedNonEmpty, DependsOn, Causal;
  }

  /** The action is done after n commits and after every later one. */
  ghost predicate DoneFrom(g: Graph, commits: seq<Commit>, n: nat, id: string)
    requires n <= |commits| && Causal(commits)
  {
    forall m | n <= m <= |commits| :: DoneIn(After(g, commits, m), id)
  }

  /** The commit writes the action as it was read before it was done. */
  ghost predicate WritesStale(g: Graph, commits: seq<Commit>, p: nat, id: string)
    requires p < |commits| && Causal(commits)
  {
    Writes(commits[p], id) && !DoneIn(After(g, commits, commits[p].readAt), id)
  }

  /** With overlapping calls, an action done after n commits stays done if and only if no later write
      of it is stale. */
  lemma DoneSurvivesOverlap(g: Graph, commits: seq<Commit>, n: nat, id: string)
    requires n <= |commits| && Causal(commits) && DoneIn(After(g, commits, n), id)
    ensures DoneFrom(g, commits, n, id) <==> forall p | n <= p < |commits| :: !WritesStale(g, commits, p, id)
  {
    hide After, TrimSpace, DoneIn, Causal, Writes;
    if DoneFrom(g, commits, n, id) {
      forall p | n <= p < |commits| ensures !WritesStale(g, commits, p, id) {
        assert DoneIn(After(g, commits, p), id) && DoneIn(After(g, commits, p + 1), id);
        DoneAfterCommit(g, commits, p, id);
      }
    }
    if forall p | n <= p < |commits| :: !WritesStale(g, commits, p, id) {
      for m := n to |commits|
        invariant forall k | n <= k <= m :: DoneIn(After(g, commits, k), id)
      {
        assert !WritesStale(g, commits, m, id);
        DoneAfterCommit(g, commits, m, id);
      }
    }
  }

  /** The failing case: an upsert reads a pending action, the action is completed, and the upsert
      writes it back as pending. */
  lemma LateWriteUndoesDone(g: Graph, id: string, title: string, now: int)
    requires PendingIn(g, id) && Trimmed(id) && id != "" && TrimSpace(title) != ""
    ensures var commits := [Completed(id, now), Written(id, title, [], now, 0)];
      Causal(commits) && DoneIn(After(g, commits, 1), id) && PendingIn(After(g, commits, 2), id)
  {
    hide TrimSpace, DependsOn, TrimmedNonEmpty;
    var commits := [Completed(id, now), Written(id, title, [], now, 0)];
    assert After(g, commits, 0) == g;
    assert After(g, commits, 1) == Complete(g, id, now).0;
  }

  // ----- Completing the next action, again and again -----

  function Finish(g: Graph, c: Completion): Graph {
    Complete(g, c.id, c.now).0
  }

  datatype Completion = Completion(id: string, now: int)

  /** The first n completions of the run, each of the action offered then, lead from g to h. */
  ghost predicate Leads(g: Graph, run: seq<Completion>, n: nat, h: Graph)
    requires n <= |run|
    decreases n, 0
  {
    if n == 0 then g == h else exists m :: LeadsVia(g, run, n, m, h)
  }

  ghost predicate LeadsVia(g: Graph, run: seq<Completion>, n: nat, m: Graph, h: Graph)
    requires 0 < n <= |run|
    decreases n - 1, 1
  {
    Leads(g, run, n - 1, m) && IsNext(m, run[n - 1].id) && h == Finish(m, run[n - 1])
  }

  function PendingIds(g: Graph): set<string> {
    set id | id in g.actions && g.actions[id].status == Pending
  }

  /** `id` is done in g or among the first n completions. */
  ghost predicate DoneBy(g: Graph, run: seq<Completion>, n: nat, id: string)
    requires n <= |run|
  {
    DoneIn(g, id) || exists i :: 0 <= i < n && run[i].id == id
  }

  ghost predicate SameShape(g: Graph, h: Graph) {
    h.edges == g.edges && h.actions.Keys == g.actions.Keys
  }

  /** A run completes pending actions one by one, each after everything it depends on; what is
      done at the end is what was done before and what the run completed. */
  lemma {:induction false} RunRespectsDependencies(g: Graph, run: seq<Completion>, n: nat, h: Graph)
    requires n <= |run| && Leads(g, run, n, h) && TrimmedIds(g)
    ensures SameShape(g, h) && TrimmedIds(h)
    ensures forall id :: DoneIn(h, id) <==> DoneBy(g, run, n, id)
    ensures forall i | 0 <= i < n :: PendingIn(g, run[i].id) && forall d | d in DependsOn(g, run[i].id) :: DoneBy(g, run, i, d)
    ensures |PendingIds(h)| + n == |PendingIds(g)|
  {
    hide DependsOn, IsNext, DoneBy, PendingIn, Complete;
    if n > 0 {
      var m :| LeadsVia(g, run, n, m, h);
      RunRespectsDependencies(g, run, n - 1, m);
      NextIsReady(m, run[n - 1].id);
      OneCompletion(g, run, n - 1, m);
      FinishPending(m, run[n - 1]);
    } else {
      NothingCompleted(g, run);
    }
  }

  lemma NextIsReady(g: Graph, id: string)
    requires IsNext(g, id)
    ensures Ready(g, id)
  {
  }

  lemma NothingCompleted(g: Graph, run: seq<Completion>)
    ensures forall id :: DoneIn(g, id) <==> DoneBy(g, run, 0, id)
  {
  }

  /** Ids in the graph are trimmed, as `UpsertAction` files them. */
  ghost predicate TrimmedIds(g: Graph) {
    forall id | id in g.actions :: Trimmed(id) && id != ""
  }

  lemma FinishMarks(g: Graph, c: Completion)
    requires c.id in g.actions && TrimmedIds(g)
    ensures Finish(g, c) == g.(actions := g.actions[c.id := g.actions[c.id].(status := Done, updatedAt := c.now)])
    ensures TrimmedIds(Finish(g, c)) && SameShape(g, Finish(g, c))
  {
    assert Trimmed(c.id);
    hide TrimSpace;
  }

  lemma FinishPending(g: Graph, c: Completion)
    requires PendingIn(g, c.id) && TrimmedIds(g)
    ensures |PendingIds(Finish(g, c))| + 1 == |PendingIds(g)|
    ensures TrimmedIds(Finish(g, c)) && SameShape(g, Finish(g, c))
  {
    FinishMarks(g, c);
    hide Finish;
    assert PendingIds(Finish(g, c)) == PendingIds(g) - {c.id};
  }

  lemma OneCompletion(g: Graph, run: seq<Completion>, k: nat, m: Graph)
    requires k < |run| && SameShape(g, m) && TrimmedIds(m) && Ready(m, run[k].id)
    requires forall id :: DoneIn(m, id) <==> DoneBy(g, run, k, id)
    ensures forall id :: DoneIn(Finish(m, run[k]), id) <==> DoneBy(g, run, k + 1, id)
    ensures PendingIn(g, run[k].id) && forall d | d in DependsOn(g, run[k].id) :: DoneBy(g, run, k, d)
  {
    var c := run[k];
    FinishMarks(m, c);
    hide Finish, Trimmed;
    forall id ensures DoneIn(Finish(m, c), id) <==> DoneBy(g, run, k + 1, id) {
      assert DoneIn(Finish(m, c), id) <==> DoneIn(m, id) || id == c.id;
      assert DoneBy(g, run, k + 1, id) <==> DoneBy(g, run, k, id) || id == c.id;
    }
    assert !DoneIn(m, c.id);
    assert !DoneBy(g, run, k, c.id);
    SameEdges(g, m, c.id);
  }

  // ----- When everything gets done -----

  /** A pending action that can never be ready: following pending dependencies from it leads to
      one with a dependency that does not exist, or back to an action already passed. */
  ghost predicate Walk(g: Graph, walk: seq<string>) {
    && walk != [] && (forall i | 0 <= i < |walk| :: PendingIn(g, walk[i]))
    && (forall i | 0 <= i < |walk| - 1 :: walk[i + 1] in DependsOn(g, walk[i]))
  }

  ghost predicate MissesDependency(g: Graph, id: string) {
    exists d :: d in DependsOn(g, id) && d !in g.actions
  }

  ghost predicate DeadEnd(g: Graph, walk: seq<string>) {
    && Walk(g, walk)
    && (MissesDependency(g, walk[|walk| - 1]) || exists i :: 0 <= i < |walk| - 1 && walk[i] == walk[|walk| - 1])
  }

  ghost predicate Blocked(g: Graph, id: string) {
    exists walk :: DeadEnd(g, walk) && walk[0] == id
  }

  /** Actions that hold each other up: each is pending, and depends on one of them or on one
      that does not exist. */
  ghost predicate HoldsItselfUp(g: Graph, s: set<string>) {
    forall id | id in s :: PendingIn(g, id) && exists d :: d in DependsOn(g, id) && (d in s || d !in g.actions)
  }

  lemma DeadEndHoldsItselfUp(g: Graph, walk: seq<string>)
    requires DeadEnd(g, walk)
    ensures HoldsItselfUp(g, set id | id in walk)
  {
    hide DependsOn;
    var s := set id | id in walk;
    forall id | id in s ensures PendingIn(g, id) && exists d :: d in DependsOn(g, id) && (d in s || d !in g.actions) {
      var i :| 0 <= i < |walk| && walk[i] == id;
      if i < |walk| - 1 {
        assert walk[i + 1] in s;
      } else if !MissesDependency(g, id) {
        var j :| 0 <= j < |walk| - 1 && walk[j] == id;
        assert walk[j + 1] in s;
      }
    }
  }

  lemma FinishKeepsHeldUp(g: Graph, c: Completion, s: set<string>)
    requires HoldsItselfUp(g, s) && Ready(g, c.id) && TrimmedIds(g)
    ensures HoldsItselfUp(Finish(g, c), s)
  {
    FinishMarks(g, c);
    hide Finish, DependsOn, Trimmed;
    forall id ensures DependsOn(Finish(g, c), id) == DependsOn(g, id) { SameEdges(g, Finish(g, c), id); }
    ReadyIsNotHeldUp(g, c.id, s);
  }

  lemma ReadyIsNotHeldUp(g: Graph, id: string, s: set<string>)
    requires HoldsItselfUp(g, s) && Ready(g, id)
    ensures id !in s
  {
    hide DependsOn;
    assert forall d | d in DependsOn(g, id) :: d in g.actions && d !in s;
  }

  lemma {:induction false} HeldUpStaysPending(g: Graph, run: seq<Completion>, n: nat, h: Graph, s: set<string>)
    requires n <= |run| && Leads(g, run, n, h) && HoldsItselfUp(g, s) && TrimmedIds(g)
    ensures HoldsItselfUp(h, s)
  {
    hide HoldsItselfUp, Ready, Finish, TrimmedIds;
    if n > 0 {
      var m :| LeadsVia(g, run, n, m, h);
      HeldUpStaysPending(g, run, n - 1, m, s);
      RunRespectsDependencies(g, run, n - 1, m);
      NextIsReady(m, run[n - 1].id);
      FinishKeepsHeldUp(m, run[n - 1], s);
    }
  }

  lemma SameEdges(g: Graph, h: Graph, id: string)
    requires g.edges == h.edges
    ensures DependsOn(g, id) == DependsOn(h, id)
  {
  }

  /** From a pending action of a graph where nothing is ready, a walk of any length can be made,
      or one that ends at a missing dependency. */
  lemma {:induction false} WalkOn(h: Graph, id: string, n: nat) returns (walk: seq<string>)
    requires PendingIn(h, id) && forall o :: !Ready(h, o)
    ensures Walk(h, walk) && walk[0] == id
    ensures |walk| == n + 1 || MissesDependency(h, walk[|walk| - 1])
  {
    if n == 0 {
      walk := [id];
    } else {
      walk := WalkOn(h, id, n - 1);
      var last := walk[|walk| - 1];
      if !MissesDependency(h, last) {
        assert !Ready(h, last);
        var d :| d in DependsOn(h, last) && !DoneIn(h, d);
        walk := walk + [d];
      }
    }
  }

  lemma StuckIsBlocked(h: Graph, id: string)
    requires PendingIn(h, id) && forall o :: !Ready(h, o)
    ensures Blocked(h, id)
  {
    var walk := WalkOn(h, id, |PendingIds(h)|);
    if !MissesDependency(h, walk[|walk| - 1]) {
      hide DependsOn;
      assert forall x | x in walk :: x in PendingIds(h);
      var i, j := Finite.Repeats(walk, PendingIds(h));
      var cut := walk[..j + 1];
      assert Walk(h, cut) && cut[i] == cut[|cut| - 1] && cut[0] == id;
      assert DeadEnd(h, cut);
    } else {
      assert DeadEnd(h, walk);
    }
  }

  /** A dead end of a later graph was one from the start. */
  lemma DeadEndBefore(g: Graph, h: Graph, walk: seq<string>)
    requires SameShape(g, h) && DeadEnd(h, walk)
    requires forall id | PendingIn(h, id) :: PendingIn(g, id)
    ensures DeadEnd(g, walk)
  {
    forall id ensures DependsOn(h, id) == DependsOn(g, id) { SameEdges(g, h, id); }
    hide DependsOn;
  }

  /** A run that went on until nothing was offered leaves exactly the blocked actions pending. */
  lemma LeftPendingExactlyBlocked(g: Graph, run: seq<Completion>, h: Graph, id: string)
    requires TrimmedIds(g) && Leads(g, run, |run|, h) && forall o :: !Ready(h, o)
    ensures PendingIn(h, id) <==> Blocked(g, id)
  {
    hide DependsOn, Leads, Ready;
    RunRespectsDependencies(g, run, |run|, h);
    if PendingIn(h, id) {
      StuckIsBlocked(h, id);
      var walk :| DeadEnd(h, walk) && walk[0] == id;
      forall o | PendingIn(h, o) ensures PendingIn(g, o) {
        assert !DoneIn(h, o);
        assert !DoneBy(g, run, |run|, o);
      }
      DeadEndBefore(g, h, walk);
    }
    if Blocked(g, id) {
      var walk :| DeadEnd(g, walk) && walk[0] == id;
      DeadEndHoldsItselfUp(g, walk);
      HeldUpStaysPending(g, run, |run|, h, set x | x in walk);
      assert walk[0] in walk;
    }
  }

  ghost predicate HasCycle(g: Graph) {
    exists walk :: Walk(g, walk) && |walk| > 1 && walk[0] == walk[|walk| - 1]
  }

  ghost predicate HasMissingDependency(g: Graph) {
    exists id :: PendingIn(g, id) && MissesDependency(g, id)
  }

  lemma CycleOrMissingBlocks(g: Graph)
    requires HasCycle(g) || HasMissingDependency(g)
    ensures exists id :: Blocked(g, id)
  {
    hide DependsOn;
    if HasCycle(g) {
      var walk :| Walk(g, walk) && |walk| > 1 && walk[0] == walk[|walk| - 1];
      assert DeadEnd(g, walk);
      assert Blocked(g, walk[0]);
    } else {
      var id :| PendingIn(g, id) && MissesDependency(g, id);
      assert DeadEnd(g, [id]);
      assert Blocked(g, id);
    }
  }

  lemma BlockedMeansCycleOrMissing(g: Graph, id: string)
    requires Blocked(g, id)
    ensures HasCycle(g) || HasMissingDependency(g)
  {
    hide DependsOn;
    var walk :| DeadEnd(g, walk) && walk[0] == id;
    if !MissesDependency(g, walk[|walk| - 1]) {
      var i :| 0 <= i < |walk| - 1 && walk[i] == walk[|walk| - 1];
      assert Walk(g, walk[i..]);
    }
  }

  /** Nothing is pending at the end if and only if at the start no pending actions depend on each
      other in a cycle and none has a dependency that does not exist. */
  lemma AllDoneUnlessCycleOrMissing(g: Graph, run: seq<Completion>, h: Graph)
    requires TrimmedIds(g) && Leads(g, run, |run|, h) && forall o :: !Ready(h, o)
    ensures PendingIds(h) == {} <==> !HasCycle(g) && !HasMissingDependency(g)
  {
    hide Leads, Ready, Blocked, HasCycle, HasMissingDependency, TrimmedIds;
    forall id ensures id in PendingIds(h) <==> Blocked(g, id) {
      LeftPendingExactlyBlocked(g, run, h, id);
    }
    if HasCycle(g) || HasMissingDependency(g) {
      CycleOrMissingBlocks(g);
      var id :| Blocked(g, id);
      assert id in PendingIds(h);
    } else {
      forall id ensures !Blocked(g, id) {
        if Blocked(g, id) {
          BlockedMeansCycleOrMissing(g, id);
        }
      }
    }
  }

  // ----- Such a run exists -----

  lemma {:induction false} EarliestReady(g: Graph, ids: set<string>) returns (id: string)
    requires ids != {} && forall i | i in ids :: i in g.actions && Ready(g, i)
    ensures id in ids && forall o | o in ids :: !Earlier(NodeOf(g, o), NodeOf(g, id))
  {
    hide DependsOn, Less, Earlier;
    var x :| x in ids;
    NotEarlierThanItself(NodeOf(g, x));
    if ids == {x} {
      id := x;
    } else {
      id := EarliestReady(g, ids - {x});
      if Earlier(NodeOf(g, x), NodeOf(g, id)) {
        EarlierIsStrictWeak();
        id := x;
      }
    }
  }

  /** Whatever the clock, completing the next action again and again comes to an end. */
  lemma {:induction false} RunEnds(g: Graph, run: seq<Completion>, m: Graph, now: int) returns (full: seq<Completion>, h: Graph)
    requires TrimmedIds(g) && Leads(g, run, |run|, m)
    ensures Leads(g, full, |full|, h) && run <= full && forall o :: !Ready(h, o)
    decreases |PendingIds(m)|
  {
    hide DependsOn, Earlier, Finish, Trimmed;
    if exists o :: Ready(m, o) {
      var ready := set o | o in m.actions && Ready(m, o);
      var o :| Ready(m, o);
      assert o in ready;
      var id := EarliestReady(m, ready);
      var c := Completion(id, now);
      assert IsNext(m, c.id);
      RunRespectsDependencies(g, run, |run|, m);
      FinishPending(m, c);
      LeadsPrefix(g, run, run + [c], |run|, m);
      assert LeadsVia(g, run + [c], |run| + 1, m, Finish(m, c));
      full, h := RunEnds(g, run + [c], Finish(m, c), now);
    } else {
      full, h := run, m;
    }
  }

  lemma {:induction false} LeadsPrefix(g: Graph, run: seq<Completion>, longer: seq<Completion>, n: nat, h: Graph)
    requires n <= |run| && run <= longer && Leads(g, run, n, h)
    ensures Leads(g, longer, n, h)
  {
    hide IsNext, Finish;
    if n > 0 {
      var m :| LeadsVia(g, run, n, m, h);
      LeadsPrefix(g, run, longer, n - 1, m);
      assert LeadsVia(g, longer, n, m, h);
    }
  }

  /** Every write keeps the ids trimmed. */
  lemma {:induction false} WritesKeepIdsTrimmed(g: Graph, ws: seq<Write>)
    requires TrimmedIds(g)
    ensures TrimmedIds(ApplyAll(g, ws))
  {
    if ws != [] {
      WritesKeepIdsTrimmed(g, ws[..|ws| - 1]);
      TrimSpaceIdempotent(ws[|ws| - 1].id);
      hide TrimSpace, DependsOn, TrimmedNonEmpty;
    }
  }
}
