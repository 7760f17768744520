/** service/memory.go, session lineage: an index of sessions by id and by parent, and a walk up
    the parents that tells how a session's ancestry ends. */
module Lineage {
  import opened Text
  import opened Sorting
  import Finite

  datatype Meta = Meta(sessionId: string, parentId: string, kind: string)

  type Sessions = map<string, Meta>

  datatype Index = Index(bySession: Sessions, children: map<string, seq<string>>)

  datatype Status = Ok | Orphan | Loop | Unavailable

  datatype Context = Unknown | Known(parentId: string, kind: string, children: seq<string>, status: Status)

  const PRIMARY := "primary"

  // ----- Building the index -----

  /** `normalizeSearchLineageMetadata`; lower-casing is a parameter. */
  function Normal(lower: string -> string, m: Meta): Meta {
    Meta(TrimSpace(m.sessionId), TrimSpace(m.parentId), lower(TrimSpace(m.kind)))
  }

  /** The last record given under each id. */
  function LastById(lower: string -> string, metas: seq<Meta>): Sessions {
    if metas == [] then map[]
    else
      var m := Normal(lower, metas[|metas| - 1]);
      var before := LastById(lower, metas[..|metas| - 1]);
      if m.sessionId == "" then before else before[m.sessionId := m]
  }

  /** Sessions are filed under their own id. */
  ghost predicate WellFiled(known: Sessions) {
    forall id | id in known :: id != "" && known[id].sessionId == id
  }

  lemma {:induction false} LastByIdFiled(lower: string -> string, metas: seq<Meta>)
    ensures WellFiled(LastById(lower, metas))
  {
    if metas != [] {
      LastByIdFiled(lower, metas[..|metas| - 1]);
    }
  }

  ghost predicate Ascending(ids: seq<string>) {
    forall i, j :: 0 <= i < j < |ids| ==> Less(ids[i], ids[j])
  }

  predicate ListedUnder(children: map<string, seq<string>>, p: string, id: string) {
    p in children && id in children[p]
  }

  predicate ChildOf(known: Sessions, p: string, id: string) {
    id in known && p != "" && known[id].parentId == p
  }

  /** The child lists are exactly the inverse of the parent relation, each in ascending order and
      without repetition; no other parent has a list. */
  ghost predicate InvertsParents(known: Sessions, children: map<string, seq<string>>) {
    && (forall p | p in children :: children[p] != [] && Ascending(children[p]))
    && (forall p, id :: ListedUnder(children, p, id) <==> ChildOf(known, p, id))
  }

  lemma LessIsStrictWeak()
    ensures StrictWeak(Less)
  {
    forall x: string, y: string | Less(x, y) ensures !Less(y, x) {
      if Less(y, x) {
        LessTransitive(x, y, x);
        LessIrreflexive(x);
      }
    }
    forall x: string, y: string, z: string | Less(x, z) ensures Less(x, y) || Less(y, z) {
      LessTotal(x, y);
      if Less(y, x) {
        LessTransitive(y, x, z);
      }
    }
  }

  lemma SortedAscends(ids: seq<string>)
    requires forall i, j :: 0 <= i < j < |ids| ==> ids[i] != ids[j]
    ensures Ascending(StableSort(ids, Less))
    ensures forall id :: id in StableSort(ids, Less) <==> id in ids
  {
    LessIsStrictWeak();
    StableSortSorts(ids, Less);
    StableSortKeeps(ids, Less);
    StableSortMembers(ids, Less);
    var s := StableSort(ids, Less);
    Finite.PermutationDistinct(ids, s);
    hide StableSort, Less, StrictWeak;
    forall i, j | 0 <= i < j < |s| ensures Less(s[i], s[j]) {
      LessTotal(s[i], s[j]);
    }
  }

  /** Half-built child lists: those of the sessions already seen, unsorted. */
  ghost predicate Collects(known: Sessions, seen: set<string>, children: map<string, seq<string>>) {
    && (forall p | p in children :: children[p] != [])
    && (forall p, i, j :: p in children && 0 <= i < j < |children[p]| ==> children[p][i] != children[p][j])
    && (forall p, id :: ListedUnder(children, p, id) <==> id in seen && ChildOf(known, p, id))
  }

  /** `buildSearchLineageIndex`. Go visits a map in no particular order; `:|` leaves it open. */
  method BuildIndex(lower: string -> string, metas: seq<Meta>) returns (idx: Index)
    ensures idx.bySession == LastById(lower, metas) && WellFiled(idx.bySession)
    ensures InvertsParents(idx.bySession, idx.children)
  {
    var known: Sessions := map[];
    for i := 0 to |metas|
      invariant known == LastById(lower, metas[..i])
    {
      assert metas[..i + 1][..i] == metas[..i];
      var m := Normal(lower, metas[i]);
      if m.sessionId == "" {
        continue;
      }
      known := known[m.sessionId := m];
    }
    assert metas[..|metas|] == metas;
    LastByIdFiled(lower, metas);
    var children: map<string, seq<string>> := map[];
    var rest := known.Keys;
    while rest != {}
      invariant rest <= known.Keys
      invariant Collects(known, known.Keys - rest, children)
      decreases rest
    {
      var id :| id in rest;
      var m := known[id];
      CollectOne(known, known.Keys - rest, children, id);
      if m.parentId != "" {
        var siblings := if m.parentId in children then children[m.parentId] else [];
        if m.sessionId !in siblings {
          children := children[m.parentId := siblings + [m.sessionId]];
        }
      }
      assert known.Keys - (rest - {id}) == (known.Keys - rest) + {id};
      rest := rest - {id};
    }
    children := SortAll(known, children);
    idx := Index(known, children);
  }

  lemma CollectOne(known: Sessions, seen: set<string>, children: map<string, seq<string>>, id: string)
    requires Collects(known, seen, children) && id in known && id !in seen
    ensures var p := known[id].parentId;
      var siblings := if p in children then children[p] else [];
      && id !in siblings
      && Collects(known, seen + {id}, if p == "" then children else children[p := siblings + [id]])
  {
    var p := known[id].parentId;
    var siblings := if p in children then children[p] else [];
    assert !ListedUnder(children, p, id);
    var children' := if p == "" then children else children[p := siblings + [id]];
    forall q, x ensures ListedUnder(children', q, x) <==> x in seen + {id} && ChildOf(known, q, x) {
      assert ListedUnder(children, q, x) <==> x in seen && ChildOf(known, q, x);
      assert ListedUnder(children', q, x) <==> ListedUnder(children, q, x) || (p != "" && q == p && x == id);
    }
  }

  method SortAll(known: Sessions, children: map<string, seq<string>>) returns (r: map<string, seq<string>>)
    requires Collects(known, known.Keys, children)
    ensures InvertsParents(known, r)
  {
    hide Ascending, Less;
    r := children;
    var rest := children.Keys;
    while rest != {}
      invariant rest <= children.Keys && r.Keys == children.Keys
      invariant forall p | p in rest :: r[p] == children[p]
      invariant forall p | p in children && p !in rest :: Ascending(r[p])
      invariant forall p, id :: p in children ==> (id in r[p] <==> id in children[p])
      decreases rest
    {
      var p :| p in rest;
      SortedAscends(children[p]);
      r, rest := r[p := StableSort(r[p], Less)], rest - {p};
    }
    forall p | p in r ensures r[p] != [] {
      assert children[p][0] in children[p];
    }
    forall p, id ensures ListedUnder(r, p, id) <==> ChildOf(known, p, id) {
      assert ListedUnder(children, p, id) <==> ChildOf(known, p, id);
    }
  }

  /** Map order shows nowhere: the inverse of the parents is unique. */
  lemma InverseUnique(known: Sessions, a: map<string, seq<string>>, b: map<string, seq<string>>)
    requires InvertsParents(known, a) && InvertsParents(known, b)
    ensures a == b
  {
    hide Less, ChildOf;
    forall p, id ensures ListedUnder(a, p, id) <==> ListedUnder(b, p, id) {
      assert ListedUnder(a, p, id) <==> ChildOf(known, p, id);
    }
    forall p ensures p in a <==> p in b {
      if p in a { assert ListedUnder(a, p, a[p][0]); }
      if p in b { assert ListedUnder(b, p, b[p][0]); }
    }
    forall p | p in a ensures a[p] == b[p] {
      forall id ensures id in a[p] <==> id in b[p] {
        assert ListedUnder(a, p, id) <==> ListedUnder(b, p, id);
      }
      AscendingUnique(a[p], b[p]);
    }
  }

  lemma HasItsHead(a: seq<string>)
    requires a != []
    ensures a[0] in a
  {
  }

  lemma HeadIsLeast(a: seq<string>, id: string)
    requires Ascending(a) && id in a
    ensures id == a[0] || (id in a[1..] && Less(a[0], id))
    ensures id in a[1..] ==> id != a[0]
  {
    LessIrreflexive(id);
    hide Less;
    forall i | 0 < i < |a| ensures Less(a[0], a[i]) {
    }
  }

  lemma {:induction false} AscendingUnique(a: seq<string>, b: seq<string>)
    requires Ascending(a) && Ascending(b) && forall id :: id in a <==> id in b
    ensures a == b
  {
    hide Less;
    if a == [] {
      if b != [] {
        HasItsHead(b);
      }
    } else {
      assert a[0] in a;
      assert b[0] in b;
      HeadIsLeast(b, a[0]);
      HeadIsLeast(a, b[0]);
      if a[0] != b[0] {
        LessTransitive(a[0], b[0], a[0]);
        LessIrreflexive(a[0]);
      }
      forall id ensures id in a[1..] <==> id in b[1..] {
        if id in a { HeadIsLeast(a, id); }
        if id in b { HeadIsLeast(b, id); }
      }
      AscendingUnique(a[1..], b[1..]);
    }
  }

  // ----- Walking up -----

  /** The n-th ancestor; "" once a session without a parent, or an unknown one, is passed. */
  function Ancestor(known: Sessions, id: string, n: nat): string {
    if n == 0 then id
    else
      var a := Ancestor(known, id, n - 1);
      if a in known then known[a].parentId else ""
  }

  /** The chain reaches a session with no parent. */
  ghost predicate ReachesRoot(known: Sessions, id: string) {
    exists n: nat :: RootAt(known, id, n)
  }

  predicate RootAt(known: Sessions, id: string, n: nat) {
    var a := Ancestor(known, id, n);
    a in known && known[a].parentId == ""
  }

  /** The chain leaves the known sessions. */
  ghost predicate LeavesKnown(known: Sessions, id: string) {
    exists n: nat :: LeavesAt(known, id, n)
  }

  predicate LeavesAt(known: Sessions, id: string, n: nat) {
    var a := Ancestor(known, id, n);
    a != "" && a !in known
  }

  /** Some session repeats along the chain. */
  ghost predicate Revisits(known: Sessions, id: string) {
    exists i: nat, j: nat :: RevisitsAt(known, id, i, j)
  }

  predicate RevisitsAt(known: Sessions, id: string, i: nat, j: nat) {
    i < j && Ancestor(known, id, i) in known && Ancestor(known, id, i) == Ancestor(known, id, j)
  }

  lemma {:induction false} StaysEmpty(known: Sessions, id: string, n: nat, m: nat)
    requires WellFiled(known) && n < m && Ancestor(known, id, n) !in known
    ensures Ancestor(known, id, m) == ""
  {
    if n < m - 1 {
      StaysEmpty(known, id, n, m - 1);
    }
  }

  /** Once the chain has left the known sessions it never re-enters them. */
  lemma KnownBefore(known: Sessions, id: string, n: nat, m: nat)
    requires WellFiled(known) && n <= m && Ancestor(known, id, m) in known
    ensures Ancestor(known, id, n) in known
  {
    if n < m && Ancestor(known, id, n) !in known {
      StaysEmpty(known, id, n, m);
    }
  }

  lemma {:induction false} Periodic(known: Sessions, id: string, i: nat, j: nat, k: nat)
    requires Ancestor(known, id, i) == Ancestor(known, id, j)
    ensures Ancestor(known, id, i + k) == Ancestor(known, id, j + k)
  {
    if k > 0 {
      Periodic(known, id, i, j, k - 1);
    }
  }

  /** A chain that repeats a session is known for ever. */
  lemma {:induction false} RepeatingStaysKnown(known: Sessions, id: string, i: nat, j: nat, n: nat)
    requires WellFiled(known) && RevisitsAt(known, id, i, j)
    ensures Ancestor(known, id, n) in known
    decreases n
  {
    if n <= i {
      KnownBefore(known, id, n, i);
    } else if n <= j {
      KnownBefore(known, id, n, j);
    } else {
      RepeatingStaysKnown(known, id, i, j, n - (j - i));
      Periodic(known, id, i, j, n - j);
    }
  }

  /** The three ways a chain can go exclude one another. */
  lemma OneWayOnly(known: Sessions, id: string)
    requires WellFiled(known)
    ensures !(ReachesRoot(known, id) && LeavesKnown(known, id))
    ensures !(ReachesRoot(known, id) && Revisits(known, id))
    ensures !(LeavesKnown(known, id) && Revisits(known, id))
  {
    forall n: nat | RootAt(known, id, n) ensures Ancestor(known, id, n + 1) == "" {
    }
    if Revisits(known, id) {
      var i: nat, j: nat :| RevisitsAt(known, id, i, j);
      forall n: nat ensures Ancestor(known, id, n) in known { RepeatingStaysKnown(known, id, i, j, n); }
    }
    if ReachesRoot(known, id) {
      var n: nat :| RootAt(known, id, n);
      forall m: nat ensures !LeavesAt(known, id, m) {
        if m <= n {
          KnownBefore(known, id, m, n);
        } else if m > n + 1 {
          StaysEmpty(known, id, n + 1, m);
        }
      }
    }
  }

  /** What the walk tells about a known session. */
  ghost function StatusOf(known: Sessions, id: string): Status {
    if id !in known then Unavailable
    else if ReachesRoot(known, id) then Ok
    else if LeavesKnown(known, id) then Orphan
    else Loop
  }

  /** `statusFor`. The walk ends whatever the parents are. */
  method StatusFor(known: Sessions, id: string) returns (s: Status)
    requires WellFiled(known)
    ensures s == StatusOf(known, id)
    ensures s == Loop <==> id in known && Revisits(known, id)
  {
    if id !in known {
      return Unavailable;
    }
    OneWayOnly(known, id);
    var seen := {id};
    var current := known[id].parentId;
    ghost var n := 0;
    while current != ""
      invariant current == Ancestor(known, id, n + 1) && Ancestor(known, id, n) in known
      invariant seen <= known.Keys
      invariant forall x | x in seen :: exists i: nat :: i <= n && Ancestor(known, id, i) == x
      decreases known.Keys - seen
    {
      if current in seen {
        ghost var i: nat :| i <= n && Ancestor(known, id, i) == current;
        assert RevisitsAt(known, id, i, n + 1);
        return Loop;
      }
      if current !in known {
        assert LeavesAt(known, id, n + 1);
        return Orphan;
      }
      seen := seen + {current};
      n := n + 1;
      current := known[current].parentId;
    }
    assert RootAt(known, id, n);
    return Ok;
  }

  lemma {:induction false} AncestorOfParent(known: Sessions, id: string, n: nat)
    requires id in known
    ensures Ancestor(known, id, n + 1) == Ancestor(known, known[id].parentId, n)
  {
    if n > 0 {
      AncestorOfParent(known, id, n - 1);
    }
  }

  /** A session whose parent is known has its parent's status; one whose parent is not, is an
      orphan; one without a parent is ok. */
  lemma StatusFromParent(known: Sessions, id: string)
    requires WellFiled(known) && id in known
    ensures var p := known[id].parentId;
      StatusOf(known, id) == if p == "" then Ok else if p in known then StatusOf(known, p) else Orphan
  {
    var p := known[id].parentId;
    hide Ancestor;
    AncestorOfParent(known, id, 0);
    SelfIsFirst(known, id);
    SelfIsFirst(known, p);
    if p == "" {
      assert RootAt(known, id, 0);
    } else if p !in known {
      assert LeavesAt(known, id, 1);
      OneWayOnly(known, id);
    } else {
      forall n: nat ensures RootAt(known, p, n) ==> RootAt(known, id, n + 1) { AncestorOfParent(known, id, n); }
      forall n: nat ensures LeavesAt(known, p, n) ==> LeavesAt(known, id, n + 1) { AncestorOfParent(known, id, n); }
      forall n: nat | RootAt(known, id, n) ensures n > 0 && RootAt(known, p, n - 1) { AncestorOfParent(known, id, n - 1); }
      forall n: nat | LeavesAt(known, id, n) ensures n > 0 && LeavesAt(known, p, n - 1) { AncestorOfParent(known, id, n - 1); }
    }
  }

  lemma SelfIsFirst(known: Sessions, id: string)
    ensures Ancestor(known, id, 0) == id
  {
  }

  /** A known session whose chain neither ends nor leaves comes round to a session again. */
  lemma LoopRevisits(known: Sessions, id: string)
    requires WellFiled(known)
    ensures StatusOf(known, id) == Loop <==> id in known && Revisits(known, id)
  {
    OneWayOnly(known, id);
    if StatusOf(known, id) == Loop {
      forall n: nat ensures Ancestor(known, id, n) in known { AlwaysKnown(known, id, n); }
      var n := |known.Keys| + 1;
      var chain := seq(n, i requires 0 <= i < n => Ancestor(known, id, i));
      var i, j := Finite.Repeats(chain, known.Keys);
      assert RevisitsAt(known, id, i, j);
    }
  }

  lemma {:induction false} AlwaysKnown(known: Sessions, id: string, n: nat)
    requires id in known && !ReachesRoot(known, id) && !LeavesKnown(known, id)
    ensures Ancestor(known, id, n) in known
  {
    if n > 0 {
      AlwaysKnown(known, id, n - 1);
      assert !RootAt(known, id, n - 1) && !LeavesAt(known, id, n);
    }
  }

  /** `contextFor`. */
  method ContextFor(idx: Index, sessionId: string) returns (c: Context)
    requires WellFiled(idx.bySession) && InvertsParents(idx.bySession, idx.children)
    ensures var id := TrimSpace(sessionId);
      if id !in idx.bySession then c == Unknown
      else
        && c.Known? && c.parentId == idx.bySession[id].parentId
        && c.kind == (if idx.bySession[id].kind == "" then PRIMARY else idx.bySession[id].kind)
        && c.status == StatusOf(idx.bySession, id) && c.status != Unavailable
        && Ascending(c.children) && forall x :: x in c.children <==> ChildOf(idx.bySession, id, x)
  {
    hide TrimSpace, Less;
    var id := TrimSpace(sessionId);
    if id !in idx.bySession {
      return Unknown;
    }
    var meta := idx.bySession[id];
    var children := if id in idx.children then idx.children[id] else [];
    assert forall x :: ListedUnder(idx.children, id, x) <==> x in children;
    var status := StatusFor(idx.bySession, id);
    return Known(meta.parentId, if meta.kind == "" then PRIMARY else meta.kind, children, status);
  }
}
