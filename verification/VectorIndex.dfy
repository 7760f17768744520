/** service/local_vector_index.go: memories with their vectors, kept sorted in one slice and in one
    file. The embedding, the similarity and the rounding are functions of the environment; scores
    are reals. */
module VectorIndex {
  import opened Text
  import opened Sorting
  import Finite

  datatype Option<T> = None | Some(value: T)

  datatype Error =
    | PathRequired
    | Unreadable
    | BadJson
    | UnsupportedVersion
    | Incomplete
    | Embedding
    | EmptyVector
    | Dimensions(got: nat, want: nat)
    | NotSaved

  datatype Result<T> = Ok(value: T) | Err(error: Error)

  type Vector = seq<real>

  datatype Memory = Memory(id: string, workspace: string, profile: string, peer: string, source: string,
                           content: string, session: string, agent: string, scope: string, createdAt: int,
                           importance: real, metadata: map<string, string>)

  datatype Entry = Entry(memory: Memory, vector: Vector, indexedAt: int)

  /** The slice and its dimension; the file holds the same two. */
  datatype Index = Index(dimensions: nat, entries: seq<Entry>)

  datatype Env = Env(embed: string -> Option<Vector>, similarity: (Vector, Vector) -> real, round: real -> real,
                     equalFold: (string, string) -> bool)

  datatype Id = Id(workspace: string, memory: string)

  function IdOf(e: Entry): Id {
    Id(e.memory.workspace, e.memory.id)
  }

  const EMPTY := Index(0, [])

  /** What reading the file comes to. A file that is not there is an empty index. */
  datatype Reading = Missing | Failed | NotJson | Read(version: string, index: Index)

  const VERSION := "goncho-local-vector-index-v1"

  /** `load`, of a file of this version: its entries are sorted, whatever their order. */
  function Loaded(file: Option<Index>): Index {
    if file.None? then EMPTY else Index(file.value.dimensions, StableSort(file.value.entries, Before))
  }

  // ----- Upsert as a function -----

  function Normalize(m: Memory): Memory {
    Memory(TrimSpace(m.id), TrimSpace(m.workspace), TrimSpace(m.profile), TrimSpace(m.peer),
           if TrimSpace(m.source) == "" then "vector" else TrimSpace(m.source), TrimSpace(m.content),
           TrimSpace(m.session), TrimSpace(m.agent), TrimSpace(m.scope), m.createdAt, m.importance, m.metadata)
  }

  predicate Complete(m: Memory) {
    m.workspace != "" && m.peer != "" && m.id != "" && m.content != ""
  }

  /** The entry an upsert would store, before the index is looked at. */
  function Prepared(env: Env, m: Memory, now: int): Result<Entry> {
    var memory := Normalize(m);
    if !Complete(memory) then Err(Incomplete)
    else
      match env.embed(memory.content)
      case None => Err(Embedding)
      case Some(v) => if v == [] then Err(EmptyVector) else Ok(Entry(memory, v, now))
  }

  predicate Before(a: Entry, b: Entry) {
    if a.memory.workspace != b.memory.workspace then Less(a.memory.workspace, b.memory.workspace)
    else Less(a.memory.id, b.memory.id)
  }

  function Place(entries: seq<Entry>, e: Entry): seq<Entry> {
    if entries == [] then [e]
    else if IdOf(entries[0]) == IdOf(e) then [e] + entries[1..]
    else [entries[0]] + Place(entries[1..], e)
  }

  /** The index after an upsert; an entry of another dimension is refused, unless it is the first. */
  function Upserted(env: Env, ix: Index, m: Memory, now: int): (Index, Result<Entry>) {
    match Prepared(env, m, now)
    case Err(e) => (ix, Err(e))
    case Ok(e) =>
      var d := if ix.dimensions == 0 then |e.vector| else ix.dimensions;
      if |e.vector| != d then (ix, Err(Dimensions(|e.vector|, d)))
      else (Index(d, StableSort(Place(ix.entries, e), Before)), Ok(e))
  }

  // ----- The index -----

  class LocalVectorIndex {
    const env: Env
    var dimensions: nat
    var entries: seq<Entry>
    var file: Option<Index>

    constructor (env: Env, file: Option<Index>)
      ensures this.env == env && this.file == file && State() == Loaded(file)
    {
      this.env, this.file := env, file;
      if file.None? {
        dimensions, entries := 0, [];
      } else {
        dimensions, entries := file.value.dimensions, StableSort(file.value.entries, Before);
      }
    }

    /** `NewLocalVectorIndex`. */
    static method Open(env: Env, path: string, reading: Reading) returns (r: Result<LocalVectorIndex>)
      ensures TrimSpace(path) == "" ==> r == Err(PathRequired)
      ensures TrimSpace(path) != "" && reading.Failed? ==> r == Err(Unreadable)
      ensures TrimSpace(path) != "" && reading.NotJson? ==> r == Err(BadJson)
      ensures TrimSpace(path) != "" && reading.Read? && reading.version != VERSION ==> r == Err(UnsupportedVersion)
      ensures r.Ok? <==> TrimSpace(path) != "" && (reading.Missing? || (reading.Read? && reading.version == VERSION))
      ensures r.Ok? ==> fresh(r.value) && r.value.env == env
      ensures r.Ok? ==> r.value.file == (if reading.Missing? then None else Some(reading.index))
      ensures r.Ok? ==> r.value.State() == Loaded(r.value.file)
    {
      if TrimSpace(path) == "" {
        return Err(PathRequired);
      }
      match reading
      case Failed => return Err(Unreadable);
      case NotJson => return Err(BadJson);
      case Missing =>
        var index := new LocalVectorIndex(env, None);
        return Ok(index);
      case Read(version, index) =>
        if version != VERSION {
          return Err(UnsupportedVersion);
        }
        var loaded := new LocalVectorIndex(env, Some(index));
        return Ok(loaded);
    }

    function State(): Index
      reads this
    {
      Index(dimensions, entries)
    }

    /** `Upsert`. `written` is whether the file could be replaced. The slice keeps the entry even
        when it could not, and the call fails. */
    method Upsert(m: Memory, now: int, written: bool) returns (r: Result<Entry>)
      modifies this
      ensures State() == Upserted(env, old(State()), m, now).0
      ensures var stored := Upserted(env, old(State()), m, now).1;
        && r == (if stored.Ok? && !written then Err(NotSaved) else stored)
        && file == (if r.Ok? then Some(State()) else old(file))
      ensures Disk(State(), file) == Happen(env, old(Disk(State(), file)), Put(Call(m, now), written))
    {
      hide StableSort, TrimSpace;
      var memory := Normalize(m);
      if memory.workspace == "" || memory.peer == "" || memory.id == "" || memory.content == "" {
        return Err(Incomplete);
      }
      var v := env.embed(memory.content);
      if v.None? {
        return Err(Embedding);
      }
      if v.value == [] {
        return Err(EmptyVector);
      }
      var entry := Entry(memory, v.value, now);
      var was := dimensions;
      if dimensions == 0 {
        dimensions := |v.value|;
      }
      if |v.value| != dimensions {
        return Err(Dimensions(|v.value|, dimensions));
      }
      ghost var before := entries;
      var replaced := false;
      var i := 0;
      while i < |entries|
        invariant i <= |before| && entries == before && !replaced
        invariant forall k :: 0 <= k < i ==> IdOf(before[k]) != IdOf(entry)
      {
        if entries[i].memory.workspace == entry.memory.workspace && entries[i].memory.id == entry.memory.id {
          entries := entries[i := entry];
          replaced := true;
          break;
        }
        i := i + 1;
      }
      if !replaced {
        entries := entries + [entry];
      }
      PlaceIs(before, entry, i);
      entries := StableSort(entries, Before);
      if !written {
        return Err(NotSaved);
      }
      file := Some(Index(dimensions, entries));
      return Ok(entry);
    }

    /** `Search`. */
    method Search(q: Query) returns (r: Result<seq<Hit>>)
      ensures r == Found(env, State(), q)
    {
      hide StableSort, TrimSpace, Matches;
      if TrimSpace(q.text) == "" {
        return Ok([]);
      }
      var v := env.embed(q.text);
      if v.None? {
        return Err(Embedding);
      }
      var qv := v.value;
      if qv == [] {
        return Err(EmptyVector);
      }
      if dimensions > 0 && |qv| != dimensions {
        return Err(Dimensions(|qv|, dimensions));
      }
      var scored := [];
      for i := 0 to |entries|
        invariant scored == Scores(env, q, qv, entries[..i])
      {
        var e := entries[i];
        assert entries[..i + 1][..i] == entries[..i];
        if !Matches(env, q, e) || |e.vector| != |qv| {
          continue;
        }
        var score := env.similarity(qv, e.vector);
        if score <= 0.0 {
          continue;
        }
        scored := scored + [Scored(e, score)];
      }
      assert entries[..|entries|] == entries;
      scored := StableSort(scored, Closer);
      var limit := q.limit;
      if limit <= 0 || limit > |scored| {
        limit := |scored|;
      }
      var hits := [];
      ghost var top := Take(scored, q.limit);
      for i := 0 to limit
        invariant |scored| > 0 ==> limit > 0
        invariant |top| == limit && hits == Hits(env, top[..i])
      {
        assert top[..i + 1][..i] == top[..i];
        hits := hits + [HitOf(env, scored[i])];
      }
      assert top[..limit] == top;
      return Ok(hits);
    }
  }

  lemma {:induction false} PlaceIs(entries: seq<Entry>, e: Entry, i: nat)
    requires i <= |entries| && (i < |entries| ==> IdOf(entries[i]) == IdOf(e))
    requires forall k :: 0 <= k < i ==> IdOf(entries[k]) != IdOf(e)
    ensures Place(entries, e) == if i < |entries| then entries[i := e] else entries + [e]
  {
    if i > 0 {
      hide IdOf;
      PlaceIs(entries[1..], e, i - 1);
      assert i < |entries| ==> entries[i := e] == [entries[0]] + entries[1..][i - 1 := e];
      assert entries + [e] == [entries[0]] + (entries[1..] + [e]);
    }
  }

  // ----- Search as a function -----

  datatype Query = Query(workspace: string, profile: string, peer: string, text: string, session: string,
                         scope: string, sources: seq<string>, limit: int)

  datatype Hit = Hit(id: string, source: string, content: string, session: string, agent: string, scope: string,
                     createdAt: int, importance: real, metadata: map<string, string>, score: real)

  datatype Scored = Scored(entry: Entry, score: real)

  predicate OptionalMatch(value: string, filter: string) {
    TrimSpace(filter) == "" || value == TrimSpace(filter)
  }

  predicate SourceAllowed(env: Env, sources: seq<string>, source: string) {
    || sources == [] || (exists s | s in sources :: TrimSpace(s) == "" || TrimSpace(s) == "*")
    || TrimSpace(source) == ""
    || exists s | s in sources :: env.equalFold(TrimSpace(s), TrimSpace(source))
  }

  predicate Matches(env: Env, q: Query, e: Entry) {
    && OptionalMatch(e.memory.workspace, q.workspace)
    && OptionalMatch(e.memory.profile, q.profile)
    && OptionalMatch(e.memory.peer, q.peer)
    && (e.memory.session == "" || OptionalMatch(e.memory.session, q.session))
    && (e.memory.scope == "" || OptionalMatch(e.memory.scope, q.scope))
    && SourceAllowed(env, q.sources, e.memory.source)
  }

  /** The entry may be a hit. */
  predicate Positive(env: Env, q: Query, qv: Vector, e: Entry) {
    Matches(env, q, e) && |e.vector| == |qv| && env.similarity(qv, e.vector) > 0.0
  }

  function Scores(env: Env, q: Query, qv: Vector, entries: seq<Entry>): seq<Scored> {
    if entries == [] then []
    else
      var e := entries[|entries| - 1];
      Scores(env, q, qv, entries[..|entries| - 1])
        + (if Positive(env, q, qv, e) then [Scored(e, env.similarity(qv, e.vector))] else [])
  }

  predicate Closer(a: Scored, b: Scored) {
    if a.score != b.score then a.score > b.score else Less(a.entry.memory.id, b.entry.memory.id)
  }

  function HitOf(env: Env, s: Scored): Hit {
    var m := s.entry.memory;
    Hit(m.id, m.source, m.content, m.session, m.agent, m.scope, m.createdAt, m.importance, m.metadata, env.round(s.score))
  }

  function Hits(env: Env, top: seq<Scored>): seq<Hit> {
    if top == [] then [] else Hits(env, top[..|top| - 1]) + [HitOf(env, top[|top| - 1])]
  }

  function Take<T>(s: seq<T>, limit: int): seq<T> {
    if limit <= 0 || limit > |s| then s else s[..limit]
  }

  /** The hits before they are cut out and rounded. */
  function Ranked(env: Env, ix: Index, q: Query, qv: Vector): seq<Scored> {
    Take(StableSort(Scores(env, q, qv, ix.entries), Closer), q.limit)
  }

  function Found(env: Env, ix: Index, q: Query): Result<seq<Hit>> {
    if TrimSpace(q.text) == "" then Ok([])
    else
      match env.embed(q.text)
      case None => Err(Embedding)
      case Some(qv) =>
        if qv == [] then Err(EmptyVector)
        else if ix.dimensions > 0 && |qv| != ix.dimensions then Err(Dimensions(|qv|, ix.dimensions))
        else Ok(Hits(env, Ranked(env, ix, q, qv)))
  }

  // ----- The order of entries -----

  lemma BeforeIsStrictWeak()
    ensures StrictWeak(Before)
  {
    LessIsStrictTotal();
  }

  lemma BeforeSeparates(a: Entry, b: Entry)
    ensures !(Before(a, b) && Before(b, a))
    ensures IdOf(a) != IdOf(b) <==> Before(a, b) || Before(b, a)
  {
    LessIsStrictTotal();
  }

  ghost predicate DistinctIds(s: seq<Entry>) {
    forall i, j :: 0 <= i < j < |s| ==> IdOf(s[i]) != IdOf(s[j])
  }

  ghost predicate StrictlySorted(s: seq<Entry>) {
    forall i, j :: 0 <= i < j < |s| ==> Before(s[i], s[j])
  }

  /** What every upsert keeps. */
  ghost predicate WellFormed(ix: Index) {
    StrictlySorted(ix.entries) && forall e | e in ix.entries :: |e.vector| == ix.dimensions > 0
  }

  lemma StrictIsSortedDistinct(s: seq<Entry>)
    ensures StrictlySorted(s) <==> Sorted(s, Before) && DistinctIds(s)
  {
    hide IdOf, Before;
    forall i, j | 0 <= i < j < |s| ensures Before(s[i], s[j]) <==> !Before(s[j], s[i]) && IdOf(s[i]) != IdOf(s[j]) {
      BeforeSeparates(s[i], s[j]);
    }
  }

  lemma {:induction false} PlaceMembers(entries: seq<Entry>, e: Entry)
    requires DistinctIds(entries)
    ensures forall x :: x in Place(entries, e) <==> x == e || (x in entries && IdOf(x) != IdOf(e))
    ensures DistinctIds(Place(entries, e))
  {
    hide IdOf;
    if entries != [] {
      var (first, rest) := (entries[0], entries[1..]);
      assert entries == [first] + rest;
      assert forall x | x in rest :: IdOf(x) != IdOf(first);
      if IdOf(first) != IdOf(e) {
        PlaceMembers(rest, e);
      }
    }
  }

  lemma DistinctPermuted(s: seq<Entry>, t: seq<Entry>)
    requires DistinctIds(s) && multiset(s) == multiset(t)
    ensures DistinctIds(t)
  {
    hide IdOf;
    Finite.PermutationDistinct(s, t);
    forall i, j | 0 <= i < j < |t| ensures IdOf(t[i]) != IdOf(t[j]) {
      assert t[i] in multiset(s) && t[j] in multiset(s);
      var k :| 0 <= k < |s| && s[k] == t[i];
      var l :| 0 <= l < |s| && s[l] == t[j];
      assert k != l;
    }
  }

  /** An upsert's sort leaves the slice strictly sorted, with the placed entry and the others. */
  lemma SortPlaced(entries: seq<Entry>, e: Entry)
    requires StrictlySorted(entries)
    ensures var after := StableSort(Place(entries, e), Before);
      && StrictlySorted(after)
      && forall x :: x in after <==> x == e || (x in entries && IdOf(x) != IdOf(e))
  {
    var placed := Place(entries, e);
    StrictIsSortedDistinct(entries);
    PlaceMembers(entries, e);
    BeforeIsStrictWeak();
    StableSortSorts(placed, Before);
    StableSortKeeps(placed, Before);
    StableSortMembers(placed, Before);
    hide Before, StableSort, Place, IdOf, DistinctIds, Sorted, StrictWeak, StrictlySorted;
    DistinctPermuted(placed, StableSort(placed, Before));
    StrictIsSortedDistinct(StableSort(placed, Before));
  }

  /** Strictly sorted slices with the same entries are the same. */
  lemma SortedSliceUnique(s: seq<Entry>, t: seq<Entry>)
    requires StrictlySorted(s) && StrictlySorted(t) && forall e :: e in s <==> e in t
    ensures s == t
  {
    StrictIsSortedDistinct(s);
    StrictIsSortedDistinct(t);
    hide Before;
    Finite.SameElementsPermute(s, t);
    assert Separates(Before, s);
    SortedPermutationUnique(s, t, Before);
  }

  /** Opening the file that a successful upsert wrote gives the very index it left. */
  lemma ReloadKeeps(ix: Index)
    requires WellFormed(ix)
    ensures Loaded(Some(ix)) == ix
  {
    StrictIsSortedDistinct(ix.entries);
    StableSortFixes(ix.entries, Before);
  }

  // ----- Runs -----

  datatype Call = Call(m: Memory, now: int)

  function Run(env: Env, calls: seq<Call>): Index {
    if calls == [] then EMPTY
    else
      var last := calls[|calls| - 1];
      Upserted(env, Run(env, calls[..|calls| - 1]), last.m, last.now).0
  }

  function Want(env: Env, c: Call): Result<Entry> {
    Prepared(env, c.m, c.now)
  }

  /** The dimension of a history: that of its first well-formed upsert. */
  function Dimension(env: Env, calls: seq<Call>): nat {
    if calls == [] then 0
    else if Want(env, calls[0]).Ok? then |Want(env, calls[0]).value.vector|
    else Dimension(env, calls[1..])
  }

  /** The upsert is accepted: it is well formed and has the history's dimension. */
  predicate Accepted(env: Env, calls: seq<Call>, i: nat)
    requires i < |calls|
  {
    Want(env, calls[i]).Ok? && |Want(env, calls[i]).value.vector| == Dimension(env, calls)
  }

  /** The entry is that of the last accepted upsert of its key. */
  ghost predicate Stands(env: Env, calls: seq<Call>, e: Entry) {
    exists i :: StandsAt(env, calls, e, i)
  }

  ghost predicate StandsAt(env: Env, calls: seq<Call>, e: Entry, i: int) {
    && 0 <= i < |calls| && Accepted(env, calls, i) && Want(env, calls[i]).value == e
    && forall j | i < j < |calls| && Accepted(env, calls, j) :: IdOf(Want(env, calls[j]).value) != IdOf(e)
  }

  lemma {:induction false} DimensionMore(env: Env, calls: seq<Call>, c: Call)
    ensures Dimension(env, calls + [c]) ==
      if Dimension(env, calls) != 0 then Dimension(env, calls)
      else if Want(env, c).Ok? then |Want(env, c).value.vector| else 0
    ensures Dimension(env, calls) == 0 <==> forall i | 0 <= i < |calls| :: !Want(env, calls[i]).Ok?
  {
    hide Normalize, Complete;
    if calls != [] {
      DimensionMore(env, calls[1..], c);
      assert (calls + [c])[1..] == calls[1..] + [c];
      forall i | 1 <= i < |calls| ensures calls[i] == calls[1..][i - 1] {
      }
    } else {
      assert (calls + [c])[1..] == [];
    }
  }

  lemma AcceptedBefore(env: Env, calls: seq<Call>, c: Call, i: nat)
    requires i < |calls|
    ensures Accepted(env, calls + [c], i) <==> Accepted(env, calls, i)
  {
    hide Want;
    DimensionMore(env, calls, c);
  }

  /** What one more upsert does to the entries that stand. */
  lemma StandsMore(env: Env, calls: seq<Call>, c: Call, e: Entry)
    ensures var more := calls + [c];
      Stands(env, more, e) <==>
        if Accepted(env, more, |calls|)
        then e == Want(env, c).value || (Stands(env, calls, e) && IdOf(e) != IdOf(Want(env, c).value))
        else Stands(env, calls, e)
  {
    var more := calls + [c];
    forall i: nat | i < |calls| ensures Accepted(env, more, i) <==> Accepted(env, calls, i) {
      AcceptedBefore(env, calls, c, i);
    }
    hide Accepted, Want, IdOf;
    var accepted := Accepted(env, more, |calls|);
    forall i | 0 <= i < |calls|
      ensures StandsAt(env, more, e, i) <==>
        StandsAt(env, calls, e, i) && (accepted ==> IdOf(e) != IdOf(Want(env, c).value))
    {
      assert forall j: nat | j < |calls| :: more[j] == calls[j];
    }
    assert StandsAt(env, more, e, |calls|) <==> accepted && Want(env, c).value == e;
    if Stands(env, more, e) {
      var i :| StandsAt(env, more, e, i);
      assert i == |calls| || StandsAt(env, calls, e, i);
    }
    if Stands(env, calls, e) {
      var i :| StandsAt(env, calls, e, i);
      assert !accepted || IdOf(e) != IdOf(Want(env, c).value) ==> StandsAt(env, more, e, i);
    }
  }

  /** The index holds exactly what stands. */
  ghost predicate Holds(env: Env, calls: seq<Call>, ix: Index) {
    ix.dimensions == Dimension(env, calls) && forall e :: e in ix.entries <==> Stands(env, calls, e)
  }

  lemma UpsertedIs(env: Env, calls: seq<Call>, c: Call, ix: Index)
    requires ix.dimensions == Dimension(env, calls)
    ensures var after := Upserted(env, ix, c.m, c.now).0;
      && after.dimensions == Dimension(env, calls + [c])
      && after.entries == if Accepted(env, calls + [c], |calls|) then StableSort(Place(ix.entries, Want(env, c).value), Before)
                          else ix.entries
  {
    DimensionMore(env, calls, c);
    assert (calls + [c])[|calls|] == c;
    VectorsNotEmpty(env, c);
    hide Prepared, Dimension, StableSort, Place, Before;
  }

  lemma VectorsNotEmpty(env: Env, c: Call)
    ensures Want(env, c).Ok? ==> |Want(env, c).value.vector| > 0
  {
  }

  lemma UpsertedHolds(env: Env, calls: seq<Call>, c: Call, ix: Index)
    requires WellFormed(ix) && Holds(env, calls, ix)
    ensures Holds(env, calls + [c], Upserted(env, ix, c.m, c.now).0)
    ensures StrictlySorted(Upserted(env, ix, c.m, c.now).0.entries)
  {
    var after := Upserted(env, ix, c.m, c.now).0;
    UpsertedIs(env, calls, c, ix);
    hide Upserted, Want, Stands, Dimension, IdOf, StableSort, Place, Before, StrictlySorted, Accepted;
    if Accepted(env, calls + [c], |calls|) {
      SortPlaced(ix.entries, Want(env, c).value);
    }
    forall e ensures e in after.entries <==> Stands(env, calls + [c], e) {
      StandsMore(env, calls, c, e);
    }
  }

  /** All that stands has the history's dimension. */
  lemma HoldsIsWellFormed(env: Env, calls: seq<Call>, ix: Index)
    requires Holds(env, calls, ix) && StrictlySorted(ix.entries)
    ensures WellFormed(ix)
  {
    hide Want, Dimension, IdOf, StrictlySorted;
    forall e | e in ix.entries ensures |e.vector| == ix.dimensions > 0 {
      var i :| StandsAt(env, calls, e, i);
      VectorsNotEmpty(env, calls[i]);
    }
  }

  /** After any upserts from empty the slice is strictly sorted by workspace and memory id, all
      vectors have the dimension of the first accepted one, and the entries are exactly those of the
      last accepted upsert of each key. */
  lemma {:induction false} RunHoldsLastUpserts(env: Env, calls: seq<Call>)
    ensures WellFormed(Run(env, calls)) && Holds(env, calls, Run(env, calls))
  {
    hide Upserted;
    if calls != [] {
      var before := calls[..|calls| - 1];
      RunHoldsLastUpserts(env, before);
      UpsertedHolds(env, before, calls[|calls| - 1], Run(env, before));
      assert before + [calls[|calls| - 1]] == calls;
      HoldsIsWellFormed(env, calls, Run(env, calls));
    }
  }

  /** The index has a dimension exactly when it has an entry. */
  lemma {:induction false} DimensionWithEntries(env: Env, calls: seq<Call>)
    ensures Run(env, calls).dimensions == 0 <==> Run(env, calls).entries == []
  {
    if calls != [] {
      var (before, last) := (calls[..|calls| - 1], calls[|calls| - 1]);
      DimensionWithEntries(env, before);
      var ix := Run(env, before);
      var want := Want(env, last);
      VectorsNotEmpty(env, last);
      if want.Ok? {
        PlacedIsNotEmpty(ix.entries, want.value);
      }
      hide Want, Place, StableSort, Before, Prepared;
    }
  }

  lemma PlacedIsNotEmpty(entries: seq<Entry>, e: Entry)
    ensures |StableSort(Place(entries, e), Before)| > 0
  {
    StableSortKeeps(Place(entries, e), Before);
  }

  /** Histories in which the same entries stand lead to the same index. */
  lemma HistoryIsForgotten(env: Env, calls: seq<Call>, calls': seq<Call>)
    requires forall e :: Stands(env, calls, e) <==> Stands(env, calls', e)
    ensures Run(env, calls) == Run(env, calls')
  {
    RunHoldsLastUpserts(env, calls);
    RunHoldsLastUpserts(env, calls');
    DimensionWithEntries(env, calls);
    DimensionWithEntries(env, calls');
    hide Stands, Run, StrictlySorted, Dimension;
    var (ix, ix') := (Run(env, calls), Run(env, calls'));
    SortedSliceUnique(ix.entries, ix'.entries);
    if ix.entries != [] {
      assert ix.entries[0] in ix.entries && ix.entries[0] in ix'.entries;
    }
  }

  // ----- Failed writes and restarts -----

  /** What happens to an index and its file: an upsert, whose write may fail, or a new start. */
  datatype Event = Put(call: Call, written: bool) | Restart

  datatype Disk = Disk(index: Index, file: Option<Index>)

  /** What `Upsert`, and opening the index anew, do to the two. */
  function Happen(env: Env, d: Disk, e: Event): Disk {
    match e
    case Put(c, written) =>
      var (index, stored) := Upserted(env, d.index, c.m, c.now);
      Disk(index, if stored.Ok? && written then Some(index) else d.file)
    case Restart => d.(index := Loaded(d.file))
  }

  function HappenAll(env: Env, events: seq<Event>): Disk {
    if events == [] then Disk(EMPTY, None) else Happen(env, HappenAll(env, events[..|events| - 1]), events[|events| - 1])
  }

  /** The upserts that count: `live` made the index, `saved` the file. A write that succeeds saves
      all that is live, those that could not be written before it too; a restart drops what is not
      saved. */
  datatype Kept = Kept(live: seq<Call>, saved: seq<Call>)

  function Keep(env: Env, events: seq<Event>): Kept {
    if events == [] then Kept([], [])
    else
      var before := Keep(env, events[..|events| - 1]);
      match events[|events| - 1]
      case Put(c, written) =>
        var live := before.live + [c];
        Kept(live, if Upserted(env, Run(env, before.live), c.m, c.now).1.Ok? && written then live else before.saved)
      case Restart => before.(live := before.saved)
  }

  /** After every run of upserts, failed writes and restarts, the index is that of the live upserts
      and the file that of the saved ones, so all that is proved of plain runs holds of both. */
  lemma {:induction false} IndexAndFileMeanKept(env: Env, events: seq<Event>)
    ensures var (d, k) := (HappenAll(env, events), Keep(env, events));
      && d.index == Run(env, k.live)
      && d.file == if k.saved == [] then None else Some(Run(env, k.saved))
    ensures WellFormed(HappenAll(env, events).index)
  {
    hide WellFormed, Loaded, Upserted;
    if events != [] {
      var init := events[..|events| - 1];
      IndexAndFileMeanKept(env, init);
      var k := Keep(env, init);
      match events[|events| - 1]
      case Put(c, written) =>
        assert (k.live + [c])[..|k.live|] == k.live;
      case Restart =>
        RunHoldsLastUpserts(env, k.saved);
        ReloadKeeps(Run(env, k.saved));
        NothingLoaded();
    }
    RunHoldsLastUpserts(env, Keep(env, events).live);
  }

  lemma NothingLoaded()
    ensures Loaded(None) == EMPTY
  {
  }

  /** An upsert that could not be written is found until the restart, and not after it unless the
      file had the same entry already. */
  lemma UnwrittenUntilRestart(env: Env, events: seq<Event>, c: Call)
    requires var d := HappenAll(env, events); Upserted(env, d.index, c.m, c.now).1.Ok?
    ensures var (d, e) := (HappenAll(env, events), Want(env, c).value);
      var put := Happen(env, d, Put(c, false));
      && e in put.index.entries && put.file == d.file
      && (e in Happen(env, put, Restart).index.entries <==> d.file.Some? && e in d.file.value.entries)
  {
    var d := HappenAll(env, events);
    var e := Want(env, c).value;
    IndexAndFileMeanKept(env, events);
    SortPlaced(d.index.entries, e);
    if d.file.Some? {
      StableSortMembers(d.file.value.entries, Before);
    }
    hide HappenAll, Run, Place, StableSort, Before, StrictlySorted, Prepared;
  }

  // ----- What a search finds -----

  /** The order of hits with its ties broken as the slice has them. */
  predicate CloserOrEarlier(a: Scored, b: Scored) {
    Closer(a, b) || (!Closer(b, a) && Before(a.entry, b.entry))
  }

  ghost predicate InSliceOrder(s: seq<Scored>) {
    forall i, j :: 0 <= i < j < |s| ==> Before(s[i].entry, s[j].entry)
  }

  lemma {:induction false} InsertBreaksTies(x: Scored, s: seq<Scored>)
    requires forall y | y in s :: !Before(y.entry, x.entry)
    ensures Insert(x, s, Closer) == Insert(x, s, CloserOrEarlier)
  {
    if s != [] && Closer(s[0], x) {
      InsertBreaksTies(x, s[1..]);
    }
  }

  /** Stability breaks the ties of score and memory id by workspace. */
  lemma {:induction false} SortBreaksTies(s: seq<Scored>)
    requires InSliceOrder(s)
    ensures StableSort(s, Closer) == StableSort(s, CloserOrEarlier)
  {
    if s != [] {
      SortBreaksTies(s[1..]);
      StableSortMembers(s[1..], Closer);
      forall y | y in s[1..] ensures !Before(y.entry, s[0].entry) {
        var i :| 0 <= i < |s[1..]| && s[1..][i] == y;
        assert Before(s[0].entry, s[i + 1].entry);
        BeforeSeparates(s[0].entry, y.entry);
      }
      InsertBreaksTies(s[0], StableSort(s[1..], Closer));
    }
  }

  lemma {:induction false} ScoresMeaning(env: Env, q: Query, qv: Vector, entries: seq<Entry>)
    requires StrictlySorted(entries)
    ensures forall s :: s in Scores(env, q, qv, entries) <==>
      s.entry in entries && Positive(env, q, qv, s.entry) && s.score == env.similarity(qv, s.entry.vector)
    ensures InSliceOrder(Scores(env, q, qv, entries))
  {
    hide Matches, Before;
    if entries != [] {
      var (init, e) := (entries[..|entries| - 1], entries[|entries| - 1]);
      assert entries == init + [e];
      ScoresMeaning(env, q, qv, init);
      hide Positive;
      forall s | s in Scores(env, q, qv, init) ensures Before(s.entry, e) {
        assert s.entry in init;
      }
    }
  }

  lemma CloserOrEarlierIsStrict()
    ensures StrictWeak(CloserOrEarlier)
  {
    LessIsStrictTotal();
    forall x, y, z | CloserOrEarlier(x, z) ensures CloserOrEarlier(x, y) || CloserOrEarlier(y, z) {
      ClosenessSplits(x, y, z);
    }
    forall x, y | CloserOrEarlier(x, y) ensures !CloserOrEarlier(y, x) {
      BeforeSeparates(x.entry, y.entry);
    }
  }

  lemma ClosenessSplits(x: Scored, y: Scored, z: Scored)
    requires CloserOrEarlier(x, z)
    ensures CloserOrEarlier(x, y) || CloserOrEarlier(y, z)
  {
    LessIsStrictTotal();
    BeforeSeparates(x.entry, y.entry);
    BeforeSeparates(y.entry, z.entry);
    BeforeSeparates(x.entry, z.entry);
    BeforeIsStrictWeak();
  }

  /** The ranking is the best `limit` of the positive matches, all of them when the limit is absent
      or too great: by score, then by memory id, then by workspace. */
  ghost predicate BestOf(top: seq<Scored>, all: seq<Scored>, limit: int) {
    && |top| == (if limit <= 0 || limit > |all| then |all| else limit)
    && (forall s | s in top :: s in all)
    && (forall i, j :: 0 <= i < j < |top| ==> CloserOrEarlier(top[i], top[j]))
    && (forall s, t | s in top && t in all && t !in top :: CloserOrEarlier(s, t))
  }

  lemma TakeIsBest(all: seq<Scored>, sorted: seq<Scored>, limit: int)
    requires |sorted| == |all| && (forall s :: s in sorted <==> s in all)
    requires forall i, j :: 0 <= i < j < |sorted| ==> CloserOrEarlier(sorted[i], sorted[j])
    ensures BestOf(Take(sorted, limit), all, limit)
  {
    hide CloserOrEarlier;
    var top := Take(sorted, limit);
    forall s, t | s in top && t in all && t !in top ensures CloserOrEarlier(s, t) {
      var i :| 0 <= i < |top| && top[i] == s;
      var j :| 0 <= j < |sorted| && sorted[j] == t;
      assert forall k | 0 <= k < |top| :: top[k] == sorted[k];
    }
  }

  lemma StrictRanking(s: seq<Scored>, sorted: seq<Scored>)
    requires InSliceOrder(s) && multiset(s) == multiset(sorted) && Sorted(sorted, CloserOrEarlier)
    ensures forall i, j :: 0 <= i < j < |sorted| ==> CloserOrEarlier(sorted[i], sorted[j])
  {
    forall i, j | 0 <= i < j < |s| ensures s[i] != s[j] {
      BeforeSeparates(s[i].entry, s[j].entry);
    }
    Finite.PermutationDistinct(s, sorted);
    forall i, j | 0 <= i < j < |sorted| ensures CloserOrEarlier(sorted[i], sorted[j]) {
      assert sorted[i] in multiset(s) && sorted[j] in multiset(s) && sorted[i] != sorted[j];
      var k :| 0 <= k < |s| && s[k] == sorted[i];
      var l :| 0 <= l < |s| && s[l] == sorted[j];
      assert Before(s[k].entry, s[l].entry) || Before(s[l].entry, s[k].entry);
      assert !CloserOrEarlier(sorted[j], sorted[i]);
    }
  }

  /** A search finds exactly the best positive matches of the slice. */
  lemma SearchFindsTheBest(env: Env, ix: Index, q: Query, qv: Vector) returns (all: seq<Scored>)
    requires WellFormed(ix)
    ensures forall s :: s in all <==>
      s.entry in ix.entries && Positive(env, q, qv, s.entry) && s.score == env.similarity(qv, s.entry.vector)
    ensures forall i, j :: 0 <= i < j < |all| ==> all[i].entry != all[j].entry
    ensures BestOf(Ranked(env, ix, q, qv), all, q.limit)
  {
    all := Scores(env, q, qv, ix.entries);
    ScoresMeaning(env, q, qv, ix.entries);
    SortBreaksTies(all);
    CloserOrEarlierIsStrict();
    StableSortSorts(all, CloserOrEarlier);
    StableSortKeeps(all, CloserOrEarlier);
    StableSortMembers(all, CloserOrEarlier);
    forall i, j | 0 <= i < j < |all| ensures all[i].entry != all[j].entry {
      BeforeSeparates(all[i].entry, all[j].entry);
    }
    hide StableSort, Scores, Sorted, CloserOrEarlier, StrictWeak, Positive, InSliceOrder, Before;
    var sorted := StableSort(all, CloserOrEarlier);
    StrictRanking(all, sorted);
    TakeIsBest(all, sorted, q.limit);
  }
}
