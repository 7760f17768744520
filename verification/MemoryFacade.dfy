/** service/memory_facade.go over service/memory_slots.go: memories under the caller's own ids,
    each one a named slot, with every add, update and delete recorded as an observation.
    The slot table is a map; the log is the observation table in the order of its rows. `now` is
    what the call read from the clock. */
module MemoryFacade {
  import opened Text

  datatype Option<T> = None | Some(value: T)

  datatype Error = Invalid | Conflict | SlotMissing | MemoryMissing | Undecodable | Unrecorded

  datatype Result<T> = Ok(value: T) | Err(error: Error)

  // ----- Slots -----

  datatype Key = Key(workspace: string, profile: string, peer: string, scope: string, name: string)

  datatype Row = Row(kind: string, value: string, revision: int, deleted: bool, createdAt: int, updatedAt: int)

  datatype MemorySlot = MemorySlot(key: Key, row: Row)

  datatype SlotParams = SlotParams(workspace: string, profile: string, peer: string, scope: string,
                                   name: string, kind: string, value: string)

  datatype SlotAction = Created | Appended | Replaced | Removed

  // ----- Memories -----

  type Metadata = map<string, string>

  /** What a slot's value encodes. Metadata may be absent, which is not the same as empty. */
  datatype Envelope = Envelope(id: string, user: string, agent: string, run: string, session: string,
                               content: string, metadata: Option<Metadata>)

  datatype Item = Item(env: Envelope, workspace: string, profile: string, revision: int, deleted: bool,
                       createdAt: int, updatedAt: int)

  /** The parameters of an add, an update or a delete; a delete reads the address only. */
  datatype Request = Request(id: string, user: string, agent: string, run: string, session: string,
                             workspace: string, profile: string, content: string, metadata: Option<Metadata>)

  datatype Action = Added | Updated | Deleted

  /** The observations these two files write. A slot operation audits itself without naming its
      workspace; a facade operation records what it did to the memory. */
  datatype Entry =
    | Audit(workspace: string, profile: string, peer: string, scope: string, name: string,
            slotAction: SlotAction, kind: string, revision: int)
    | Event(workspace: string, profile: string, peer: string, name: string, action: Action, agent: string,
            run: string, session: string, previous: string, next: string, metadata: Metadata, revision: int)

  datatype State = State(slots: map<Key, Row>, log: seq<Entry>)

  /** How `unicode.ToLower` maps a character; it keeps the small Latin letters. */
  type Lowering = f: char -> char | forall c | 'a' <= c <= 'z' :: f(c) == c witness c => c

  /** The service's own settings, the envelope codec, and what the observation table makes of an
      entry: the form it stores (it redacts and truncates), or nothing if it refuses it. */
  datatype Config = Config(workspace: string, observer: string, lower: Lowering, encode: Envelope -> string,
                           decode: string -> Option<Envelope>, stores: Entry -> Option<Entry>)

  function Lower(cfg: Config, s: string): string {
    seq(|s|, i requires 0 <= i < |s| => cfg.lower(s[i]))
  }

  function MemoryScope(cfg: Config, scope: string, profile: string): string {
    var s := Lower(cfg, TrimSpace(scope));
    if s in {"profile", "workspace", "shared", "session", "global"} then s
    else if TrimSpace(profile) != "" then "profile" else "workspace"
  }

  function Workspace(cfg: Config, workspace: string): string {
    var w := TrimSpace(workspace);
    if w == "" then TrimSpace(cfg.workspace) else w
  }

  function SlotKey(cfg: Config, workspace: string, profile: string, peer: string, scope: string, name: string): Key {
    Key(Workspace(cfg, workspace), TrimSpace(profile), TrimSpace(peer),
        MemoryScope(cfg, scope, TrimSpace(profile)), TrimSpace(name))
  }

  function ParamsKey(cfg: Config, p: SlotParams): Key {
    SlotKey(cfg, p.workspace, p.profile, p.peer, p.scope, p.name)
  }

  predicate Usable(k: Key) {
    k.workspace != "" && k.peer != "" && k.name != ""
  }

  function FirstNonBlank(values: seq<string>): string {
    if values == [] then ""
    else if TrimSpace(values[0]) != "" then TrimSpace(values[0]) else FirstNonBlank(values[1..])
  }

  // ----- The steps as functions -----

  /** An entry without a workspace is the service's own workspace's. */
  function Placed(cfg: Config, e: Entry): Entry {
    if TrimSpace(e.workspace) != "" then e
    else
      match e
      case Audit(_, profile, peer, scope, name, action, kind, revision) =>
        Audit(cfg.workspace, profile, peer, scope, name, action, kind, revision)
      case Event(_, profile, peer, name, action, agent, run, session, previous, next, metadata, revision) =>
        Event(cfg.workspace, profile, peer, name, action, agent, run, session, previous, next, metadata, revision)
  }

  /** `Service.Observe`: no entry is taken for the workspace "*". */
  function Observed(cfg: Config, log: seq<Entry>, e: Entry): Option<seq<Entry>> {
    if TrimSpace(e.workspace) == "*" then None
    else
      match cfg.stores(Placed(cfg, e))
      case None => None
      case Some(x) => Some(log + [x])
  }

  /** `upsertMemorySlotRow`: an existing row keeps its creation time. */
  function Upsert(slots: map<Key, Row>, k: Key, row: Row): map<Key, Row> {
    slots[k := if k in slots then row.(createdAt := slots[k].createdAt) else row]
  }

  /** Writes the row, then audits; a refused audit fails the call but leaves the row written. */
  function Store(cfg: Config, st: State, k: Key, row: Row, action: SlotAction): (State, Result<MemorySlot>) {
    var written := st.(slots := Upsert(st.slots, k, row));
    match Observed(cfg, st.log, Audit("", k.profile, k.peer, k.scope, k.name, action, row.kind, row.revision))
    case None => (written, Err(Unrecorded))
    case Some(log) => (written.(log := log), Ok(MemorySlot(k, row)))
  }

  predicate Live(slots: map<Key, Row>, k: Key) {
    k in slots && !slots[k].deleted
  }

  function Kind(p: SlotParams): string {
    if TrimSpace(p.kind) == "" then "fact" else TrimSpace(p.kind)
  }

  function CreateSlot(cfg: Config, st: State, p: SlotParams, now: int): (State, Result<MemorySlot>) {
    var (k, value) := (ParamsKey(cfg, p), TrimSpace(p.value));
    if !Usable(k) || value == "" then (st, Err(Invalid))
    else if Live(st.slots, k) then (st, Err(Conflict))
    else
      var since := if k in st.slots && st.slots[k].createdAt > 0 then st.slots[k].createdAt else now;
      Store(cfg, st, k, Row(Kind(p), value, 1, false, since, now), Created)
  }

  function AppendSlot(cfg: Config, st: State, p: SlotParams, now: int): (State, Result<MemorySlot>) {
    var (k, value) := (ParamsKey(cfg, p), TrimSpace(p.value));
    if !Usable(k) || value == "" then (st, Err(Invalid))
    else if !Live(st.slots, k) then (st, Err(SlotMissing))
    else
      var row := st.slots[k];
      var longer := if TrimSpace(row.value) == "" then value else row.value + "\n" + value;
      Store(cfg, st, k, row.(value := longer, kind := Kind(p), revision := row.revision + 1, updatedAt := now), Appended)
  }

  function ReplaceSlot(cfg: Config, st: State, p: SlotParams, now: int): (State, Result<MemorySlot>) {
    var (k, value) := (ParamsKey(cfg, p), TrimSpace(p.value));
    if !Usable(k) || value == "" then (st, Err(Invalid))
    else if !Live(st.slots, k) then (st, Err(SlotMissing))
    else
      var row := st.slots[k];
      Store(cfg, st, k, row.(value := value, kind := Kind(p), revision := row.revision + 1, updatedAt := now), Replaced)
  }

  function DeleteSlot(cfg: Config, st: State, k: Key, now: int): (State, Result<MemorySlot>) {
    if !Usable(k) then (st, Err(Invalid))
    else if !Live(st.slots, k) then (st, Err(SlotMissing))
    else
      var row := st.slots[k];
      Store(cfg, st, k, row.(deleted := true, revision := row.revision + 1, updatedAt := now), Removed)
  }

  function GetSlot(st: State, k: Key): Result<MemorySlot> {
    if !Usable(k) then Err(Invalid)
    else if !Live(st.slots, k) then Err(SlotMissing)
    else Ok(MemorySlot(k, st.slots[k]))
  }

  function ItemOf(slot: MemorySlot, env: Envelope): Item {
    Item(env, slot.key.workspace, slot.key.profile, slot.row.revision, slot.row.deleted, slot.row.createdAt,
         slot.row.updatedAt)
  }

  /** `recordMemoryHistory`. */
  function Record(cfg: Config, st: State, action: Action, item: Item, previous: string, next: string,
                  metadata: Option<Metadata>): (State, Result<Item>)
  {
    var e := Event(item.workspace, item.profile, item.env.user, item.env.id, action, item.env.agent, item.env.run,
                   item.env.session, previous, next, Entries(metadata), item.revision);
    match Observed(cfg, st.log, e)
    case None => (st, Err(Unrecorded))
    case Some(log) => (st.(log := log), Ok(item))
  }

  function Entries(metadata: Option<Metadata>): Metadata {
    if metadata.Some? then metadata.value else map[]
  }

  /** The slot a facade call names. */
  function FacadeKey(cfg: Config, r: Request): Key {
    SlotKey(cfg, r.workspace, r.profile, r.user, MemoryScope(cfg, "", r.profile), r.id)
  }

  function FacadeSlot(cfg: Config, r: Request, env: Envelope): SlotParams {
    SlotParams(r.workspace, r.profile, env.user, MemoryScope(cfg, "", r.profile), env.id, "mem0_facade", cfg.encode(env))
  }

  predicate Sayable(env: Envelope) {
    env.id != "" && env.user != "" && env.content != ""
  }

  function AddEnvelope(cfg: Config, r: Request): Envelope {
    Envelope(TrimSpace(r.id), TrimSpace(r.user), FirstNonBlank([r.agent, cfg.observer]),
             FirstNonBlank([r.run, r.session]), FirstNonBlank([r.session, r.run]), TrimSpace(r.content), r.metadata)
  }

  /** What the request leaves blank stays as it was. */
  function UpdateEnvelope(cfg: Config, r: Request, was: Envelope): Envelope {
    Envelope(TrimSpace(r.id), TrimSpace(r.user), FirstNonBlank([r.agent, was.agent, cfg.observer]),
             FirstNonBlank([r.run, r.session, was.run]), FirstNonBlank([r.session, r.run, was.session]),
             TrimSpace(r.content), if r.metadata.None? then was.metadata else r.metadata)
  }

  function AddMemory(cfg: Config, st: State, r: Request, now: int): (State, Result<Item>) {
    var env := AddEnvelope(cfg, r);
    if !Sayable(env) then (st, Err(Invalid))
    else
      var (made, slot) := CreateSlot(cfg, st, FacadeSlot(cfg, r, env), now);
      match slot
      case Err(e) => (made, Err(e))
      case Ok(s) => Record(cfg, made, Added, ItemOf(s, env), "", env.content, env.metadata)
  }

  function GetMemory(cfg: Config, st: State, r: Request): Result<Item> {
    match GetSlot(st, FacadeKey(cfg, r))
    case Err(e) => Err(if e.SlotMissing? then MemoryMissing else e)
    case Ok(s) =>
      match cfg.decode(s.row.value)
      case None => Err(Undecodable)
      case Some(env) => Ok(ItemOf(s, env))
  }

  function UpdateMemory(cfg: Config, st: State, r: Request, now: int): (State, Result<Item>) {
    match GetMemory(cfg, st, r)
    case Err(e) => (st, Err(e))
    case Ok(was) =>
      var env := UpdateEnvelope(cfg, r, was.env);
      if !Sayable(env) then (st, Err(Invalid))
      else
        var (changed, slot) := ReplaceSlot(cfg, st, FacadeSlot(cfg, r, env), now);
        match slot
        case Err(e) => (changed, Err(e))
        case Ok(s) => Record(cfg, changed, Updated, ItemOf(s, env), was.env.content, env.content, env.metadata)
  }

  function DeleteMemory(cfg: Config, st: State, r: Request, now: int): (State, Result<Item>) {
    match GetMemory(cfg, st, r)
    case Err(e) => (st, Err(e))
    case Ok(was) =>
      var (removed, slot) := DeleteSlot(cfg, st, FacadeKey(cfg, r), now);
      match slot
      case Err(e) => (removed, Err(if e.SlotMissing? then MemoryMissing else e))
      case Ok(s) =>
        var item := was.(deleted := true, revision := s.row.revision, updatedAt := s.row.updatedAt);
        Record(cfg, removed, Deleted, item, was.env.content, "", was.env.metadata)
  }

  // ----- The service and the facade -----

  class Service {
    const cfg: Config
    var slots: map<Key, Row>
    var log: seq<Entry>

    constructor (cfg: Config)
      ensures this.cfg == cfg && Contents() == State(map[], [])
    {
      this.cfg, slots, log := cfg, map[], [];
    }

    function Contents(): State
      reads this
    {
      State(slots, log)
    }

    method Observe(e: Entry) returns (ok: bool)
      modifies `log
      ensures var after := Observed(cfg, old(log), e);
        ok == after.Some? && log == if ok then after.value else old(log)
    {
      if TrimSpace(e.workspace) == "*" {
        return false;
      }
      var stored := cfg.stores(Placed(cfg, e));
      if stored.None? {
        return false;
      }
      log := log + [stored.value];
      return true;
    }

    method StoreRow(k: Key, row: Row, action: SlotAction) returns (r: Result<MemorySlot>)
      modifies this
      ensures (Contents(), r) == Store(cfg, old(Contents()), k, row, action)
    {
      slots := slots[k := if k in slots then row.(createdAt := slots[k].createdAt) else row];
      var ok := Observe(Audit("", k.profile, k.peer, k.scope, k.name, action, row.kind, row.revision));
      r := if ok then Ok(MemorySlot(k, row)) else Err(Unrecorded);
    }

    method CreateMemorySlot(p: SlotParams, now: int) returns (r: Result<MemorySlot>)
      modifies this
      ensures (Contents(), r) == CreateSlot(cfg, old(Contents()), p, now)
    {
      hide Store, ParamsKey, TrimSpace, Kind;
      var k, value := ParamsKey(cfg, p), TrimSpace(p.value);
      if !Usable(k) || value == "" {
        return Err(Invalid);
      }
      if k in slots && !slots[k].deleted {
        return Err(Conflict);
      }
      var row := Row(Kind(p), value, 1, false, now, now);
      if k in slots && slots[k].createdAt > 0 {
        row := row.(createdAt := slots[k].createdAt);
      }
      r := StoreRow(k, row, Created);
    }

    method AppendMemorySlot(p: SlotParams, now: int) returns (r: Result<MemorySlot>)
      modifies this
      ensures (Contents(), r) == AppendSlot(cfg, old(Contents()), p, now)
    {
      hide Store, ParamsKey, TrimSpace, Kind;
      var k, value := ParamsKey(cfg, p), TrimSpace(p.value);
      if !Usable(k) || value == "" {
        return Err(Invalid);
      }
      if k !in slots || slots[k].deleted {
        return Err(SlotMissing);
      }
      var row := slots[k];
      var longer := value;
      if TrimSpace(row.value) != "" {
        longer := row.value + "\n" + value;
      }
      row := row.(value := longer, kind := Kind(p), revision := row.revision + 1, updatedAt := now);
      r := StoreRow(k, row, Appended);
    }

    method ReplaceMemorySlot(p: SlotParams, now: int) returns (r: Result<MemorySlot>)
      modifies this
      ensures (Contents(), r) == ReplaceSlot(cfg, old(Contents()), p, now)
    {
      hide Store, ParamsKey, TrimSpace, Kind;
      var k, value := ParamsKey(cfg, p), TrimSpace(p.value);
      if !Usable(k) || value == "" {
        return Err(Invalid);
      }
      if k !in slots || slots[k].deleted {
        return Err(SlotMissing);
      }
      var row := slots[k];
      row := row.(value := value, kind := Kind(p), revision := row.revision + 1, updatedAt := now);
      r := StoreRow(k, row, Replaced);
    }

    method DeleteMemorySlot(k: Key, now: int) returns (r: Result<MemorySlot>)
      modifies this
      ensures (Contents(), r) == DeleteSlot(cfg, old(Contents()), k, now)
    {
      if !Usable(k) {
        return Err(Invalid);
      }
      if k !in slots || slots[k].deleted {
        return Err(SlotMissing);
      }
      var row := slots[k];
      row := row.(deleted := true, revision := row.revision + 1, updatedAt := now);
      r := StoreRow(k, row, Removed);
    }
  }

  class Facade {
    const svc: Service

    constructor (svc: Service)
      ensures this.svc == svc
    {
      this.svc := svc;
    }

    method RecordMemoryHistory(action: Action, item: Item, previous: string, next: string, metadata: Option<Metadata>)
      returns (r: Result<Item>)
      modifies svc
      ensures (svc.Contents(), r) == Record(svc.cfg, old(svc.Contents()), action, item, previous, next, metadata)
    {
      var ok := svc.Observe(
        Event(item.workspace, item.profile, item.env.user, item.env.id, action, item.env.agent, item.env.run,
              item.env.session, previous, next, Entries(metadata), item.revision));
      r := if ok then Ok(item) else Err(Unrecorded);
    }

    method Add(p: Request, now: int) returns (r: Result<Item>)
      modifies svc
      ensures (svc.Contents(), r) == AddMemory(svc.cfg, old(svc.Contents()), p, now)
    {
      var env := AddEnvelope(svc.cfg, p);
      if !Sayable(env) {
        return Err(Invalid);
      }
      var created := svc.CreateMemorySlot(FacadeSlot(svc.cfg, p, env), now);
      if created.Err? {
        return Err(created.error);
      }
      r := RecordMemoryHistory(Added, ItemOf(created.value, env), "", env.content, env.metadata);
    }

    method Get(p: Request) returns (r: Result<Item>)
      ensures r == GetMemory(svc.cfg, svc.Contents(), p)
    {
      var slot := GetSlot(svc.Contents(), FacadeKey(svc.cfg, p));
      if slot.Err? {
        return Err(if slot.error.SlotMissing? then MemoryMissing else slot.error);
      }
      var env := svc.cfg.decode(slot.value.row.value);
      r := if env.None? then Err(Undecodable) else Ok(ItemOf(slot.value, env.value));
    }

    method Update(p: Request, now: int) returns (r: Result<Item>)
      modifies svc
      ensures (svc.Contents(), r) == UpdateMemory(svc.cfg, old(svc.Contents()), p, now)
    {
      var was := Get(p);
      if was.Err? {
        return was;
      }
      var env := UpdateEnvelope(svc.cfg, p, was.value.env);
      if !Sayable(env) {
        return Err(Invalid);
      }
      var updated := svc.ReplaceMemorySlot(FacadeSlot(svc.cfg, p, env), now);
      if updated.Err? {
        return Err(updated.error);
      }
      r := RecordMemoryHistory(Updated, ItemOf(updated.value, env), was.value.env.content, env.content, env.metadata);
    }

    method Delete(p: Request, now: int) returns (r: Result<Item>)
      modifies svc
      ensures (svc.Contents(), r) == DeleteMemory(svc.cfg, old(svc.Contents()), p, now)
    {
      var was := Get(p);
      if was.Err? {
        return was;
      }
      var deleted := svc.DeleteMemorySlot(FacadeKey(svc.cfg, p), now);
      if deleted.Err? {
        return Err(if deleted.error.SlotMissing? then MemoryMissing else deleted.error);
      }
      var item := was.value.(deleted := true, revision := deleted.value.row.revision,
                             updatedAt := deleted.value.row.updatedAt);
      r := RecordMemoryHistory(Deleted, item, was.value.env.content, "", was.value.env.metadata);
    }
  }

  // ----- What the history says -----

  /** The entry is a facade event of the memory in the slot. */
  predicate About(e: Entry, k: Key) {
    e.Event? && e.workspace == k.workspace && e.profile == k.profile && e.peer == k.peer && e.name == k.name
  }

  /** The events of one memory, oldest first. */
  function EventsOf(log: seq<Entry>, k: Key): (h: seq<Entry>)
    ensures forall e | e in h :: About(e, k) && e in log
  {
    if log == [] then []
    else
      var (before, last) := (EventsOf(log[..|log| - 1], k), log[|log| - 1]);
      if About(last, k) then before + [last] else before
  }

  function LastContent(h: seq<Entry>): string
    requires forall e | e in h :: e.Event?
  {
    if h == [] then "" else h[|h| - 1].next
  }

  predicate Alive(h: seq<Entry>)
    requires forall e | e in h :: e.Event?
  {
    h != [] && !h[|h| - 1].action.Deleted?
  }

  /** The event may come after the history. */
  predicate Continues(h: seq<Entry>, e: Entry)
    requires e.Event? && forall x | x in h :: x.Event?
  {
    && (e.action.Added? <==> !Alive(h))
    && e.previous == LastContent(h)
    && (e.next == "" <==> e.action.Deleted?)
    && e.revision == (if e.action.Added? then 1 else h[|h| - 1].revision + 1)
  }

  predicate Lawful(h: seq<Entry>)
    requires forall e | e in h :: e.Event?
  {
    h == [] || (Lawful(h[..|h| - 1]) && Continues(h[..|h| - 1], h[|h| - 1]))
  }

  function SinceAdd(h: seq<Entry>): nat
    requires forall e | e in h :: e.Event?
  {
    if h == [] || h[|h| - 1].action.Added? then 0 else 1 + SinceAdd(h[..|h| - 1])
  }

  /** The event at a place of a lawful history continues what is before it. */
  lemma {:induction false} LawfulAt(h: seq<Entry>, i: nat)
    requires (forall e | e in h :: e.Event?) && Lawful(h) && i < |h|
    ensures Continues(h[..i], h[i])
    decreases |h|
  {
    hide Continues;
    if i < |h| - 1 {
      LawfulAt(h[..|h| - 1], i);
      assert h[..|h| - 1][..i] == h[..i];
    }
  }

  lemma {:induction false} RevisionAt(h: seq<Entry>)
    requires (forall e | e in h :: e.Event?) && Lawful(h) && h != []
    ensures h[|h| - 1].revision == 1 + SinceAdd(h)
  {
    if !h[|h| - 1].action.Added? {
      RevisionAt(h[..|h| - 1]);
    }
  }

  lemma {:induction false} LawfulPrefix(h: seq<Entry>, i: nat)
    requires (forall e | e in h :: e.Event?) && Lawful(h) && i <= |h|
    ensures Lawful(h[..i])
    decreases |h|
  {
    hide Continues;
    if i < |h| {
      LawfulPrefix(h[..|h| - 1], i);
      assert h[..|h| - 1][..i] == h[..i];
    } else {
      assert h[..i] == h;
    }
  }

  /** A lawful history is a run of add (update)* delete cycles, each event takes up the content the
      one before it left, and each revision is one more than the events since the last add. */
  lemma LawfulMeans(h: seq<Entry>)
    requires (forall e | e in h :: e.Event?) && Lawful(h)
    ensures h != [] ==> h[0].action.Added? && h[0].previous == ""
    ensures forall i :: 0 < i < |h| ==> (h[i].action.Added? <==> h[i - 1].action.Deleted?) && h[i].previous == h[i - 1].next
    ensures forall i :: 0 <= i < |h| ==>
      (h[i].next == "" <==> h[i].action.Deleted?) && h[i].revision == 1 + SinceAdd(h[..i + 1])
  {
    hide Lawful, SinceAdd;
    if h != [] {
      LawfulAt(h, 0);
    }
    forall i | 0 < i < |h|
      ensures (h[i].action.Added? <==> h[i - 1].action.Deleted?) && h[i].previous == h[i - 1].next
    {
      LawfulAt(h, i);
      assert h[..i][i - 1] == h[i - 1];
    }
    forall i | 0 <= i < |h|
      ensures (h[i].next == "" <==> h[i].action.Deleted?) && h[i].revision == 1 + SinceAdd(h[..i + 1])
    {
      LawfulAt(h, i);
      LawfulPrefix(h, i + 1);
      RevisionAt(h[..i + 1]);
    }
  }

  /** The row holds what the memory's last event left. */
  predicate Reflects(cfg: Config, row: Row, k: Key, e: Entry)
    requires e.Event?
  {
    && row.revision == e.revision && row.deleted == e.action.Deleted?
    && var env := cfg.decode(row.value);
      env.Some? && Shows(env.value, k, e)
  }

  predicate Shows(env: Envelope, k: Key, e: Entry)
    requires e.Event?
  {
    && env.id == k.name && env.user == k.peer
    && env.agent == e.agent && env.run == e.run && env.session == e.session && Entries(env.metadata) == e.metadata
    && (!e.action.Deleted? ==> env.content == e.next)
  }

  /** The slot and the history of one memory agree. */
  predicate InStep(cfg: Config, st: State, k: Key) {
    var h := EventsOf(st.log, k);
    && Lawful(h)
    && (k in st.slots <==> h != [])
    && (h != [] ==> Reflects(cfg, st.slots[k], k, h[|h| - 1]))
  }

  // ----- What is assumed of the codec and the log -----

  /** Empty metadata is left out of the encoding, so it comes back absent. */
  function Settled(env: Envelope): Envelope {
    if env.metadata == Some(map[]) then env.(metadata := None) else env
  }

  ghost predicate CodecFaithful(cfg: Config) {
    forall env :: TrimSpace(cfg.encode(env)) == cfg.encode(env) != "" && cfg.decode(cfg.encode(env)) == Some(Settled(env))
  }

  predicate Touches(e: Entry, k: Key) {
    e.profile == k.profile && e.peer == k.peer && e.name == k.name
  }

  /** Entries of the memory are stored as they are, and no other entry turns into one of them. */
  ghost predicate LogFaithful(cfg: Config, k: Key) {
    forall e :: if Touches(e, k) then cfg.stores(e) == Some(e)
                else cfg.stores(e).Some? ==> !Touches(cfg.stores(e).value, k)
  }

  // ----- One step -----

  datatype Op =
    | AddOp(r: Request)
    | UpdateOp(r: Request)
    | DeleteOp(r: Request)
    | SlotCreate(p: SlotParams)
    | SlotAppend(p: SlotParams)
    | SlotReplace(p: SlotParams)
    | SlotDelete(k: Key)

  datatype Call = Call(op: Op, now: int)

  function Step(cfg: Config, st: State, c: Call): State {
    match c.op
    case AddOp(r) => AddMemory(cfg, st, r, c.now).0
    case UpdateOp(r) => UpdateMemory(cfg, st, r, c.now).0
    case DeleteOp(r) => DeleteMemory(cfg, st, r, c.now).0
    case SlotCreate(p) => CreateSlot(cfg, st, p, c.now).0
    case SlotAppend(p) => AppendSlot(cfg, st, p, c.now).0
    case SlotReplace(p) => ReplaceSlot(cfg, st, p, c.now).0
    case SlotDelete(k) => DeleteSlot(cfg, st, k, c.now).0
  }

  function Run(cfg: Config, calls: seq<Call>): State {
    if calls == [] then State(map[], []) else Step(cfg, Run(cfg, calls[..|calls| - 1]), calls[|calls| - 1])
  }

  predicate ByFacade(op: Op) {
    op.AddOp? || op.UpdateOp? || op.DeleteOp?
  }

  /** The slot an operation names. */
  function Target(cfg: Config, op: Op): Key {
    match op
    case AddOp(r) => FacadeKey(cfg, r)
    case UpdateOp(r) => FacadeKey(cfg, r)
    case DeleteOp(r) => FacadeKey(cfg, r)
    case SlotCreate(p) => ParamsKey(cfg, p)
    case SlotAppend(p) => ParamsKey(cfg, p)
    case SlotReplace(p) => ParamsKey(cfg, p)
    case SlotDelete(k) => k
  }

  lemma {:induction false} EventsOfMore(log: seq<Entry>, e: Entry, k: Key)
    ensures EventsOf(log + [e], k) == EventsOf(log, k) + (if About(e, k) then [e] else [])
  {
    assert (log + [e])[..|log|] == log;
  }

  /** An observation reaches the memory's history exactly when it is an event of it and the
      workspace is not "*". */
  lemma ObservedEvents(cfg: Config, log: seq<Entry>, e: Entry, k: Key)
    requires LogFaithful(cfg, k) && (e.Event? ==> TrimSpace(e.workspace) == e.workspace != "")
    ensures var after := Observed(cfg, log, e);
      && EventsOf(if after.Some? then after.value else log, k)
         == EventsOf(log, k) + (if About(e, k) && k.workspace != "*" then [e] else [])
      && (Touches(e, k) && TrimSpace(e.workspace) != "*" ==> after.Some?)
  {
    hide EventsOf;
    var named := Placed(cfg, e);
    if cfg.stores(named).Some? {
      EventsOfMore(log, cfg.stores(named).value, k);
    }
  }

  /** The slots a facade call can name. */
  predicate IsFacadeKey(k: Key) {
    && TrimSpace(k.workspace) == k.workspace && TrimSpace(k.profile) == k.profile
    && TrimSpace(k.peer) == k.peer && TrimSpace(k.name) == k.name
    && k.scope == (if k.profile != "" then "profile" else "workspace")
  }

  lemma ScopeStays(cfg: Config, scope: string, profile: string)
    requires scope == "profile" || scope == "workspace"
    ensures MemoryScope(cfg, scope, profile) == scope
  {
    TrimFuncTight(scope, IsSpace);
    assert Lower(cfg, scope) == scope;
  }

  lemma ScopeDefault(cfg: Config, profile: string)
    ensures MemoryScope(cfg, "", profile) == if TrimSpace(profile) != "" then "profile" else "workspace"
  {
    TrimFuncTight("", IsSpace);
    assert Lower(cfg, "") == "";
  }

  lemma FacadeKeyIs(cfg: Config, r: Request)
    ensures IsFacadeKey(FacadeKey(cfg, r))
    ensures var k := FacadeKey(cfg, r); k.peer == TrimSpace(r.user) && k.name == TrimSpace(r.id)
    ensures forall env: Envelope | env.id == TrimSpace(r.id) && env.user == TrimSpace(r.user) ::
      ParamsKey(cfg, FacadeSlot(cfg, r, env)) == FacadeKey(cfg, r)
  {
    TrimSpaceIdempotent(r.workspace);
    TrimSpaceIdempotent(cfg.workspace);
    TrimSpaceIdempotent(r.profile);
    TrimSpaceIdempotent(r.user);
    TrimSpaceIdempotent(r.id);
    ScopeDefault(cfg, r.profile);
    ScopeStays(cfg, MemoryScope(cfg, "", r.profile), TrimSpace(r.profile));
    hide TrimSpace, MemoryScope;
  }

  /** The memory's slot and history are as they were. */
  predicate Untouched(st: State, st': State, k: Key) {
    && (k in st'.slots <==> k in st.slots) && (k in st.slots ==> st'.slots[k] == st.slots[k])
    && EventsOf(st'.log, k) == EventsOf(st.log, k)
  }

  lemma StoreEffect(cfg: Config, st: State, k: Key, row: Row, action: SlotAction, j: Key)
    requires LogFaithful(cfg, j)
    ensures var (st', r) := Store(cfg, st, k, row, action);
      && st'.slots == Upsert(st.slots, k, row)
      && EventsOf(st'.log, j) == EventsOf(st.log, j)
      && (j == k ==> r == Ok(MemorySlot(k, row)))
      && (r.Ok? ==> r.value == MemorySlot(k, row))
      && (j != k ==> Untouched(st, st', j))
  {
    TrimFuncTight("", IsSpace);
    var e := Audit("", k.profile, k.peer, k.scope, k.name, action, row.kind, row.revision);
    ObservedEvents(cfg, st.log, e, j);
    hide EventsOf, Observed, LogFaithful, TrimSpace;
  }

  lemma RecordEffect(cfg: Config, st: State, action: Action, item: Item, previous: string, next: string,
                     metadata: Option<Metadata>, j: Key)
    requires LogFaithful(cfg, j) && TrimSpace(item.workspace) == item.workspace != ""
    ensures var st' := Record(cfg, st, action, item, previous, next, metadata).0;
      var e := Event(item.workspace, item.profile, item.env.user, item.env.id, action, item.env.agent, item.env.run,
                     item.env.session, previous, next, Entries(metadata), item.revision);
      && st'.slots == st.slots
      && EventsOf(st'.log, j) == EventsOf(st.log, j) + (if About(e, j) && j.workspace != "*" then [e] else [])
  {
    var e := Event(item.workspace, item.profile, item.env.user, item.env.id, action, item.env.agent, item.env.run,
                   item.env.session, previous, next, Entries(metadata), item.revision);
    ObservedEvents(cfg, st.log, e, j);
    hide EventsOf, Observed, LogFaithful, TrimSpace, About;
  }

  /** The row's value encodes a memory of this very slot. */
  predicate OwnedAt(cfg: Config, slots: map<Key, Row>, k: Key)
    requires k in slots
  {
    var env := cfg.decode(slots[k].value);
    env.Some? && env.value.id == k.name && env.value.user == k.peer && Neat(cfg, env.value)
  }

  /** What facade calls leave in an envelope: trimmed parts, an agent unless the service has none
      either, and no empty metadata. */
  predicate Neat(cfg: Config, env: Envelope) {
    && Trimmed(env.agent) && Trimmed(env.run) && Trimmed(env.session)
    && (env.agent == "" ==> TrimSpace(cfg.observer) == "") && env.metadata != Some(map[])
  }

  lemma {:induction false} FirstNonBlankTrimmed(values: seq<string>)
    ensures Trimmed(FirstNonBlank(values))
    ensures FirstNonBlank(values) == "" <==> forall v | v in values :: TrimSpace(v) == ""
  {
    if values == [] {
      TrimFuncTight("", IsSpace);
    } else {
      TrimSpaceIdempotent(values[0]);
      FirstNonBlankTrimmed(values[1..]);
      assert values == [values[0]] + values[1..];
    }
  }

  lemma EnvelopesAreNeat(cfg: Config, r: Request, was: Envelope)
    ensures Neat(cfg, Settled(AddEnvelope(cfg, r))) && Neat(cfg, Settled(UpdateEnvelope(cfg, r, was)))
  {
    FirstNonBlankTrimmed([r.agent, cfg.observer]);
    FirstNonBlankTrimmed([r.run, r.session]);
    FirstNonBlankTrimmed([r.session, r.run]);
    FirstNonBlankTrimmed([r.agent, was.agent, cfg.observer]);
    FirstNonBlankTrimmed([r.run, r.session, was.run]);
    FirstNonBlankTrimmed([r.session, r.run, was.session]);
    hide TrimSpace, FirstNonBlank;
    assert cfg.observer in [r.agent, cfg.observer] && cfg.observer in [r.agent, was.agent, cfg.observer];
  }

  ghost predicate Owned(cfg: Config, slots: map<Key, Row>) {
    forall k | k in slots && IsFacadeKey(k) :: OwnedAt(cfg, slots, k)
  }

  /** The memory's slot was written and, unless its workspace is "*", its history grew by the event. */
  predicate Wrote(st: State, st': State, k: Key, value: string, e: Entry) {
    && e.Event? && About(e, k) && k in st'.slots
    && st'.slots[k].value == value && st'.slots[k].revision == e.revision && st'.slots[k].deleted == e.action.Deleted?
    && EventsOf(st'.log, k) == EventsOf(st.log, k) + (if k.workspace != "*" then [e] else [])
  }

  function EventFor(k: Key, action: Action, env: Envelope, previous: string, next: string, revision: int): Entry {
    Event(k.workspace, k.profile, k.peer, k.name, action, env.agent, env.run, env.session, previous, next,
          Entries(env.metadata), revision)
  }

  /** How every facade call that writes ends: the row is stored, then the event recorded. */
  function StoreAndRecord(cfg: Config, st: State, k: Key, row: Row, slotAction: SlotAction, action: Action,
                          item: Item, previous: string, next: string): State
  {
    var (stored, slot) := Store(cfg, st, k, row, slotAction);
    if slot.Err? then stored else Record(cfg, stored, action, item, previous, next, item.env.metadata).0
  }

  /** It changes no other memory and no other history. */
  lemma WriteEffect(cfg: Config, st: State, k: Key, row: Row, slotAction: SlotAction, action: Action,
                    item: Item, previous: string, next: string, j: Key)
    requires LogFaithful(cfg, j) && IsFacadeKey(j) && IsFacadeKey(k) && k.workspace != ""
    requires item.workspace == k.workspace && item.profile == k.profile && item.env.user == k.peer && item.env.id == k.name
    requires item.revision == row.revision && row.deleted == action.Deleted?
    ensures var st' := StoreAndRecord(cfg, st, k, row, slotAction, action, item, previous, next);
      if j == k then Wrote(st, st', k, row.value, EventFor(k, action, item.env, previous, next, row.revision))
      else Untouched(st, st', j)
  {
    hide StoreAndRecord, EventsOf, LogFaithful, TrimSpace, IsFacadeKey;
    WriteEvents(cfg, st, k, row, slotAction, action, item, previous, next, j);
    WriteSlots(cfg, st, k, row, slotAction, action, item, previous, next);
  }

  /** A write adds its event to the memory's history, unless the workspace is "*", and to no other. */
  lemma WriteEvents(cfg: Config, st: State, k: Key, row: Row, slotAction: SlotAction, action: Action,
                    item: Item, previous: string, next: string, j: Key)
    requires LogFaithful(cfg, j) && IsFacadeKey(j) && IsFacadeKey(k) && k.workspace != ""
    requires item.workspace == k.workspace && item.profile == k.profile && item.env.user == k.peer && item.env.id == k.name
    requires item.revision == row.revision
    ensures EventsOf(StoreAndRecord(cfg, st, k, row, slotAction, action, item, previous, next).log, j) ==
      EventsOf(st.log, j) +
      (if j == k && k.workspace != "*" then [EventFor(k, action, item.env, previous, next, row.revision)] else [])
  {
    OneAddress(j, k, EventFor(k, action, item.env, previous, next, row.revision));
    FacadeKeyTrimmed(k);
    StoreGives(cfg, st, k, row, slotAction);
    hide Store, Record, EventsOf, LogFaithful, TrimSpace, IsFacadeKey, About, Upsert, Untouched;
    StoreEffect(cfg, st, k, row, slotAction, j);
    RecordEffect(cfg, Store(cfg, st, k, row, slotAction).0, action, item, previous, next, item.env.metadata, j);
  }

  lemma FacadeKeyTrimmed(k: Key)
    requires IsFacadeKey(k)
    ensures TrimSpace(k.workspace) == k.workspace
  {
  }

  lemma OneAddress(j: Key, k: Key, e: Entry)
    requires IsFacadeKey(j) && IsFacadeKey(k) && e.Event?
    requires e.workspace == k.workspace && e.profile == k.profile && e.peer == k.peer && e.name == k.name
    ensures About(e, k) && (About(e, j) <==> j == k)
  {
    hide TrimSpace;
  }

  lemma FacadeSlotIs(cfg: Config, r: Request, env: Envelope)
    requires CodecFaithful(cfg) && env.id == TrimSpace(r.id) && env.user == TrimSpace(r.user)
    ensures var p := FacadeSlot(cfg, r, env);
      ParamsKey(cfg, p) == FacadeKey(cfg, r) && TrimSpace(p.value) == cfg.encode(env) != "" && Kind(p) == "mem0_facade"
  {
    FacadeKeyIs(cfg, r);
    TrimFuncTight("mem0_facade", IsSpace);
    assert TrimSpace("mem0_facade") == "mem0_facade";
    hide TrimSpace, FacadeKey, ParamsKey, IsFacadeKey;
    assert cfg.encode(env) == TrimSpace(cfg.encode(env));
  }

  function AddedRow(cfg: Config, st: State, r: Request, now: int): Row {
    var k := FacadeKey(cfg, r);
    Row("mem0_facade", cfg.encode(AddEnvelope(cfg, r)), 1, false,
        if k in st.slots && st.slots[k].createdAt > 0 then st.slots[k].createdAt else now, now)
  }

  lemma AddIs(cfg: Config, st: State, r: Request, now: int)
    requires CodecFaithful(cfg)
    ensures var (k, env, row) := (FacadeKey(cfg, r), AddEnvelope(cfg, r), AddedRow(cfg, st, r, now));
      AddMemory(cfg, st, r, now).0 ==
        if Sayable(env) && Usable(k) && !Live(st.slots, k)
        then StoreAndRecord(cfg, st, k, row, Created, Added, ItemOf(MemorySlot(k, row), env), "", env.content)
        else st
  {
    FacadeSlotIs(cfg, r, AddEnvelope(cfg, r));
    hide TrimSpace, FirstNonBlank, CodecFaithful, FacadeKey, ParamsKey, Observed, Kind, FacadeSlot, Upsert;
  }

  ghost predicate AddWrote(cfg: Config, st: State, st': State, k: Key, r: Request) {
    var env := AddEnvelope(cfg, r);
    !Live(st.slots, k) && Sayable(env) && Wrote(st, st', k, cfg.encode(env), EventFor(k, Added, env, "", env.content, 1))
  }

  /** A facade call changes no other memory; its own memory it leaves as it was or writes. */
  lemma AddEffect(cfg: Config, st: State, r: Request, now: int, j: Key)
    requires LogFaithful(cfg, j) && CodecFaithful(cfg) && IsFacadeKey(j)
    ensures var (k, st') := (FacadeKey(cfg, r), AddMemory(cfg, st, r, now).0);
      Untouched(st, st', j) || (j == k && AddWrote(cfg, st, st', k, r))
  {
    var (k, env, row) := (FacadeKey(cfg, r), AddEnvelope(cfg, r), AddedRow(cfg, st, r, now));
    FacadeKeyIs(cfg, r);
    AddIs(cfg, st, r, now);
    hide AddMemory, StoreAndRecord, Wrote, Untouched, IsFacadeKey, FacadeKey, LogFaithful, CodecFaithful,
      TrimSpace, FirstNonBlank, EventFor;
    if Sayable(env) && Usable(k) && !Live(st.slots, k) {
      WriteEffect(cfg, st, k, row, Created, Added, ItemOf(MemorySlot(k, row), env), "", env.content, j);
    } else {
      Same(st, j);
    }
  }

  lemma Same(st: State, k: Key)
    ensures Untouched(st, st, k)
  {
  }

  // Updates and deletes first read the memory.

  lemma ReadIs(cfg: Config, st: State, r: Request)
    requires Owned(cfg, st.slots)
    ensures var (k, was) := (FacadeKey(cfg, r), GetMemory(cfg, st, r));
      if !Usable(k) then was == Err(Invalid)
      else if !Live(st.slots, k) then was == Err(MemoryMissing)
      else was.Ok? && cfg.decode(st.slots[k].value) == Some(was.value.env)
           && was.value == ItemOf(MemorySlot(k, st.slots[k]), was.value.env)
           && was.value.env.id == k.name && was.value.env.user == k.peer && Neat(cfg, was.value.env)
  {
    FacadeKeyIs(cfg, r);
    hide TrimSpace, IsFacadeKey, FacadeKey, Neat;
  }

  function UpdatedRow(st: State, k: Key, value: string, now: int): Row
    requires k in st.slots
  {
    st.slots[k].(value := value, kind := "mem0_facade", revision := st.slots[k].revision + 1, updatedAt := now)
  }

  lemma ReplaceIs(cfg: Config, st: State, r: Request, env: Envelope, now: int)
    requires CodecFaithful(cfg) && env.id == TrimSpace(r.id) && env.user == TrimSpace(r.user)
    requires Usable(FacadeKey(cfg, r)) && Live(st.slots, FacadeKey(cfg, r))
    ensures var k := FacadeKey(cfg, r);
      ReplaceSlot(cfg, st, FacadeSlot(cfg, r, env), now) == Store(cfg, st, k, UpdatedRow(st, k, cfg.encode(env), now), Replaced)
  {
    FacadeSlotIs(cfg, r, env);
    hide TrimSpace, CodecFaithful, FacadeKey, ParamsKey, Kind, FacadeSlot, Store, Usable;
  }

  /** A missing memory is left missing. */
  lemma NothingToChange(cfg: Config, st: State, r: Request, now: int)
    requires Owned(cfg, st.slots) && !(Usable(FacadeKey(cfg, r)) && Live(st.slots, FacadeKey(cfg, r)))
    ensures UpdateMemory(cfg, st, r, now).0 == st && DeleteMemory(cfg, st, r, now).0 == st
  {
    ReadIs(cfg, st, r);
    hide TrimSpace, FacadeKey, GetMemory, Owned, Store, Record, FirstNonBlank, ReplaceSlot, DeleteSlot;
  }

  lemma UpdateIs(cfg: Config, st: State, r: Request, was: Item, now: int)
    requires CodecFaithful(cfg) && GetMemory(cfg, st, r) == Ok(was)
    requires Usable(FacadeKey(cfg, r)) && Live(st.slots, FacadeKey(cfg, r))
    ensures var k := FacadeKey(cfg, r);
      var env := UpdateEnvelope(cfg, r, was.env);
      var row := UpdatedRow(st, k, cfg.encode(env), now);
      UpdateMemory(cfg, st, r, now).0 ==
        if Sayable(env)
        then StoreAndRecord(cfg, st, k, row, Replaced, Updated, ItemOf(MemorySlot(k, row), env), was.env.content, env.content)
        else st
  {
    var env := UpdateEnvelope(cfg, r, was.env);
    ReplaceIs(cfg, st, r, env, now);
    StoreGives(cfg, st, FacadeKey(cfg, r), UpdatedRow(st, FacadeKey(cfg, r), cfg.encode(env), now), Replaced);
    hide TrimSpace, FirstNonBlank, CodecFaithful, FacadeKey, FacadeSlot, GetMemory, Store, ReplaceSlot, Record,
      UpdatedRow;
  }

  lemma StoreGives(cfg: Config, st: State, k: Key, row: Row, action: SlotAction)
    ensures var r := Store(cfg, st, k, row, action).1; r.Ok? ==> r.value == MemorySlot(k, row)
  {
  }

  ghost predicate UpdateWrote(cfg: Config, st: State, st': State, k: Key, r: Request) {
    && Live(st.slots, k) && cfg.decode(st.slots[k].value).Some?
    && var was := cfg.decode(st.slots[k].value).value;
       var env := UpdateEnvelope(cfg, r, was);
       Sayable(env) && Wrote(st, st', k, cfg.encode(env),
         EventFor(k, Updated, env, was.content, env.content, st.slots[k].revision + 1))
  }

  lemma UpdateEffect(cfg: Config, st: State, r: Request, now: int, j: Key)
    requires LogFaithful(cfg, j) && CodecFaithful(cfg) && IsFacadeKey(j) && Owned(cfg, st.slots)
    ensures var (k, st') := (FacadeKey(cfg, r), UpdateMemory(cfg, st, r, now).0);
      Untouched(st, st', j) || (j == k && UpdateWrote(cfg, st, st', k, r))
  {
    hide UpdateMemory, StoreAndRecord, Wrote, Untouched, IsFacadeKey, FacadeKey, LogFaithful, CodecFaithful,
      TrimSpace, FirstNonBlank, EventFor, GetMemory, Owned;
    var k := FacadeKey(cfg, r);
    ReadIs(cfg, st, r);
    if Usable(k) && Live(st.slots, k) {
      var was := GetMemory(cfg, st, r).value;
      var env := UpdateEnvelope(cfg, r, was.env);
      var row := UpdatedRow(st, k, cfg.encode(env), now);
      UpdateIs(cfg, st, r, was, now);
      FacadeKeyIs(cfg, r);
      if Sayable(env) {
        WriteEffect(cfg, st, k, row, Replaced, Updated, ItemOf(MemorySlot(k, row), env), was.env.content, env.content, j);
      } else {
        Same(st, j);
      }
    } else {
      NothingToChange(cfg, st, r, now);
      Same(st, j);
    }
  }

  function DeletedRow(st: State, k: Key, now: int): Row
    requires k in st.slots
  {
    st.slots[k].(deleted := true, revision := st.slots[k].revision + 1, updatedAt := now)
  }

  lemma DeleteIs(cfg: Config, st: State, r: Request, was: Item, now: int)
    requires GetMemory(cfg, st, r) == Ok(was)
    requires Usable(FacadeKey(cfg, r)) && Live(st.slots, FacadeKey(cfg, r))
    ensures var k := FacadeKey(cfg, r);
      var row := DeletedRow(st, k, now);
      DeleteMemory(cfg, st, r, now).0 ==
        StoreAndRecord(cfg, st, k, row, Removed, Deleted,
                       was.(deleted := true, revision := row.revision, updatedAt := now), was.env.content, "")
  {
    hide TrimSpace, FacadeKey, Observed, Upsert, GetMemory;
  }

  ghost predicate DeleteWrote(cfg: Config, st: State, st': State, k: Key) {
    && Live(st.slots, k) && cfg.decode(st.slots[k].value).Some?
    && var was := cfg.decode(st.slots[k].value).value;
       Wrote(st, st', k, st.slots[k].value, EventFor(k, Deleted, was, was.content, "", st.slots[k].revision + 1))
  }

  lemma DeleteEffect(cfg: Config, st: State, r: Request, now: int, j: Key)
    requires LogFaithful(cfg, j) && IsFacadeKey(j) && Owned(cfg, st.slots)
    ensures var (k, st') := (FacadeKey(cfg, r), DeleteMemory(cfg, st, r, now).0);
      Untouched(st, st', j) || (j == k && DeleteWrote(cfg, st, st', k))
  {
    hide DeleteMemory, StoreAndRecord, Wrote, Untouched, IsFacadeKey, FacadeKey, LogFaithful, TrimSpace,
      EventFor, GetMemory, Owned;
    var k := FacadeKey(cfg, r);
    ReadIs(cfg, st, r);
    if Usable(k) && Live(st.slots, k) {
      var was := GetMemory(cfg, st, r).value;
      var row := DeletedRow(st, k, now);
      DeleteIs(cfg, st, r, was, now);
      FacadeKeyIs(cfg, r);
      WriteEffect(cfg, st, k, row, Removed, Deleted, was.(deleted := true, revision := row.revision, updatedAt := now),
                  was.env.content, "", j);
    } else {
      NothingToChange(cfg, st, r, now);
      Same(st, j);
    }
  }

  /** A direct slot operation writes no history, and no slot but its own. */
  lemma SlotEffect(cfg: Config, st: State, c: Call, j: Key)
    requires LogFaithful(cfg, j) && !ByFacade(c.op) && Target(cfg, c.op) != j
    ensures Untouched(st, Step(cfg, st, c), j)
  {
    var k := Target(cfg, c.op);
    Same(st, j);
    forall row, action ensures Untouched(st, Store(cfg, st, k, row, action).0, j) {
      StoreEffect(cfg, st, k, row, action, j);
    }
    hide Store, Untouched, LogFaithful, TrimSpace, Kind, ParamsKey;
  }

  // ----- The history follows the slot -----

  lemma Extend(cfg: Config, st: State, st': State, k: Key, value: string, e: Entry)
    requires InStep(cfg, st, k) && k.workspace != "*" && Wrote(st, st', k, value, e)
    requires Continues(EventsOf(st.log, k), e)
    requires cfg.decode(value).Some? && Shows(cfg.decode(value).value, k, e)
    ensures InStep(cfg, st', k)
  {
    hide EventsOf, Continues, Shows;
    var h := EventsOf(st.log, k);
    assert (h + [e])[..|h|] == h;
  }

  /** What is decoded from a written slot is what the event told. */
  lemma EncodedShows(cfg: Config, k: Key, action: Action, env: Envelope, previous: string, revision: int)
    requires CodecFaithful(cfg) && env.id == k.name && env.user == k.peer
    ensures var shown := cfg.decode(cfg.encode(env));
      shown.Some? && Shows(shown.value, k, EventFor(k, action, env, previous, env.content, revision))
  {
    assert cfg.decode(cfg.encode(env)) == Some(Settled(env));
  }

  lemma AddInStep(cfg: Config, st: State, st': State, k: Key, r: Request)
    requires CodecFaithful(cfg) && InStep(cfg, st, k) && k == FacadeKey(cfg, r) && k.workspace != "*"
    requires AddWrote(cfg, st, st', k, r)
    ensures InStep(cfg, st', k)
  {
    var env := AddEnvelope(cfg, r);
    FacadeKeyIs(cfg, r);
    EncodedShows(cfg, k, Added, env, "", 1);
    hide EventsOf, TrimSpace, FirstNonBlank, FacadeKey, IsFacadeKey, CodecFaithful, Lawful, MemoryScope;
    Extend(cfg, st, st', k, cfg.encode(env), EventFor(k, Added, env, "", env.content, 1));
  }

  lemma UpdateContinues(cfg: Config, st: State, k: Key, env: Envelope)
    requires InStep(cfg, st, k) && Live(st.slots, k) && env.content != ""
    ensures cfg.decode(st.slots[k].value).Some?
    ensures var was := cfg.decode(st.slots[k].value).value;
      Continues(EventsOf(st.log, k), EventFor(k, Updated, env, was.content, env.content, st.slots[k].revision + 1))
  {
    hide EventsOf, Lawful;
  }

  lemma UpdateInStep(cfg: Config, st: State, st': State, k: Key, env: Envelope)
    requires CodecFaithful(cfg) && InStep(cfg, st, k) && k.workspace != "*"
    requires Live(st.slots, k) && cfg.decode(st.slots[k].value).Some?
    requires env.id == k.name && env.user == k.peer && env.content != ""
    requires var was := cfg.decode(st.slots[k].value).value;
      Wrote(st, st', k, cfg.encode(env), EventFor(k, Updated, env, was.content, env.content, st.slots[k].revision + 1))
    ensures InStep(cfg, st', k)
  {
    var was := cfg.decode(st.slots[k].value).value;
    var e := EventFor(k, Updated, env, was.content, env.content, st.slots[k].revision + 1);
    hide *;
    EncodedShows(cfg, k, Updated, env, was.content, st.slots[k].revision + 1);
    UpdateContinues(cfg, st, k, env);
    Extend(cfg, st, st', k, cfg.encode(env), e);
  }

  lemma DeleteInStep(cfg: Config, st: State, st': State, k: Key)
    requires InStep(cfg, st, k) && k.workspace != "*" && DeleteWrote(cfg, st, st', k)
    ensures InStep(cfg, st', k)
  {
    var was := cfg.decode(st.slots[k].value).value;
    hide EventsOf, Lawful;
    Extend(cfg, st, st', k, st.slots[k].value, EventFor(k, Deleted, was, was.content, "", st.slots[k].revision + 1));
  }

  lemma UntouchedInStep(cfg: Config, st: State, st': State, k: Key)
    requires InStep(cfg, st, k) && Untouched(st, st', k)
    ensures InStep(cfg, st', k)
  {
    hide EventsOf, Lawful;
  }

  /** A call that may be made in a run: a facade call, or a slot operation outside the facade's slots. */
  predicate Admissible(cfg: Config, c: Call) {
    ByFacade(c.op) || !IsFacadeKey(Target(cfg, c.op))
  }

  /** What the steps and the runs below are about. */
  ghost predicate Setting(cfg: Config, k: Key) {
    CodecFaithful(cfg) && LogFaithful(cfg, k) && IsFacadeKey(k)
  }

  lemma AddStep(cfg: Config, st: State, r: Request, now: int, k: Key)
    requires Setting(cfg, k) && k.workspace != "*" && InStep(cfg, st, k)
    ensures InStep(cfg, AddMemory(cfg, st, r, now).0, k)
  {
    var st' := AddMemory(cfg, st, r, now).0;
    AddEffect(cfg, st, r, now, k);
    hide *;
    if Untouched(st, st', k) { UntouchedInStep(cfg, st, st', k); } else { AddInStep(cfg, st, st', k, r); }
  }

  lemma UpdatedInStep(cfg: Config, st: State, st': State, k: Key, r: Request)
    requires CodecFaithful(cfg) && InStep(cfg, st, k) && k.workspace != "*"
    requires k.peer == TrimSpace(r.user) && k.name == TrimSpace(r.id) && UpdateWrote(cfg, st, st', k, r)
    ensures InStep(cfg, st', k)
  {
    var env := UpdateEnvelope(cfg, r, cfg.decode(st.slots[k].value).value);
    assert env.content != "";
    hide *;
    UpdateInStep(cfg, st, st', k, env);
  }

  lemma UpdateStep(cfg: Config, st: State, r: Request, now: int, k: Key)
    requires Setting(cfg, k) && k.workspace != "*" && InStep(cfg, st, k) && Owned(cfg, st.slots)
    ensures InStep(cfg, UpdateMemory(cfg, st, r, now).0, k)
  {
    var st' := UpdateMemory(cfg, st, r, now).0;
    FacadeKeyIs(cfg, r);
    UpdateEffect(cfg, st, r, now, k);
    hide *;
    if Untouched(st, st', k) { UntouchedInStep(cfg, st, st', k); } else { UpdatedInStep(cfg, st, st', k, r); }
  }

  lemma DeleteStep(cfg: Config, st: State, r: Request, now: int, k: Key)
    requires Setting(cfg, k) && k.workspace != "*" && InStep(cfg, st, k) && Owned(cfg, st.slots)
    ensures InStep(cfg, DeleteMemory(cfg, st, r, now).0, k)
  {
    var st' := DeleteMemory(cfg, st, r, now).0;
    DeleteEffect(cfg, st, r, now, k);
    hide *;
    if Untouched(st, st', k) { UntouchedInStep(cfg, st, st', k); } else { DeleteInStep(cfg, st, st', k); }
  }

  lemma StepInStep(cfg: Config, st: State, c: Call, k: Key)
    requires Setting(cfg, k) && k.workspace != "*"
    requires Admissible(cfg, c) && Owned(cfg, st.slots) && InStep(cfg, st, k)
    ensures InStep(cfg, Step(cfg, st, c), k)
  {
    hide InStep, AddMemory, UpdateMemory, DeleteMemory, CreateSlot, AppendSlot, ReplaceSlot, DeleteSlot, Owned,
      LogFaithful, CodecFaithful;
    match c.op
    case AddOp(r) => AddStep(cfg, st, r, c.now, k);
    case UpdateOp(r) => UpdateStep(cfg, st, r, c.now, k);
    case DeleteOp(r) => DeleteStep(cfg, st, r, c.now, k);
    case _ =>
      SlotEffect(cfg, st, c, k);
      UntouchedInStep(cfg, st, Step(cfg, st, c), k);
  }

  // ----- Facade slots always hold facade memories -----

  lemma UpsertOwned(cfg: Config, slots: map<Key, Row>, k: Key, row: Row)
    requires Owned(cfg, slots)
    requires IsFacadeKey(k) ==>
      var env := cfg.decode(row.value);
      env.Some? && env.value.id == k.name && env.value.user == k.peer && Neat(cfg, env.value)
    ensures Owned(cfg, Upsert(slots, k, row))
  {
    hide IsFacadeKey;
    var slots' := Upsert(slots, k, row);
    forall j | j in slots' && IsFacadeKey(j) ensures OwnedAt(cfg, slots', j) {
      assert j != k ==> OwnedAt(cfg, slots, j);
    }
  }

  lemma WriteSlots(cfg: Config, st: State, k: Key, row: Row, slotAction: SlotAction, action: Action,
                   item: Item, previous: string, next: string)
    ensures StoreAndRecord(cfg, st, k, row, slotAction, action, item, previous, next).slots == Upsert(st.slots, k, row)
  {
    hide Observed, Upsert;
  }

  lemma EncodedOwned(cfg: Config, env: Envelope)
    requires CodecFaithful(cfg) && Neat(cfg, Settled(env))
    ensures var shown := cfg.decode(cfg.encode(env));
      shown.Some? && shown.value.id == env.id && shown.value.user == env.user && Neat(cfg, shown.value)
  {
    hide TrimSpace;
    assert cfg.decode(cfg.encode(env)) == Some(Settled(env));
  }

  lemma AddOwned(cfg: Config, st: State, r: Request, now: int)
    requires CodecFaithful(cfg) && Owned(cfg, st.slots)
    ensures Owned(cfg, AddMemory(cfg, st, r, now).0.slots)
  {
    var (k, env, row) := (FacadeKey(cfg, r), AddEnvelope(cfg, r), AddedRow(cfg, st, r, now));
    FacadeKeyIs(cfg, r);
    AddIs(cfg, st, r, now);
    EnvelopesAreNeat(cfg, r, env);
    EncodedOwned(cfg, env);
    WriteSlots(cfg, st, k, row, Created, Added, ItemOf(MemorySlot(k, row), env), "", env.content);
    UpsertOwned(cfg, st.slots, k, row);
    hide *;
  }

  lemma UpdateOwned(cfg: Config, st: State, r: Request, now: int)
    requires CodecFaithful(cfg) && Owned(cfg, st.slots)
    ensures Owned(cfg, UpdateMemory(cfg, st, r, now).0.slots)
  {
    hide UpdateMemory, GetMemory, StoreAndRecord, CodecFaithful, Owned, FacadeKey, IsFacadeKey, Upsert,
      TrimSpace, FirstNonBlank;
    var k := FacadeKey(cfg, r);
    FacadeKeyIs(cfg, r);
    ReadIs(cfg, st, r);
    if Usable(k) && Live(st.slots, k) {
      var was := GetMemory(cfg, st, r).value;
      var env := UpdateEnvelope(cfg, r, was.env);
      var row := UpdatedRow(st, k, cfg.encode(env), now);
      UpdateIs(cfg, st, r, was, now);
      EnvelopesAreNeat(cfg, r, was.env);
      EncodedOwned(cfg, env);
      WriteSlots(cfg, st, k, row, Replaced, Updated, ItemOf(MemorySlot(k, row), env), was.env.content, env.content);
      UpsertOwned(cfg, st.slots, k, row);
    } else {
      NothingToChange(cfg, st, r, now);
    }
  }

  lemma DeleteOwned(cfg: Config, st: State, r: Request, now: int)
    requires Owned(cfg, st.slots)
    ensures Owned(cfg, DeleteMemory(cfg, st, r, now).0.slots)
  {
    hide DeleteMemory, GetMemory, StoreAndRecord, Owned, FacadeKey, IsFacadeKey, Neat, Upsert, TrimSpace;
    var k := FacadeKey(cfg, r);
    FacadeKeyIs(cfg, r);
    ReadIs(cfg, st, r);
    if Usable(k) && Live(st.slots, k) {
      var was := GetMemory(cfg, st, r).value;
      var row := DeletedRow(st, k, now);
      DeleteIs(cfg, st, r, was, now);
      WriteSlots(cfg, st, k, row, Removed, Deleted, was.(deleted := true, revision := row.revision, updatedAt := now),
                 was.env.content, "");
      UpsertOwned(cfg, st.slots, k, row);
    } else {
      NothingToChange(cfg, st, r, now);
    }
  }

  predicate SameRow(slots: map<Key, Row>, slots': map<Key, Row>, k: Key) {
    (k in slots' <==> k in slots) && (k in slots ==> slots'[k] == slots[k])
  }

  lemma SlotElsewhere(cfg: Config, st: State, c: Call, j: Key)
    requires !ByFacade(c.op) && Target(cfg, c.op) != j
    ensures SameRow(st.slots, Step(cfg, st, c).slots, j)
  {
    var k := Target(cfg, c.op);
    forall row, action ensures SameRow(st.slots, Store(cfg, st, k, row, action).0.slots, j) {
      hide Observed;
    }
    assert SameRow(st.slots, st.slots, j);
    hide Store, SameRow, TrimSpace, Kind, ParamsKey, Usable, Live;
  }

  lemma SlotOwned(cfg: Config, st: State, c: Call)
    requires Owned(cfg, st.slots) && !ByFacade(c.op) && !IsFacadeKey(Target(cfg, c.op))
    ensures Owned(cfg, Step(cfg, st, c).slots)
  {
    hide Step, IsFacadeKey, Target;
    var st' := Step(cfg, st, c);
    forall j | j in st'.slots && IsFacadeKey(j) ensures OwnedAt(cfg, st'.slots, j) {
      SlotElsewhere(cfg, st, c, j);
      assert OwnedAt(cfg, st.slots, j);
    }
  }

  lemma StepOwned(cfg: Config, st: State, c: Call)
    requires CodecFaithful(cfg) && Admissible(cfg, c) && Owned(cfg, st.slots)
    ensures Owned(cfg, Step(cfg, st, c).slots)
  {
    hide AddMemory, UpdateMemory, DeleteMemory, CreateSlot, AppendSlot, ReplaceSlot, DeleteSlot, Owned, CodecFaithful;
    match c.op
    case AddOp(r) => AddOwned(cfg, st, r, c.now);
    case UpdateOp(r) => UpdateOwned(cfg, st, r, c.now);
    case DeleteOp(r) => DeleteOwned(cfg, st, r, c.now);
    case _ => SlotOwned(cfg, st, c);
  }

  // ----- Runs -----

  lemma {:induction false} RunOwned(cfg: Config, calls: seq<Call>)
    requires CodecFaithful(cfg) && forall c | c in calls :: Admissible(cfg, c)
    ensures Owned(cfg, Run(cfg, calls).slots)
  {
    hide Admissible, CodecFaithful, Step;
    if calls != [] {
      RunOwned(cfg, calls[..|calls| - 1]);
      StepOwned(cfg, Run(cfg, calls[..|calls| - 1]), calls[|calls| - 1]);
    }
  }

  lemma StarStep(cfg: Config, st: State, c: Call, k: Key)
    requires Setting(cfg, k) && k.workspace == "*" && Admissible(cfg, c) && Owned(cfg, st.slots)
    ensures EventsOf(Step(cfg, st, c).log, k) == EventsOf(st.log, k)
  {
    hide AddMemory, UpdateMemory, DeleteMemory, CreateSlot, AppendSlot, ReplaceSlot, DeleteSlot, Owned, LogFaithful,
      CodecFaithful, EventsOf, EventFor, UpdateEnvelope, AddEnvelope, FacadeKey;
    match c.op
    case AddOp(r) => AddEffect(cfg, st, r, c.now, k);
    case UpdateOp(r) => UpdateEffect(cfg, st, r, c.now, k);
    case DeleteOp(r) => DeleteEffect(cfg, st, r, c.now, k);
    case _ => SlotEffect(cfg, st, c, k);
  }

  lemma {:induction false} StarHasNoEvents(cfg: Config, calls: seq<Call>, k: Key)
    requires Setting(cfg, k) && k.workspace == "*" && forall c | c in calls :: Admissible(cfg, c)
    ensures EventsOf(Run(cfg, calls).log, k) == []
  {
    hide Admissible, CodecFaithful, LogFaithful, Step;
    if calls != [] {
      StarHasNoEvents(cfg, calls[..|calls| - 1], k);
      RunOwned(cfg, calls[..|calls| - 1]);
      StarStep(cfg, Run(cfg, calls[..|calls| - 1]), calls[|calls| - 1], k);
    }
  }

  lemma {:induction false} RunInStep(cfg: Config, calls: seq<Call>, k: Key)
    requires Setting(cfg, k) && k.workspace != "*" && forall c | c in calls :: Admissible(cfg, c)
    ensures InStep(cfg, Run(cfg, calls), k)
  {
    hide Admissible, CodecFaithful, LogFaithful, Step;
    if calls != [] {
      hide InStep;
      RunInStep(cfg, calls[..|calls| - 1], k);
      RunOwned(cfg, calls[..|calls| - 1]);
      StepInStep(cfg, Run(cfg, calls[..|calls| - 1]), calls[|calls| - 1], k);
    }
  }

  /** In every run the history of a memory is lawful and agrees with its slot, except that a memory
      of the workspace "*" has no history once it is written. */
  lemma HistoryReplays(cfg: Config, calls: seq<Call>, k: Key)
    requires Setting(cfg, k) && forall c | c in calls :: Admissible(cfg, c)
    ensures InStep(cfg, Run(cfg, calls), k) <==> k.workspace != "*" || k !in Run(cfg, calls).slots
  {
    if k.workspace == "*" {
      StarHasNoEvents(cfg, calls, k);
    } else {
      RunInStep(cfg, calls, k);
    }
    hide Admissible, Setting, Run, EventsOf;
  }

  /** What Get gives when the slot agrees with its history. */
  lemma InStepGet(cfg: Config, st: State, r: Request)
    requires var k := FacadeKey(cfg, r); Usable(k) && InStep(cfg, st, k)
    ensures var (h, got) := (EventsOf(st.log, FacadeKey(cfg, r)), GetMemory(cfg, st, r));
      if Alive(h)
      then got.Ok? && Shows(got.value.env, FacadeKey(cfg, r), h[|h| - 1]) && got.value.revision == h[|h| - 1].revision
           && !got.value.deleted
      else got == Err(MemoryMissing)
  {
    hide FacadeKey, Lawful, Shows, EventsOf;
  }

  /** In every run Get gives what the history folds to: the content, attribution and revision of the
      last event while the memory is alive, and otherwise nothing. */
  lemma GetFollowsHistory(cfg: Config, calls: seq<Call>, r: Request)
    requires forall c | c in calls :: Admissible(cfg, c)
    requires var k := FacadeKey(cfg, r); Setting(cfg, k) && Usable(k) && k.workspace != "*"
    ensures var (h, got) := (EventsOf(Run(cfg, calls).log, FacadeKey(cfg, r)), GetMemory(cfg, Run(cfg, calls), r));
      if Alive(h)
      then got.Ok? && Shows(got.value.env, FacadeKey(cfg, r), h[|h| - 1]) && got.value.env.content == LastContent(h)
           && got.value.revision == 1 + SinceAdd(h) && !got.value.deleted
      else got == Err(MemoryMissing)
  {
    hide Setting, Run, EventsOf, FacadeKey, SinceAdd, GetMemory, Lawful, Reflects, CodecFaithful, LogFaithful,
      Admissible, Usable;
    RunInStep(cfg, calls, FacadeKey(cfg, r));
    InStepGet(cfg, Run(cfg, calls), r);
    var h := EventsOf(Run(cfg, calls).log, FacadeKey(cfg, r));
    if h != [] {
      RevisionAt(h);
    }
  }

  /** The failing case: an add to the workspace "*" is refused, yet the memory is there. */
  lemma StarIsWrittenYetRefused(cfg: Config, st: State, r: Request, now: int)
    requires var k := FacadeKey(cfg, r); Setting(cfg, k) && k.workspace == "*" && !Live(st.slots, k)
    requires Sayable(AddEnvelope(cfg, r)) && Usable(FacadeKey(cfg, r))
    ensures var (st', reply) := AddMemory(cfg, st, r, now);
      && reply == Err(Unrecorded)
      && var got := GetMemory(cfg, st', r); got.Ok? && got.value.env.content == TrimSpace(r.content)
  {
    hide *;
    StarReply(cfg, st, r, now);
    StarShows(cfg, st, r, now);
    LiveIsRead(cfg, AddMemory(cfg, st, r, now).0, r, Settled(AddEnvelope(cfg, r)));
    SettledContent(cfg, r);
  }

  lemma SettledContent(cfg: Config, r: Request)
    ensures Settled(AddEnvelope(cfg, r)).content == TrimSpace(r.content)
  {
    hide TrimSpace, FirstNonBlank;
  }

  lemma StarShows(cfg: Config, st: State, r: Request, now: int)
    requires Setting(cfg, FacadeKey(cfg, r)) && Usable(FacadeKey(cfg, r)) && !Live(st.slots, FacadeKey(cfg, r))
    requires Sayable(AddEnvelope(cfg, r))
    ensures var (k, st') := (FacadeKey(cfg, r), AddMemory(cfg, st, r, now).0);
      Live(st'.slots, k) && cfg.decode(st'.slots[k].value) == Some(Settled(AddEnvelope(cfg, r)))
  {
    var (k, env, row) := (FacadeKey(cfg, r), AddEnvelope(cfg, r), AddedRow(cfg, st, r, now));
    assert cfg.decode(cfg.encode(env)) == Some(Settled(env));
    hide Setting, Usable;
    hide AddMemory, StoreAndRecord, FacadeKey, TrimSpace, FirstNonBlank, CodecFaithful, Settled, AddEnvelope;
    AddIs(cfg, st, r, now);
    WriteSlots(cfg, st, k, row, Created, Added, ItemOf(MemorySlot(k, row), env), "", env.content);
  }

  lemma LiveIsRead(cfg: Config, st: State, r: Request, env: Envelope)
    requires var k := FacadeKey(cfg, r); Usable(k) && Live(st.slots, k) && cfg.decode(st.slots[k].value) == Some(env)
    ensures var got := GetMemory(cfg, st, r); got.Ok? && got.value.env == env
  {
    hide FacadeKey, TrimSpace;
  }

  /** The slot is written and audited, and then the event is refused. */
  lemma StarReply(cfg: Config, st: State, r: Request, now: int)
    requires var k := FacadeKey(cfg, r); Setting(cfg, k) && k.workspace == "*" && !Live(st.slots, k)
    requires Sayable(AddEnvelope(cfg, r)) && Usable(FacadeKey(cfg, r))
    ensures AddMemory(cfg, st, r, now).1 == Err(Unrecorded)
  {
    var (k, env, row) := (FacadeKey(cfg, r), AddEnvelope(cfg, r), AddedRow(cfg, st, r, now));
    FacadeSlotIs(cfg, r, env);
    StoreEffect(cfg, st, k, row, Created, k);
    StarRefuses(cfg, Store(cfg, st, k, row, Created).0, ItemOf(MemorySlot(k, row), env), env);
    hide TrimSpace, FacadeKey, ParamsKey, IsFacadeKey, LogFaithful, CodecFaithful, Store, Record, FirstNonBlank,
      EventsOf, Kind, FacadeSlot, Untouched, Upsert;
  }

  lemma StarRefuses(cfg: Config, st: State, item: Item, env: Envelope)
    requires item.workspace == "*"
    ensures Record(cfg, st, Added, item, "", env.content, env.metadata).1 == Err(Unrecorded)
  {
    assert TrimSpace("*") == "*";
    hide TrimSpace;
  }

  // ----- Rows over time -----

  /** A row is left alone, or written now: a live one goes up by one revision, a missing or deleted
      one starts again at revision 1, and the creation time is that of the first creation. */
  predicate Advances(slots: map<Key, Row>, slots': map<Key, Row>, k: Key, now: int) {
    SameRow(slots, slots', k) || (
      && k in slots' && slots'[k].updatedAt == now
      && slots'[k].createdAt == (if k in slots then slots[k].createdAt else now)
      && if Live(slots, k) then slots'[k].revision == slots[k].revision + 1 else slots'[k].revision == 1 && !slots'[k].deleted)
  }

  lemma StoreAdvances(cfg: Config, st: State, k: Key, row: Row, action: SlotAction, now: int, j: Key)
    requires row.updatedAt == now && (k !in st.slots ==> row.createdAt == now)
    requires if Live(st.slots, k) then row.revision == st.slots[k].revision + 1 else row.revision == 1 && !row.deleted
    ensures Advances(st.slots, Store(cfg, st, k, row, action).0.slots, j, now)
  {
    hide Observed;
  }

  lemma SlotAdvances(cfg: Config, st: State, c: Call, j: Key)
    requires !ByFacade(c.op)
    ensures Advances(st.slots, Step(cfg, st, c).slots, j, c.now)
  {
    hide Store, Advances, TrimSpace, Kind, ParamsKey;
    SlotKeeps(st, j, c.now);
    match c.op
    case SlotCreate(p) => CreateAdvances(cfg, st, p, c.now, j);
    case SlotAppend(p) => AppendAdvances(cfg, st, p, c.now, j);
    case SlotReplace(p) => ReplaceAdvances(cfg, st, p, c.now, j);
    case SlotDelete(k) =>
      if Usable(k) && Live(st.slots, k) {
        StoreAdvances(cfg, st, k, DeletedRow(st, k, c.now), Removed, c.now, j);
      }
  }

  lemma CreateAdvances(cfg: Config, st: State, p: SlotParams, now: int, j: Key)
    ensures Advances(st.slots, CreateSlot(cfg, st, p, now).0.slots, j, now)
  {
    hide Store, Advances, TrimSpace, Kind, ParamsKey;
    var k := ParamsKey(cfg, p);
    SlotKeeps(st, j, now);
    if !Live(st.slots, k) {
      var since := if k in st.slots && st.slots[k].createdAt > 0 then st.slots[k].createdAt else now;
      StoreAdvances(cfg, st, k, Row(Kind(p), TrimSpace(p.value), 1, false, since, now), Created, now, j);
    }
  }

  lemma AppendAdvances(cfg: Config, st: State, p: SlotParams, now: int, j: Key)
    ensures Advances(st.slots, AppendSlot(cfg, st, p, now).0.slots, j, now)
  {
    hide Store, Advances, TrimSpace, Kind, ParamsKey;
    var (k, value) := (ParamsKey(cfg, p), TrimSpace(p.value));
    SlotKeeps(st, j, now);
    if Live(st.slots, k) {
      var row := st.slots[k];
      var longer := if TrimSpace(row.value) == "" then value else row.value + "\n" + value;
      StoreAdvances(cfg, st, k, row.(value := longer, kind := Kind(p), revision := row.revision + 1, updatedAt := now),
                    Appended, now, j);
    }
  }

  lemma ReplaceAdvances(cfg: Config, st: State, p: SlotParams, now: int, j: Key)
    ensures Advances(st.slots, ReplaceSlot(cfg, st, p, now).0.slots, j, now)
  {
    hide Store, Advances, TrimSpace, Kind, ParamsKey;
    var k := ParamsKey(cfg, p);
    SlotKeeps(st, j, now);
    if Live(st.slots, k) {
      var row := st.slots[k];
      var row' := row.(value := TrimSpace(p.value), kind := Kind(p), revision := row.revision + 1, updatedAt := now);
      StoreAdvances(cfg, st, k, row', Replaced, now, j);
    }
  }

  lemma FacadeAdvances(cfg: Config, st: State, c: Call, j: Key)
    requires ByFacade(c.op)
    ensures Advances(st.slots, Step(cfg, st, c).slots, j, c.now)
  {
    hide Advances, TrimSpace, Kind, ParamsKey, FacadeKey, Observed, CreateSlot, ReplaceSlot, DeleteSlot,
      GetMemory, FirstNonBlank;
    SlotKeeps(st, j, c.now);
    match c.op
    case AddOp(r) => SlotAdvances(cfg, st, Call(SlotCreate(FacadeSlot(cfg, r, AddEnvelope(cfg, r))), c.now), j);
    case UpdateOp(r) =>
      if GetMemory(cfg, st, r).Ok? {
        var env := UpdateEnvelope(cfg, r, GetMemory(cfg, st, r).value.env);
        SlotAdvances(cfg, st, Call(SlotReplace(FacadeSlot(cfg, r, env)), c.now), j);
      }
    case DeleteOp(r) => SlotAdvances(cfg, st, Call(SlotDelete(FacadeKey(cfg, r)), c.now), j);
  }

  lemma SlotKeeps(st: State, j: Key, now: int)
    ensures Advances(st.slots, st.slots, j, now)
  {
  }

  /** Every call, made through the facade or on a slot, only advances rows. */
  lemma StepAdvances(cfg: Config, st: State, c: Call, k: Key)
    ensures Advances(st.slots, Step(cfg, st, c).slots, k, c.now)
  {
    if ByFacade(c.op) {
      FacadeAdvances(cfg, st, c, k);
    } else {
      SlotAdvances(cfg, st, c, k);
    }
  }

  /** Once created, a slot has a row for good, with the creation time it got first. */
  lemma {:induction false} CreatedOnce(cfg: Config, calls: seq<Call>, n: nat, k: Key)
    requires n <= |calls| && k in Run(cfg, calls[..n]).slots
    ensures k in Run(cfg, calls).slots && Run(cfg, calls).slots[k].createdAt == Run(cfg, calls[..n]).slots[k].createdAt
    decreases |calls|
  {
    if n == |calls| {
      assert calls[..n] == calls;
    } else {
      var before := calls[..|calls| - 1];
      assert before[..n] == calls[..n];
      CreatedOnce(cfg, before, n, k);
      hide Step;
      StepAdvances(cfg, Run(cfg, before), calls[|calls| - 1], k);
    }
  }

  // ----- What the slot operations do to a value -----

  /** The lines that appends add to a value. */
  function Lines(texts: seq<string>): string {
    if texts == [] then "" else Lines(texts[..|texts| - 1]) + "\n" + TrimSpace(texts[|texts| - 1])
  }

  function Appends(cfg: Config, st: State, p: SlotParams, texts: seq<string>, now: int): State {
    if texts == [] then st
    else AppendSlot(cfg, Appends(cfg, st, p, texts[..|texts| - 1], now), p.(value := texts[|texts| - 1]), now).0
  }

  lemma LongerIsNotBlank(a: string, b: string)
    requires TrimSpace(a) != ""
    ensures TrimSpace(a + b) != ""
  {
    TrimSpaceBlank(a);
    TrimSpaceBlank(a + b);
    hide TrimSpace, IsSpace;
    var c :| c in a && !IsSpace(c);
    assert c in a + b;
  }

  /** Appending text after text to a live slot keeps what there was and adds one line and one
      revision for each. */
  lemma {:induction false} AppendsAddLines(cfg: Config, st: State, p: SlotParams, texts: seq<string>, now: int)
    requires var k := ParamsKey(cfg, p); Usable(k) && Live(st.slots, k) && TrimSpace(st.slots[k].value) != ""
    requires forall t | t in texts :: TrimSpace(t) != ""
    ensures var (k, st') := (ParamsKey(cfg, p), Appends(cfg, st, p, texts, now));
      && Live(st'.slots, k) && TrimSpace(st'.slots[k].value) != ""
      && st'.slots[k].value == st.slots[k].value + Lines(texts)
      && st'.slots[k].revision == st.slots[k].revision + |texts|
      && st'.slots[k].createdAt == st.slots[k].createdAt
  {
    hide TrimSpace, Observed, MemoryScope, Kind;
    if texts != [] {
      var (k, init, last) := (ParamsKey(cfg, p), texts[..|texts| - 1], texts[|texts| - 1]);
      AppendsAddLines(cfg, st, p, init, now);
      var row := Appends(cfg, st, p, init, now).slots[k];
      LongerIsNotBlank(row.value, "\n" + TrimSpace(last));
      assert row.value + ("\n" + TrimSpace(last)) == row.value + "\n" + TrimSpace(last);
      assert st.slots[k].value + Lines(init) + "\n" + TrimSpace(last) == st.slots[k].value + Lines(texts);
    }
  }

  /** An append or a replace that names no kind makes the slot a fact, whatever it was. */
  lemma UnnamedKindBecomesFact(cfg: Config, st: State, p: SlotParams, now: int)
    requires var k := ParamsKey(cfg, p); Usable(k) && Live(st.slots, k)
    requires TrimSpace(p.kind) == "" && TrimSpace(p.value) != ""
    ensures var k := ParamsKey(cfg, p);
      && AppendSlot(cfg, st, p, now).0.slots[k].kind == "fact"
      && ReplaceSlot(cfg, st, p, now).0.slots[k].kind == "fact"
  {
    hide TrimSpace, Observed, ParamsKey;
  }

  /** In every run, an update that names only new content keeps who said it, where, and the
      metadata: Get shows the memory as it was but for the content. */
  lemma UpdateKeepsTheRest(cfg: Config, calls: seq<Call>, r: Request, now: int)
    requires CodecFaithful(cfg) && forall c | c in calls :: Admissible(cfg, c)
    requires var k := FacadeKey(cfg, r); Usable(k) && Live(Run(cfg, calls).slots, k)
    requires TrimSpace(r.agent) == TrimSpace(r.run) == TrimSpace(r.session) == "" && r.metadata.None?
    requires TrimSpace(r.content) != ""
    ensures var (was, got) := (GetMemory(cfg, Run(cfg, calls), r),
                               GetMemory(cfg, UpdateMemory(cfg, Run(cfg, calls), r, now).0, r));
      was.Ok? && got.Ok? && got.value.env == was.value.env.(content := TrimSpace(r.content))
  {
    hide Admissible, Run, FacadeKey, GetMemory, UpdateMemory, CodecFaithful, Owned, TrimSpace;
    RunOwned(cfg, calls);
    UpdateKeepsParts(cfg, Run(cfg, calls), r, now);
  }

  lemma UpdateKeepsParts(cfg: Config, st: State, r: Request, now: int)
    requires CodecFaithful(cfg) && Owned(cfg, st.slots)
    requires var k := FacadeKey(cfg, r); Usable(k) && Live(st.slots, k)
    requires TrimSpace(r.agent) == TrimSpace(r.run) == TrimSpace(r.session) == "" && r.metadata.None?
    requires TrimSpace(r.content) != ""
    ensures var (was, got) := (GetMemory(cfg, st, r), GetMemory(cfg, UpdateMemory(cfg, st, r, now).0, r));
      was.Ok? && got.Ok? && got.value.env == was.value.env.(content := TrimSpace(r.content))
  {
    var k := FacadeKey(cfg, r);
    ReadIs(cfg, st, r);
    FacadeKeyIs(cfg, r);
    var was := GetMemory(cfg, st, r).value;
    UpdatedParts(cfg, r, was.env);
    var env := UpdateEnvelope(cfg, r, was.env);
    var row := UpdatedRow(st, k, cfg.encode(env), now);
    UpdateIs(cfg, st, r, was, now);
    WriteSlots(cfg, st, k, row, Replaced, Updated, ItemOf(MemorySlot(k, row), env), was.env.content, env.content);
    assert cfg.decode(cfg.encode(env)) == Some(Settled(env));
    hide TrimSpace, FirstNonBlank, UpdateEnvelope, UpdateMemory, StoreAndRecord, FacadeKey, CodecFaithful, Owned, IsFacadeKey;
  }

  lemma UpdatedParts(cfg: Config, r: Request, was: Envelope)
    requires TrimSpace(r.agent) == TrimSpace(r.run) == TrimSpace(r.session) == "" && r.metadata.None?
    requires was.id == TrimSpace(r.id) && was.user == TrimSpace(r.user) && Neat(cfg, was)
    ensures UpdateEnvelope(cfg, r, was) == was.(content := TrimSpace(r.content))
  {
    hide TrimSpace;
    SkipBlank(r.agent, [was.agent, cfg.observer]);
    FirstOrNothing(was.agent, [cfg.observer]);
    SkipBlank(r.run, [r.session, was.run]);
    SkipBlank(r.session, [was.run]);
    FirstOrNothing(was.run, []);
    SkipBlank(r.session, [r.run, was.session]);
    SkipBlank(r.run, [was.session]);
    FirstOrNothing(was.session, []);
    hide FirstNonBlank;
    assert [r.agent] + [was.agent, cfg.observer] == [r.agent, was.agent, cfg.observer];
    assert [was.agent] + [cfg.observer] == [was.agent, cfg.observer];
    assert [r.run] + [r.session, was.run] == [r.run, r.session, was.run] && [r.session] + [was.run] == [r.session, was.run];
    assert [r.session] + [r.run, was.session] == [r.session, r.run, was.session];
    assert [r.run] + [was.session] == [r.run, was.session];
    assert [was.run] + [] == [was.run] && [was.session] + [] == [was.session];
  }

  lemma SkipBlank(blank: string, rest: seq<string>)
    requires TrimSpace(blank) == ""
    ensures FirstNonBlank([blank] + rest) == FirstNonBlank(rest)
  {
    hide TrimSpace;
    assert ([blank] + rest)[1..] == rest;
  }

  /** A trimmed part comes first, unless everything is blank. */
  lemma FirstOrNothing(part: string, rest: seq<string>)
    requires Trimmed(part) && (part == "" ==> forall v | v in rest :: TrimSpace(v) == "")
    ensures FirstNonBlank([part] + rest) == part
  {
    hide TrimSpace;
    FirstNonBlankTrimmed([part] + rest);
    assert ([part] + rest)[0] == part;
  }

  // ----- Reading the history -----

  const LIST_CAP := 500
  const SCAN_LIMIT := 0x10_0000

  /** `ListObservations`: a blank part of the query does not filter, and the workspace "*" stands
      for a blank one; newest first; never more than the cap. */
  predicate Listed(cfg: Config, r: Request, e: Entry) {
    var w := TrimSpace(r.workspace);
    var workspace := if w == "*" then "" else if w == "" then TrimSpace(cfg.workspace) else w;
    && (workspace == "" || e.workspace == workspace)
    && (TrimSpace(r.profile) == "" || e.profile == TrimSpace(r.profile))
    && (TrimSpace(r.user) == "" || e.peer == TrimSpace(r.user))
  }

  function NewestFirst(log: seq<Entry>, keep: Entry -> bool): seq<Entry> {
    if log == [] then []
    else
      var (last, before) := (log[|log| - 1], NewestFirst(log[..|log| - 1], keep));
      if keep(last) then [last] + before else before
  }

  function Take<T>(s: seq<T>, n: nat): seq<T> {
    if |s| <= n then s else s[..n]
  }

  function ListObservations(cfg: Config, log: seq<Entry>, r: Request, limit: nat): seq<Entry> {
    Take(NewestFirst(log, e => Listed(cfg, r, e)), if limit == 0 then 50 else if limit > LIST_CAP then LIST_CAP else limit)
  }

  predicate Named(r: Request, e: Entry) {
    e.Event? && e.name == TrimSpace(r.id)
  }

  function Matching(list: seq<Entry>, r: Request): seq<Entry> {
    if list == [] then []
    else Matching(list[..|list| - 1], r) + (if Named(r, list[|list| - 1]) then [list[|list| - 1]] else [])
  }

  function HistoryLimit(limit: int): nat {
    if limit <= 0 then 50 else limit
  }

  /** `History`: the loop stops once it has enough events. */
  method History(svc: Service, r: Request, limit: int) returns (events: seq<Entry>)
    ensures events == Take(Matching(ListObservations(svc.cfg, svc.log, r, SCAN_LIMIT), r), HistoryLimit(limit))
  {
    var most := HistoryLimit(limit);
    var list := ListObservations(svc.cfg, svc.log, r, SCAN_LIMIT);
    hide ListObservations, TrimSpace, Matching, Named;
    NothingMatches(list, r);
    events := [];
    var i := 0;
    while i < |list|
      invariant i <= |list| && |events| < most
      invariant events == Matching(list[..i], r)
    {
      MatchingNext(list, i, r);
      if Named(r, list[i]) {
        events := events + [list[i]];
        if |events| >= most {
          MatchingGrows(list, i + 1, r);
          return;
        }
      }
      i := i + 1;
    }
    assert list[..i] == list;
  }

  lemma NothingMatches(list: seq<Entry>, r: Request)
    ensures Matching(list[..0], r) == []
  {
  }

  lemma MatchingNext(list: seq<Entry>, i: nat, r: Request)
    requires i < |list|
    ensures Matching(list[..i + 1], r) == Matching(list[..i], r) + (if Named(r, list[i]) then [list[i]] else [])
  {
    hide Named;
    assert list[..i + 1][..i] == list[..i];
  }

  lemma {:induction false} MatchingGrows(list: seq<Entry>, i: nat, r: Request)
    requires i <= |list|
    ensures Matching(list[..i], r) <= Matching(list, r)
    decreases |list|
  {
    if i == |list| {
      assert list[..i] == list;
    } else {
      MatchingGrows(list[..|list| - 1], i, r);
      assert list[..|list| - 1][..i] == list[..i];
    }
  }

  function Reversed(h: seq<Entry>): seq<Entry> {
    if h == [] then [] else [h[|h| - 1]] + Reversed(h[..|h| - 1])
  }

  lemma {:induction false} MatchingFirst(e: Entry, list: seq<Entry>, r: Request)
    ensures Matching([e] + list, r) == (if Named(r, e) then [e] else []) + Matching(list, r)
  {
    hide TrimSpace;
    if list == [] {
      assert [e] + list == [e] && [e][..0] == [];
    } else {
      MatchingFirst(e, list[..|list| - 1], r);
      assert ([e] + list)[..|list|] == [e] + list[..|list| - 1];
    }
  }

  /** The entries of a list that are about the memory. */
  function AboutIn(list: seq<Entry>, k: Key): seq<Entry> {
    if list == [] then []
    else
      var (init, last) := (list[..|list| - 1], list[|list| - 1]);
      AboutIn(init, k) + (if About(last, k) then [last] else [])
  }

  lemma {:induction false} AboutInMembers(list: seq<Entry>, k: Key)
    ensures forall e :: e in AboutIn(list, k) <==> e in list && About(e, k)
  {
    hide About;
    if list != [] {
      AboutInMembers(list[..|list| - 1], k);
      assert list == list[..|list| - 1] + [list[|list| - 1]];
    }
  }

  lemma {:induction false} AboutInJoins(a: seq<Entry>, b: seq<Entry>, k: Key)
    ensures AboutIn(a + b, k) == AboutIn(a, k) + AboutIn(b, k)
  {
    hide About;
    if b == [] {
      assert a + b == a;
    } else {
      AboutInJoins(a, b[..|b| - 1], k);
      assert (a + b)[..|a + b| - 1] == a + b[..|b| - 1];
    }
  }

  /** Everything about the memory is listed and carries its name. */
  lemma AboutIsListed(cfg: Config, r: Request, e: Entry)
    requires var k := FacadeKey(cfg, r); Usable(k) && k.workspace != "*"
    ensures About(e, FacadeKey(cfg, r)) ==> Listed(cfg, r, e) && Named(r, e)
  {
    hide TrimSpace, MemoryScope;
  }

  /** The memory's events are, newest first, what is about it in a listing that has all of them. */
  lemma {:induction false} ListingHoldsHistory(log: seq<Entry>, keep: Entry -> bool, k: Key)
    requires forall e :: About(e, k) ==> keep(e)
    ensures AboutIn(NewestFirst(log, keep), k) == Reversed(EventsOf(log, k))
  {
    hide About;
    if log != [] {
      var (before, e) := (log[..|log| - 1], log[|log| - 1]);
      ListingHoldsHistory(before, keep, k);
      AboutInMore(e, NewestFirst(before, keep), k);
      ReversedMore(EventsOf(before, k), e);
      hide Reversed, AboutIn;
    }
  }

  lemma ReversedMore(h: seq<Entry>, e: Entry)
    ensures Reversed(h + [e]) == [e] + Reversed(h)
  {
    assert (h + [e])[..|h|] == h;
  }

  lemma AboutInMore(e: Entry, list: seq<Entry>, k: Key)
    ensures AboutIn([e] + list, k) == (if About(e, k) then [e] else []) + AboutIn(list, k)
  {
    hide About;
    AboutInJoins([e], list, k);
    assert [e][..0] == [];
  }

  /** Filtering by name keeps what is about the memory, and nothing else exactly when nothing else
      has the name. */
  lemma {:induction false} MatchingOrAbout(cfg: Config, list: seq<Entry>, r: Request)
    requires var k := FacadeKey(cfg, r); Usable(k) && k.workspace != "*"
    ensures forall e :: e in Matching(list, r) <==> e in list && Named(r, e)
    ensures (forall e | e in list && Named(r, e) :: About(e, FacadeKey(cfg, r))) ==>
      Matching(list, r) == AboutIn(list, FacadeKey(cfg, r))
  {
    hide Named, About, FacadeKey, Listed, Usable;
    if list != [] {
      var (init, last) := (list[..|list| - 1], list[|list| - 1]);
      assert list == init + [last];
      MatchingOrAbout(cfg, init, r);
      AboutIsListed(cfg, r, last);
    }
  }

  /** A listing cut after `seen` gives the events of both parts exactly when what it shows under the
      name is the memory's, and what it cuts off is not. */
  lemma CutShowsAll(cfg: Config, seen: seq<Entry>, rest: seq<Entry>, r: Request)
    requires var k := FacadeKey(cfg, r); Usable(k) && k.workspace != "*"
    ensures var k := FacadeKey(cfg, r);
      Matching(seen, r) == AboutIn(seen, k) + AboutIn(rest, k) <==>
        (forall e | e in seen && Named(r, e) :: About(e, k)) && (forall e | e in rest :: !About(e, k))
  {
    hide Named, About, FacadeKey, Usable, Matching;
    var k := FacadeKey(cfg, r);
    MatchingOrAbout(cfg, seen, r);
    AboutInMembers(seen, k);
    AboutInMembers(rest, k);
    hide AboutIn;
    var (shown, own, cut) := (Matching(seen, r), AboutIn(seen, k), AboutIn(rest, k));
    if shown == own + cut {
      forall e | e in seen && Named(r, e) ensures About(e, k) {
        assert e in shown;
        assert e in own || e in cut;
      }
      assert |own| == |own| + |cut|;
      forall e | e in rest ensures !About(e, k) {
        assert e !in cut;
      }
    } else if forall e | e in rest :: !About(e, k) {
      NothingIn(rest, k);
    }
  }

  lemma {:induction false} NothingIn(list: seq<Entry>, k: Key)
    requires forall e | e in list :: !About(e, k)
    ensures AboutIn(list, k) == []
  {
    hide About;
    if list != [] {
      NothingIn(list[..|list| - 1], k);
    }
  }

  /** What History reads is the memory's history, newest first, exactly when no listed entry of its
      name is another memory's and no entry beyond the cap is the memory's. */
  lemma HistoryExactly(cfg: Config, log: seq<Entry>, r: Request)
    requires var k := FacadeKey(cfg, r); Usable(k) && k.workspace != "*"
    ensures var (k, all) := (FacadeKey(cfg, r), NewestFirst(log, e => Listed(cfg, r, e)));
      var seen := Take(all, LIST_CAP);
      Matching(ListObservations(cfg, log, r, SCAN_LIMIT), r) == Reversed(EventsOf(log, k)) <==>
        && (forall e | e in seen && Named(r, e) :: About(e, k))
        && (forall e | e in all[|seen|..] :: !About(e, k))
  {
    hide Named, About, FacadeKey, Listed, Usable, Matching, EventsOf, NewestFirst, Reversed, AboutIn;
    var (k, keep) := (FacadeKey(cfg, r), (e: Entry) => Listed(cfg, r, e));
    var all := NewestFirst(log, keep);
    var seen := Take(all, LIST_CAP);
    forall e ensures About(e, k) ==> keep(e) {
      AboutIsListed(cfg, r, e);
    }
    ListingHoldsHistory(log, keep, k);
    AboutInJoins(seen, all[|seen|..], k);
    assert all == seen + all[|seen|..];
    CutShowsAll(cfg, seen, all[|seen|..], r);
  }

  /** A request that names a profile gets the memory's own history, as long as the listing is not cut. */
  lemma HistoryIsTheMemorys(cfg: Config, log: seq<Entry>, r: Request)
    requires var k := FacadeKey(cfg, r); Usable(k) && k.profile != "" && k.workspace != "*"
    requires |NewestFirst(log, e => Listed(cfg, r, e))| <= LIST_CAP
    ensures Matching(ListObservations(cfg, log, r, SCAN_LIMIT), r) == Reversed(EventsOf(log, FacadeKey(cfg, r)))
  {
    HistoryExactly(cfg, log, r);
    hide TrimSpace, MemoryScope, Matching, EventsOf, Reversed, ListObservations;
    NewestAreKept(log, e => Listed(cfg, r, e));
  }

  lemma {:induction false} NewestAreKept(log: seq<Entry>, keep: Entry -> bool)
    ensures forall e :: e in NewestFirst(log, keep) ==> keep(e) && e in log
  {
    if log != [] {
      NewestAreKept(log[..|log| - 1], keep);
    }
  }

  /** A request without a profile also gets the events of other profiles' memories of the same name. */
  lemma HistoryMixesProfiles(cfg: Config, log: seq<Entry>, r: Request, e: Entry)
    requires Listed(cfg, r, e) && Named(r, e) && TrimSpace(r.profile) == "" && e.profile != ""
    ensures !About(e, FacadeKey(cfg, r))
    ensures var list := ListObservations(cfg, log + [e], r, SCAN_LIMIT); |Matching(list, r)| > 0 && Matching(list, r)[0] == e
  {
    var all := NewestFirst(log + [e], x => Listed(cfg, r, x));
    assert (log + [e])[..|log|] == log;
    var list := ListObservations(cfg, log + [e], r, SCAN_LIMIT);
    assert list == [e] + list[1..];
    MatchingFirst(e, list[1..], r);
  }

  lemma {:induction false} EventsHave(log: seq<Entry>, k: Key, i: nat)
    requires i < |log| && About(log[i], k)
    ensures log[i] in EventsOf(log, k)
    decreases |log|
  {
    if i < |log| - 1 {
      EventsHave(log[..|log| - 1], k, i);
    }
  }

  // ----- A history beyond the cap -----

  /** The observation table takes every entry as it is. */
  ghost predicate StoresAll(cfg: Config) {
    forall e :: cfg.stores(e) == Some(e)
  }

  /** A call that writes appends two entries, an audit and the event. */
  lemma WriteAppends(cfg: Config, st: State, k: Key, row: Row, slotAction: SlotAction, action: Action,
                     item: Item, previous: string, next: string) returns (audit: Entry)
    requires StoresAll(cfg) && TrimSpace(k.workspace) == k.workspace && k.workspace !in {"", "*"}
    requires item.workspace == k.workspace && item.profile == k.profile && item.env.user == k.peer && item.env.id == k.name
    requires item.revision == row.revision
    ensures audit.Audit?
    ensures StoreAndRecord(cfg, st, k, row, slotAction, action, item, previous, next).log ==
      st.log + [audit, EventFor(k, action, item.env, previous, next, row.revision)]
  {
    TrimFuncTight("", IsSpace);
    assert TrimSpace("") == "";
    hide TrimSpace;
    audit := Placed(cfg, Audit("", k.profile, k.peer, k.scope, k.name, slotAction, row.kind, row.revision));
    var e := EventFor(k, action, item.env, previous, next, row.revision);
    assert cfg.stores(audit) == Some(audit) && cfg.stores(e) == Some(e);
    assert st.log + [audit] + [e] == st.log + [audit, e];
  }

  /** Another memory of the same user, in the same place. */
  function Other(r: Request): Request {
    r.(id := TrimSpace(r.id) + "'")
  }

  lemma OtherIsUsable(cfg: Config, r: Request)
    requires Usable(FacadeKey(cfg, r))
    ensures FacadeKey(cfg, Other(r)) == FacadeKey(cfg, r).(name := TrimSpace(r.id) + "'")
    ensures Usable(FacadeKey(cfg, Other(r))) && TrimSpace(Other(r).id) == TrimSpace(r.id) + "'" != TrimSpace(r.id)
  {
    var id := TrimSpace(r.id);
    TrimFuncTight(r.id, IsSpace);
    TrimFuncTight(id + "'", IsSpace);
    assert (id + "'")[|id|] == '\'';
    hide MemoryScope;
  }

  /** Add the memory, add the other one, and update that n times. */
  function FillCalls(r: Request, n: nat): (calls: seq<Call>)
    ensures |calls| == n + 2 && forall c | c in calls :: ByFacade(c.op)
  {
    if n == 0 then [Call(AddOp(r), 0), Call(AddOp(Other(r)), 0)]
    else FillCalls(r, n - 1) + [Call(UpdateOp(Other(r)), 0)]
  }

  lemma {:induction false} NewestJoins(a: seq<Entry>, b: seq<Entry>, keep: Entry -> bool)
    ensures NewestFirst(a + b, keep) == NewestFirst(b, keep) + NewestFirst(a, keep)
  {
    if b == [] {
      assert a + b == a;
    } else {
      NewestJoins(a, b[..|b| - 1], keep);
      assert (a + b)[..|a + b| - 1] == a + b[..|b| - 1];
    }
  }

  /** What came after the memory's own entries: nothing of its name, and more than n entries listed. */
  ghost predicate Buries(cfg: Config, r: Request, after: seq<Entry>, n: nat) {
    (forall e | e in after :: !Named(r, e)) && |NewestFirst(after, e => Listed(cfg, r, e))| > n
  }

  lemma OtherIsFiller(cfg: Config, r: Request, e: Entry)
    requires Usable(FacadeKey(cfg, r)) && FacadeKey(cfg, r).workspace != "*"
    requires About(e, FacadeKey(cfg, Other(r)))
    ensures Listed(cfg, r, e) && !Named(r, e)
  {
    OtherIsUsable(cfg, r);
    hide TrimSpace, FacadeKey, About, Usable;
    AboutIsListed(cfg, Other(r), e);
  }

  lemma BuriesMore(cfg: Config, r: Request, after: seq<Entry>, n: nat, audit: Entry, e: Entry)
    requires Usable(FacadeKey(cfg, r)) && FacadeKey(cfg, r).workspace != "*"
    requires audit.Audit? && About(e, FacadeKey(cfg, Other(r)))
    requires (forall x | x in after :: !Named(r, x)) && |NewestFirst(after, x => Listed(cfg, r, x))| >= n
    ensures Buries(cfg, r, after + [audit, e], n)
  {
    OtherIsFiller(cfg, r, e);
    hide Listed, TrimSpace, FacadeKey, About, Usable, NewestFirst;
    NoneNamed(r, after, audit, e);
    hide Named;
    KeepsOneMore(after, audit, e, x => Listed(cfg, r, x));
  }

  lemma NoneNamed(r: Request, log: seq<Entry>, a: Entry, e: Entry)
    requires (forall x | x in log :: !Named(r, x)) && a.Audit? && !Named(r, e)
    ensures forall x | x in log + [a, e] :: !Named(r, x)
  {
    hide TrimSpace;
  }

  lemma KeepsOneMore(log: seq<Entry>, a: Entry, e: Entry, keep: Entry -> bool)
    requires keep(e)
    ensures |NewestFirst(log + [a, e], keep)| > |NewestFirst(log, keep)|
  {
    NewestJoins(log, [a, e], keep);
    assert [a, e][..1] == [a];
  }

  ghost predicate CanFill(cfg: Config, r: Request) {
    var k := FacadeKey(cfg, r);
    StoresAll(cfg) && CodecFaithful(cfg) && Usable(k) && k.workspace != "*" && TrimSpace(r.content) != ""
  }

  lemma AddAppends(cfg: Config, st: State, r: Request) returns (audit: Entry, e: Entry)
    requires CanFill(cfg, r) && !Live(st.slots, FacadeKey(cfg, r))
    ensures var (k, st') := (FacadeKey(cfg, r), AddMemory(cfg, st, r, 0).0);
      && st'.log == st.log + [audit, e] && audit.Audit? && About(e, k)
      && Live(st'.slots, k) && forall j | j != k :: Live(st'.slots, j) <==> Live(st.slots, j)
  {
    hide AddMemory, StoreAndRecord, TrimSpace, FirstNonBlank, CodecFaithful, StoresAll, FacadeKey;
    var (k, env, row) := (FacadeKey(cfg, r), AddEnvelope(cfg, r), AddedRow(cfg, st, r, 0));
    FacadeKeyIs(cfg, r);
    AddIs(cfg, st, r, 0);
    var item := ItemOf(MemorySlot(k, row), env);
    audit := WriteAppends(cfg, st, k, row, Created, Added, item, "", env.content);
    e := EventFor(k, Added, env, "", env.content, 1);
    WriteSlots(cfg, st, k, row, Created, Added, item, "", env.content);
  }

  lemma UpdateAppends(cfg: Config, st: State, r: Request) returns (audit: Entry, e: Entry)
    requires CanFill(cfg, r) && Live(st.slots, FacadeKey(cfg, r)) && Owned(cfg, st.slots)
    ensures var (k, st') := (FacadeKey(cfg, r), UpdateMemory(cfg, st, r, 0).0);
      st'.log == st.log + [audit, e] && audit.Audit? && About(e, k) && Live(st'.slots, k)
  {
    hide UpdateMemory, GetMemory, StoreAndRecord, TrimSpace, FirstNonBlank, CodecFaithful, StoresAll, FacadeKey, Owned;
    var k := FacadeKey(cfg, r);
    FacadeKeyIs(cfg, r);
    ReadIs(cfg, st, r);
    var was := GetMemory(cfg, st, r).value;
    var env := UpdateEnvelope(cfg, r, was.env);
    var row := UpdatedRow(st, k, cfg.encode(env), 0);
    UpdateIs(cfg, st, r, was, 0);
    var item := ItemOf(MemorySlot(k, row), env);
    audit := WriteAppends(cfg, st, k, row, Replaced, Updated, item, was.env.content, env.content);
    e := EventFor(k, Updated, env, was.env.content, env.content, row.revision);
    WriteSlots(cfg, st, k, row, Replaced, Updated, item, was.env.content, env.content);
  }

  lemma RunOnce(cfg: Config, calls: seq<Call>, c: Call)
    ensures Run(cfg, calls + [c]) == Step(cfg, Run(cfg, calls), c)
  {
    assert (calls + [c])[..|calls|] == calls;
  }

  lemma TwoAdds(cfg: Config, r: Request)
    ensures Run(cfg, FillCalls(r, 0)) == AddMemory(cfg, AddMemory(cfg, State(map[], []), r, 0).0, Other(r), 0).0
  {
    hide AddMemory;
    RunOnce(cfg, [], Call(AddOp(r), 0));
    assert [] + [Call(AddOp(r), 0)] == [Call(AddOp(r), 0)];
    RunOnce(cfg, [Call(AddOp(r), 0)], Call(AddOp(Other(r)), 0));
    assert [Call(AddOp(r), 0)] + [Call(AddOp(Other(r)), 0)] == FillCalls(r, 0);
  }

  /** The two adds. */
  lemma FillStarts(cfg: Config, r: Request) returns (audit: Entry, e: Entry, after: seq<Entry>)
    requires CanFill(cfg, r)
    ensures About(e, FacadeKey(cfg, r)) && Buries(cfg, r, after, 0)
    ensures var st := Run(cfg, FillCalls(r, 0)); st.log == [audit, e] + after && Live(st.slots, FacadeKey(cfg, Other(r)))
  {
    OtherIsUsable(cfg, r);
    var o := Other(r);
    assert CanFill(cfg, o);
    hide AddMemory, About, Buries, TrimSpace, FacadeKey, Listed, Named, StoresAll, CodecFaithful, Usable, Step, Run;
    TwoAdds(cfg, r);
    var first := AddMemory(cfg, State(map[], []), r, 0).0;
    audit, e := AddAppends(cfg, State(map[], []), r);
    var audit', e' := AddAppends(cfg, first, o);
    after := [] + [audit', e'];
    assert first.log == [] + [audit, e] == [audit, e] && after == [audit', e'];
    BuriesMore(cfg, r, [], 0, audit', e');
  }

  lemma {:induction false} FillGoesOn(cfg: Config, r: Request, n: nat) returns (audit: Entry, e: Entry, after: seq<Entry>)
    requires CanFill(cfg, r)
    ensures About(e, FacadeKey(cfg, r)) && Buries(cfg, r, after, n)
    ensures var st := Run(cfg, FillCalls(r, n)); st.log == [audit, e] + after && Live(st.slots, FacadeKey(cfg, Other(r)))
  {
    if n == 0 {
      audit, e, after := FillStarts(cfg, r);
    } else {
      audit, e, after := FillGoesOn(cfg, r, n - 1);
      after := FillStep(cfg, r, n, [audit, e], after);
    }
  }

  lemma FillStep(cfg: Config, r: Request, n: nat, before: seq<Entry>, after: seq<Entry>) returns (more: seq<Entry>)
    requires CanFill(cfg, r) && n > 0 && Buries(cfg, r, after, n - 1)
    requires var st := Run(cfg, FillCalls(r, n - 1)); st.log == before + after && Live(st.slots, FacadeKey(cfg, Other(r)))
    ensures Buries(cfg, r, more, n)
    ensures var st := Run(cfg, FillCalls(r, n)); st.log == before + more && Live(st.slots, FacadeKey(cfg, Other(r)))
  {
    hide *;
    var (calls, o) := (FillCalls(r, n - 1), Other(r));
    var (st, c) := (Run(cfg, calls), Call(UpdateOp(o), 0));
    OtherCanFill(cfg, r);
    FillOwned(cfg, r, n - 1);
    FillNext(r, n);
    UpdateStepIs(cfg, st, o);
    RunOnce(cfg, calls, c);
    var audit', e' := UpdateAppends(cfg, st, o);
    BuriesNext(cfg, r, after, n, audit', e');
    more := after + [audit', e'];
    assert before + after + [audit', e'] == before + more;
  }

  lemma OtherCanFill(cfg: Config, r: Request)
    requires CanFill(cfg, r)
    ensures CanFill(cfg, Other(r))
  {
    hide TrimSpace, StoresAll, CodecFaithful, FacadeKey;
    OtherIsUsable(cfg, r);
  }

  lemma FillOwned(cfg: Config, r: Request, n: nat)
    requires CanFill(cfg, r)
    ensures Owned(cfg, Run(cfg, FillCalls(r, n)).slots)
  {
    hide TrimSpace, StoresAll, CodecFaithful, FacadeKey, Run, FillCalls, Owned;
    RunOwned(cfg, FillCalls(r, n));
  }

  lemma FillNext(r: Request, n: nat)
    requires n > 0
    ensures FillCalls(r, n) == FillCalls(r, n - 1) + [Call(UpdateOp(Other(r)), 0)]
  {
    hide Other;
  }

  lemma UpdateStepIs(cfg: Config, st: State, r: Request)
    ensures Step(cfg, st, Call(UpdateOp(r), 0)) == UpdateMemory(cfg, st, r, 0).0
  {
    hide UpdateMemory;
  }

  lemma BuriesNext(cfg: Config, r: Request, after: seq<Entry>, n: nat, audit: Entry, e: Entry)
    requires CanFill(cfg, r) && n > 0 && Buries(cfg, r, after, n - 1)
    requires audit.Audit? && About(e, FacadeKey(cfg, Other(r)))
    ensures Buries(cfg, r, after + [audit, e], n)
  {
    hide StoresAll, CodecFaithful, TrimSpace, Listed, Named, FacadeKey, About, NewestFirst;
    BuriesMore(cfg, r, after, n, audit, e);
  }

  lemma NothingIsShown(cfg: Config, r: Request, before: seq<Entry>, after: seq<Entry>)
    requires Usable(FacadeKey(cfg, r)) && FacadeKey(cfg, r).workspace != "*" && Buries(cfg, r, after, LIST_CAP - 1)
    ensures Matching(ListObservations(cfg, before + after, r, SCAN_LIMIT), r) == []
  {
    hide Listed, Named, TrimSpace, FacadeKey, Matching;
    var keep := (e: Entry) => Listed(cfg, r, e);
    var list := ListObservations(cfg, before + after, r, SCAN_LIMIT);
    var newest := NewestFirst(after, keep);
    NewestJoins(before, after, keep);
    assert list == newest[..LIST_CAP];
    NewestAreKept(after, keep);
    forall e | e in list ensures !Named(r, e) {
      assert e in newest;
    }
    NothingNamed(list, r);
  }

  lemma {:induction false} NothingNamed(list: seq<Entry>, r: Request)
    requires forall e | e in list :: !Named(r, e)
    ensures Matching(list, r) == []
  {
    hide Named;
    if list != [] {
      NothingNamed(list[..|list| - 1], r);
    }
  }

  /** Beyond the cap: the memory is added, then another one of the same user is added and updated 499
      times, and History has nothing to tell of the first, which has a history all the same. */
  lemma HistoryIsCut(cfg: Config, r: Request) returns (calls: seq<Call>)
    requires CanFill(cfg, r)
    ensures |calls| == LIST_CAP + 1 && forall c | c in calls :: Admissible(cfg, c)
    ensures EventsOf(Run(cfg, calls).log, FacadeKey(cfg, r)) != []
    ensures Matching(ListObservations(cfg, Run(cfg, calls).log, r, SCAN_LIMIT), r) == []
  {
    calls := FillCalls(r, LIST_CAP - 1);
    var audit, e, after := FillGoesOn(cfg, r, LIST_CAP - 1);
    hide FillCalls, Run, About, ListObservations, Matching, Buries, FacadeKey, TrimSpace;
    NothingIsShown(cfg, r, [audit, e], after);
    EventsHave(Run(cfg, calls).log, FacadeKey(cfg, r), 1);
  }
}
