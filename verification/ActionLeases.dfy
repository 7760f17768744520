/** service/action_leases.go: owners lease actions for a time, one transaction per call.
    The lease table is a map, the audit table a sequence whose rows have id `index + 1`.
    `now` is what the call read from the clock before its transaction began. */
module ActionLeases {
  import Text

  const MAX_INT64 := 0x7FFF_FFFF_FFFF_FFFF
  type int64 = x: int | -0x8000_0000_0000_0000 <= x <= MAX_INT64

  datatype Key = Key(workspace: string, profile: string, peer: string, action: string)

  datatype Lease = Lease(owner: string, acquiredAt: int64, renewedAt: int64, expiresAt: int64)

  datatype Decision = Acquired | HeldByOther | Renewed | Expired

  /** The reason column. Its five texts are told apart by their fixed words. */
  datatype Reason =
    | LeaseAcquired
    | LeaseRenewed
    | LeaseExpired
    | MissingOrExpired
    | HeldBy(owner: string, until: int64)

  datatype AuditRow = AuditRow(key: Key, actor: string, decision: Decision, reason: Reason,
                               expiresAt: int64, createdAt: int64)

  datatype Store = Store(leases: map<Key, Lease>, audit: seq<AuditRow>)

  /** What a call reads besides the two lease tables. */
  datatype Env = Env(teamMode: bool, defaultWorkspace: string, actions: set<Key>)

  datatype Params = Params(workspace: string, profile: string, peer: string, action: string,
                           owner: string, ttl: int64)

  datatype Sweep = Sweep(workspace: string, profile: string, peer: string, action: string)

  datatype Error = NotTeamMode | ScopeRequired | OwnerRequired | TtlNotPositive | TtlOverflow | NoSuchAction

  datatype Reply =
    | LeaseReply(acquired: bool, decision: Decision, key: Key, lease: Lease, auditId: nat)
    | SweepReply(events: seq<AuditRow>)
    | Failure(error: Error)

  // ----- Normalization and the two time helpers -----

  function NormalKey(env: Env, workspace: string, profile: string, peer: string, action: string): Key {
    var w := Text.TrimSpace(workspace);
    Key(if w == "" then Text.TrimSpace(env.defaultWorkspace) else w,
        Text.TrimSpace(profile), Text.TrimSpace(peer), Text.TrimSpace(action))
  }

  predicate Complete(key: Key) {
    key.workspace != "" && key.peer != ""
  }

  /** The first complaint about the parameters of an acquire or a renew, if any. */
  function Complaint(env: Env, p: Params): seq<Error> {
    var key := NormalKey(env, p.workspace, p.profile, p.peer, p.action);
    if !env.teamMode then [NotTeamMode]
    else if !Complete(key) || key.action == "" then [ScopeRequired]
    else if Text.TrimSpace(p.owner) == "" then [OwnerRequired]
    else if p.ttl <= 0 then [TtlNotPositive]
    else []
  }

  predicate Overflows(now: int64, ttl: int64)
    requires ttl > 0
  {
    now > MAX_INT64 - ttl
  }

  /** `key` is leased to `owner` and the lease runs past `now`. */
  predicate LiveFor(leases: map<Key, Lease>, key: Key, owner: string, now: int64) {
    key in leases && leases[key].owner == owner && leases[key].expiresAt > now
  }

  predicate LiveForOther(leases: map<Key, Lease>, key: Key, owner: string, now: int64) {
    key in leases && leases[key].owner != owner && leases[key].expiresAt > now
  }

  function AcquiredAt(leases: map<Key, Lease>, key: Key, owner: string, now: int64): int64 {
    if LiveFor(leases, key, owner, now) && leases[key].acquiredAt > 0 then leases[key].acquiredAt else now
  }

  // ----- The steps as functions -----

  function Append(st: Store, key: Key, actor: string, decision: Decision, reason: Reason,
                  expiresAt: int64, now: int64): Store
  {
    st.(audit := st.audit + [AuditRow(key, actor, decision, reason, expiresAt, now)])
  }

  function Acquire(st: Store, env: Env, p: Params, now: int64): (Store, Reply) {
    var complaint := Complaint(env, p);
    if complaint != [] then (st, Failure(complaint[0])) else
    var key := NormalKey(env, p.workspace, p.profile, p.peer, p.action);
    var owner := Text.TrimSpace(p.owner);
    if Overflows(now, p.ttl) then (st, Failure(TtlOverflow))
    else if key !in env.actions then (st, Failure(NoSuchAction))
    else if LiveForOther(st.leases, key, owner, now) then
      Deny(st, key, owner, now)
    else
      var lease := Lease(owner, AcquiredAt(st.leases, key, owner, now), now, now + p.ttl);
      var st' := Append(st.(leases := st.leases[key := lease]), key, owner, Acquired, LeaseAcquired,
                        lease.expiresAt, now);
      (st', LeaseReply(true, Acquired, key, lease, |st'.audit|))
  }

  function Deny(st: Store, key: Key, owner: string, now: int64): (Store, Reply)
    requires key in st.leases
  {
    var lease := st.leases[key];
    var st' := Append(st, key, owner, HeldByOther, HeldBy(lease.owner, lease.expiresAt), lease.expiresAt, now);
    (st', LeaseReply(false, HeldByOther, key, lease, |st'.audit|))
  }

  function Renew(st: Store, env: Env, p: Params, now: int64): (Store, Reply) {
    var complaint := Complaint(env, p);
    if complaint != [] then (st, Failure(complaint[0])) else
    var key := NormalKey(env, p.workspace, p.profile, p.peer, p.action);
    var owner := Text.TrimSpace(p.owner);
    if key !in env.actions then (st, Failure(NoSuchAction))
    else if key !in st.leases || st.leases[key].expiresAt <= now then
      var st' := Append(st, key, owner, Expired, MissingOrExpired, 0, now);
      (st', LeaseReply(false, Expired, key, Lease(owner, 0, 0, 0), |st'.audit|))
    else if st.leases[key].owner != owner then Deny(st, key, owner, now)
    else if Overflows(now, p.ttl) then (st, Failure(TtlOverflow))
    else
      var lease := st.leases[key].(renewedAt := now, expiresAt := now + p.ttl);
      var st' := Append(st.(leases := st.leases[key := lease]), key, owner, Renewed, LeaseRenewed,
                        lease.expiresAt, now);
      (st', LeaseReply(true, Renewed, key, lease, |st'.audit|))
  }

  /** The keys a sweep deletes: in scope, and for the named action if one is named. */
  function ExpiredKeys(leases: map<Key, Lease>, scope: Key, now: int64): set<Key> {
    set k | k in leases && k.workspace == scope.workspace && k.profile == scope.profile && k.peer == scope.peer
            && (scope.action == "" || k.action == scope.action) && leases[k].expiresAt <= now
  }

  /** ORDER BY expires_at, action_id. */
  predicate Before(leases: map<Key, Lease>, a: Key, b: Key)
    requires a in leases && b in leases
  {
    || leases[a].expiresAt < leases[b].expiresAt
    || (leases[a].expiresAt == leases[b].expiresAt && Text.Less(a.action, b.action))
  }

  ghost predicate IsFirst(leases: map<Key, Lease>, keys: set<Key>, k: Key)
    requires keys <= leases.Keys
  {
    k in keys && forall o | o in keys :: !Before(leases, o, k)
  }

  lemma BeforeTransitive(leases: map<Key, Lease>, a: Key, b: Key, c: Key)
    requires a in leases && b in leases && c in leases
    requires Before(leases, a, b) && Before(leases, b, c)
    ensures Before(leases, a, c)
  {
    if Text.Less(a.action, b.action) && Text.Less(b.action, c.action) {
      Text.LessTransitive(a.action, b.action, c.action);
    }
  }

  lemma {:induction false} FirstExists(leases: map<Key, Lease>, keys: set<Key>)
    requires keys <= leases.Keys && keys != {}
    ensures exists k :: IsFirst(leases, keys, k)
  {
    var x :| x in keys;
    var rest := keys - {x};
    Text.LessIrreflexive(x.action);
    if rest == {} {
      assert keys == {x};
      assert IsFirst(leases, keys, x);
    } else {
      FirstExists(leases, rest);
      var k :| IsFirst(leases, rest, k);
      if Before(leases, x, k) {
        forall o | o in keys ensures !Before(leases, o, x) {
          if o != x && Before(leases, o, x) {
            BeforeTransitive(leases, o, x, k);
          }
        }
        assert IsFirst(leases, keys, x);
      } else {
        assert IsFirst(leases, keys, k);
      }
    }
  }

  ghost function Listing(leases: map<Key, Lease>, keys: set<Key>): seq<Key>
    requires keys <= leases.Keys
  {
    if keys == {} then [] else
    FirstExists(leases, keys);
    var k :| IsFirst(leases, keys, k);
    [k] + Listing(leases, keys - {k})
  }

  function ExpireRow(leases: map<Key, Lease>, k: Key, now: int64): AuditRow
    requires k in leases
  {
    AuditRow(k, leases[k].owner, Expired, LeaseExpired, leases[k].expiresAt, now)
  }

  function ExpireRows(leases: map<Key, Lease>, keys: seq<Key>, now: int64): (rows: seq<AuditRow>)
    requires forall k | k in keys :: k in leases
    ensures |rows| == |keys|
    ensures forall i | 0 <= i < |keys| :: rows[i] == ExpireRow(leases, keys[i], now)
  {
    if keys == [] then [] else [ExpireRow(leases, keys[0], now)] + ExpireRows(leases, keys[1..], now)
  }

  lemma {:induction false} ListingMembers(leases: map<Key, Lease>, keys: set<Key>)
    requires keys <= leases.Keys
    ensures forall k :: k in Listing(leases, keys) <==> k in keys
    ensures |Listing(leases, keys)| == |keys|
  {
    if keys != {} {
      FirstExists(leases, keys);
      var k :| IsFirst(leases, keys, k) && Listing(leases, keys) == [k] + Listing(leases, keys - {k});
      ListingMembers(leases, keys - {k});
    }
  }

  ghost function Expire(st: Store, env: Env, q: Sweep, now: int64): (Store, Reply) {
    var scope := NormalKey(env, q.workspace, q.profile, q.peer, q.action);
    if !env.teamMode then (st, Failure(NotTeamMode))
    else if !Complete(scope) then (st, Failure(ScopeRequired))
    else
      var keys := ExpiredKeys(st.leases, scope, now);
      ListingMembers(st.leases, keys);
      var rows := ExpireRows(st.leases, Listing(st.leases, keys), now);
      (Store(st.leases - keys, st.audit + rows), SweepReply(rows))
  }

  // ----- What the audit log says -----

  /** What one audit row does to the table. Refusals and missed renewals do nothing. */
  function ReplayRow(leases: map<Key, Lease>, row: AuditRow): map<Key, Lease> {
    match row.reason
    case LeaseAcquired =>
      leases[row.key := Lease(row.actor, AcquiredAt(leases, row.key, row.actor, row.createdAt),
                              row.createdAt, row.expiresAt)]
    case LeaseRenewed =>
      if row.key in leases
      then leases[row.key := leases[row.key].(renewedAt := row.createdAt, expiresAt := row.expiresAt)]
      else leases
    case LeaseExpired => leases - {row.key}
    case MissingOrExpired => leases
    case HeldBy(_, _) => leases
  }

  function Replay(log: seq<AuditRow>): map<Key, Lease> {
    if log == [] then map[] else ReplayRow(Replay(log[..|log| - 1]), log[|log| - 1])
  }

  /** The row was due: no grant over another owner's live lease, no renewal of a lease the actor
      did not hold, no removal before expiry, and no refusal without a live lease of another. */
  predicate Due(leases: map<Key, Lease>, row: AuditRow) {
    match row.reason
    case LeaseAcquired => row.decision == Acquired && !LiveForOther(leases, row.key, row.actor, row.createdAt)
    case LeaseRenewed => row.decision == Renewed && LiveFor(leases, row.key, row.actor, row.createdAt)
    case LeaseExpired => row.decision == Expired && row.key in leases && leases[row.key].owner == row.actor
                         && leases[row.key].expiresAt <= row.createdAt
    case MissingOrExpired => row.decision == Expired
                             && (row.key in leases ==> leases[row.key].expiresAt <= row.createdAt)
    case HeldBy(owner, until) => row.decision == HeldByOther
                                 && LiveForOther(leases, row.key, row.actor, row.createdAt)
                                 && owner == leases[row.key].owner && until == leases[row.key].expiresAt
  }

  ghost predicate Lawful(log: seq<AuditRow>) {
    forall j :: 0 <= j < |log| ==> Due(Replay(log[..j]), log[j])
  }

  lemma AppendRow(log: seq<AuditRow>, row: AuditRow)
    requires Lawful(log) && Due(Replay(log), row)
    ensures Lawful(log + [row]) && Replay(log + [row]) == ReplayRow(Replay(log), row)
  {
    var log' := log + [row];
    assert log'[..|log|] == log;
    forall j | 0 <= j < |log'| ensures Due(Replay(log'[..j]), log'[j]) {
      assert j < |log| ==> log'[..j] == log[..j];
    }
  }

  lemma {:induction false} AppendExpired(log: seq<AuditRow>, leases: map<Key, Lease>, keys: seq<Key>, now: int64)
    requires Lawful(log) && Replay(log) == leases
    requires forall k | k in keys :: k in leases && leases[k].expiresAt <= now
    requires forall i, j :: 0 <= i < j < |keys| ==> keys[i] != keys[j]
    ensures var log' := log + ExpireRows(leases, keys, now);
      Lawful(log') && Replay(log') == leases - SetOf(keys)
  {
    hide Replay, Lawful, Due;
    if keys == [] {
      assert log + ExpireRows(leases, keys, now) == log;
    } else {
      var init, last := keys[..|keys| - 1], keys[|keys| - 1];
      AppendExpired(log, leases, init, now);
      var rows := ExpireRows(leases, init, now);
      var row := ExpireRow(leases, last, now);
      assert last !in init;
      AppendRow(log + rows, row);
      assert log + ExpireRows(leases, keys, now) == log + rows + [row];
    }
  }

  lemma {:induction false} ListingDistinct(leases: map<Key, Lease>, keys: set<Key>)
    requires keys <= leases.Keys
    ensures var l := Listing(leases, keys); forall i, j :: 0 <= i < j < |l| ==> l[i] != l[j]
  {
    if keys != {} {
      FirstExists(leases, keys);
      ListingStep(leases, keys, keys);
      var k := Listing(leases, keys)[0];
      ListingMembers(leases, keys - {k});
      ListingDistinct(leases, keys - {k});
    }
  }

  function SetOf(keys: seq<Key>): set<Key> {
    set k | k in keys
  }

  lemma RemoveNext(leases: map<Key, Lease>, keys: seq<Key>, i: nat)
    requires i < |keys|
    ensures leases - SetOf(keys[..i]) - {keys[i]} == leases - SetOf(keys[..i + 1])
  {
    assert keys[..i + 1] == keys[..i] + [keys[i]];
  }

  lemma ListingStep(leases: map<Key, Lease>, all: set<Key>, keys: set<Key>)
    requires keys <= all <= leases.Keys && keys != {}
    ensures var l := Listing(leases, keys);
      l != [] && IsFirst(leases, keys, l[0]) && l == [l[0]] + Listing(leases, keys - {l[0]})
  {
    FirstExists(leases, keys);
    var k :| IsFirst(leases, keys, k) && Listing(leases, keys) == [k] + Listing(leases, keys - {k});
  }

  /** Within a scope action ids are distinct, so the listing order has no ties. */
  lemma FirstUnique(leases: map<Key, Lease>, scope: Key, now: int64, keys: set<Key>, a: Key, b: Key)
    requires keys <= ExpiredKeys(leases, scope, now)
    requires IsFirst(leases, keys, a) && IsFirst(leases, keys, b)
    ensures a == b
  {
    Text.LessTotal(a.action, b.action);
  }

  ghost predicate LogMatches(st: Store) {
    st.leases == Replay(st.audit) && Lawful(st.audit)
  }

  lemma AcquireKeepsLog(st: Store, env: Env, p: Params, now: int64)
    requires LogMatches(st)
    ensures LogMatches(Acquire(st, env, p, now).0) && st.audit <= Acquire(st, env, p, now).0.audit
  {
    hide Replay, Lawful, Complaint;
    var st' := Acquire(st, env, p, now).0;
    if st' != st {
      AppendRow(st.audit, st'.audit[|st.audit|]);
    }
  }

  lemma RenewKeepsLog(st: Store, env: Env, p: Params, now: int64)
    requires LogMatches(st)
    ensures LogMatches(Renew(st, env, p, now).0) && st.audit <= Renew(st, env, p, now).0.audit
  {
    hide Replay, Lawful, Complaint;
    var st' := Renew(st, env, p, now).0;
    if st' != st {
      AppendRow(st.audit, st'.audit[|st.audit|]);
    }
  }

  lemma ExpireKeepsLog(st: Store, env: Env, q: Sweep, now: int64)
    requires LogMatches(st)
    ensures LogMatches(Expire(st, env, q, now).0) && st.audit <= Expire(st, env, q, now).0.audit
  {
    hide Replay, Lawful, Listing;
    var keys := ExpiredKeys(st.leases, NormalKey(env, q.workspace, q.profile, q.peer, q.action), now);
    ListingMembers(st.leases, keys);
    ListingDistinct(st.leases, keys);
    AppendExpired(st.audit, st.leases, Listing(st.leases, keys), now);
    assert SetOf(Listing(st.leases, keys)) == keys;
  }

  /** Every transaction extends the log, and the longer log still rebuilds the table. */
  lemma StepKeepsLog(st: Store, step: Step)
    requires LogMatches(st)
    ensures LogMatches(Apply(st, step).0) && st.audit <= Apply(st, step).0.audit
  {
    match step.call
    case AcquireCall(p) => AcquireKeepsLog(st, step.env, p, step.now);
    case RenewCall(p) => RenewKeepsLog(st, step.env, p, step.now);
    case ExpireCall(q) => ExpireKeepsLog(st, step.env, q, step.now);
  }

  // ----- The service -----

  class LeaseService {
    var env: Env
    var leases: map<Key, Lease>
    var audit: seq<AuditRow>

    ghost function State(): Store
      reads this
    {
      Store(leases, audit)
    }

    /** The audit log alone determines the table, and every row it grants by was due. */
    ghost predicate Valid()
      reads this
    {
      LogMatches(State())
    }

    constructor (env: Env)
      ensures Valid() && State() == Store(map[], []) && this.env == env
    {
      this.env, leases, audit := env, map[], [];
    }

    method AcquireActionLease(p: Params, now: int64) returns (r: Reply)
      requires Valid()
      modifies `leases, `audit
      ensures Valid()
      ensures (State(), r) == Acquire(old(State()), env, p, now)
    {
      hide Replay, Lawful, Complaint, Listing;
      StepKeepsLog(State(), Step(env, AcquireCall(p), now));
      var complaint := Complaint(env, p);
      if complaint != [] {
        return Failure(complaint[0]);
      }
      var key := NormalKey(env, p.workspace, p.profile, p.peer, p.action);
      var owner := Text.TrimSpace(p.owner);
      if now > MAX_INT64 - p.ttl {
        return Failure(TtlOverflow);
      }
      var expiresAt := now + p.ttl;
      if key !in env.actions {
        return Failure(NoSuchAction);
      }
      var found := key in leases;
      if found && leases[key].expiresAt > now && leases[key].owner != owner {
        var held := leases[key];
        audit := audit + [AuditRow(key, owner, HeldByOther, HeldBy(held.owner, held.expiresAt), held.expiresAt, now)];
        return LeaseReply(false, HeldByOther, key, held, |audit|);
      }
      var acquiredAt := now;
      if found && leases[key].owner == owner && leases[key].expiresAt > now && leases[key].acquiredAt > 0 {
        acquiredAt := leases[key].acquiredAt;
      }
      var lease := Lease(owner, acquiredAt, now, expiresAt);
      leases := leases[key := lease];
      audit := audit + [AuditRow(key, owner, Acquired, LeaseAcquired, expiresAt, now)];
      return LeaseReply(true, Acquired, key, lease, |audit|);
    }

    method RenewActionLease(p: Params, now: int64) returns (r: Reply)
      requires Valid()
      modifies `leases, `audit
      ensures Valid()
      ensures (State(), r) == Renew(old(State()), env, p, now)
    {
      hide Replay, Lawful, Complaint, Listing;
      StepKeepsLog(State(), Step(env, RenewCall(p), now));
      var complaint := Complaint(env, p);
      if complaint != [] {
        return Failure(complaint[0]);
      }
      var key := NormalKey(env, p.workspace, p.profile, p.peer, p.action);
      var owner := Text.TrimSpace(p.owner);
      if key !in env.actions {
        return Failure(NoSuchAction);
      }
      if key !in leases || leases[key].expiresAt <= now {
        audit := audit + [AuditRow(key, owner, Expired, MissingOrExpired, 0, now)];
        return LeaseReply(false, Expired, key, Lease(owner, 0, 0, 0), |audit|);
      }
      var existing := leases[key];
      if existing.owner != owner {
        audit := audit + [AuditRow(key, owner, HeldByOther, HeldBy(existing.owner, existing.expiresAt),
                                   existing.expiresAt, now)];
        return LeaseReply(false, HeldByOther, key, existing, |audit|);
      }
      if now > MAX_INT64 - p.ttl {
        return Failure(TtlOverflow);
      }
      existing := existing.(renewedAt := now, expiresAt := now + p.ttl);
      leases := leases[key := existing];
      audit := audit + [AuditRow(key, owner, Renewed, LeaseRenewed, existing.expiresAt, now)];
      return LeaseReply(true, Renewed, key, existing, |audit|);
    }

    /** The rows the sweep's query returns, in its order. */
    method ListExpired(scope: Key, now: int64) returns (rows: seq<(Key, Lease)>)
      ensures var keys := Listing(leases, ExpiredKeys(leases, scope, now));
              && |rows| == |keys|
              && forall i | 0 <= i < |keys| :: keys[i] in leases && rows[i] == (keys[i], leases[keys[i]])
    {
      hide Listing;
      ghost var all := ExpiredKeys(leases, scope, now);
      var rest := ExpiredKeys(leases, scope, now);
      ghost var keys: seq<Key> := [];
      rows := [];
      while rest != {}
        invariant rest <= all
        invariant keys + Listing(leases, rest) == Listing(leases, all)
        invariant |rows| == |keys|
        invariant forall i | 0 <= i < |keys| :: keys[i] in leases && rows[i] == (keys[i], leases[keys[i]])
        decreases rest
      {
        FirstExists(leases, rest);
        ListingStep(leases, all, rest);
        var k :| k in rest && forall o | o in rest :: !Before(leases, o, k);
        assert IsFirst(leases, rest, k);
        FirstUnique(leases, scope, now, rest, k, Listing(leases, rest)[0]);
        assert keys + Listing(leases, rest) == keys + [k] + Listing(leases, rest - {k});
        keys, rows, rest := keys + [k], rows + [(k, leases[k])], rest - {k};
      }
      ListingMembers(leases, {});
    }

    method ExpireActionLeases(q: Sweep, now: int64) returns (r: Reply)
      requires Valid()
      modifies `leases, `audit
      ensures Valid()
      ensures (State(), r) == Expire(old(State()), env, q, now)
    {
      hide Replay, Lawful, Complaint, Listing;
      StepKeepsLog(State(), Step(env, ExpireCall(q), now));
      var scope := NormalKey(env, q.workspace, q.profile, q.peer, q.action);
      if !env.teamMode {
        return Failure(NotTeamMode);
      }
      if !Complete(scope) {
        return Failure(ScopeRequired);
      }
      var listed := ListExpired(scope, now);
      ghost var keys := Listing(leases, ExpiredKeys(leases, scope, now));
      ListingMembers(leases, ExpiredKeys(leases, scope, now));
      assert SetOf(keys) == ExpiredKeys(leases, scope, now);
      var events := DeleteListed(listed, keys, now);
      return SweepReply(events);
    }

    /** The sweep's loop: each listed lease is deleted and leaves one audit row. */
    method DeleteListed(listed: seq<(Key, Lease)>, ghost keys: seq<Key>, now: int64) returns (events: seq<AuditRow>)
      requires |listed| == |keys|
      requires forall i | 0 <= i < |keys| :: keys[i] in leases && listed[i] == (keys[i], leases[keys[i]])
      modifies `leases, `audit
      ensures events == ExpireRows(old(leases), keys, now)
      ensures leases == old(leases) - SetOf(keys) && audit == old(audit) + events
    {
      ghost var rows := ExpireRows(leases, keys, now);
      events := [];
      for i := 0 to |listed|
        invariant leases == old(leases) - SetOf(keys[..i])
        invariant events == rows[..i]
        invariant audit == old(audit) + rows[..i]
      {
        var (k, lease) := listed[i];
        var row := AuditRow(k, lease.owner, Expired, LeaseExpired, lease.expiresAt, now);
        assert row == rows[i];
        RemoveNext(old(leases), keys, i);
        leases := leases - {k};
        audit := audit + [row];
        events := events + [row];
      }
      assert keys[..|keys|] == keys && rows[..|rows|] == rows;
    }
  }

  // ----- Runs -----

  datatype Call = AcquireCall(params: Params) | RenewCall(params: Params) | ExpireCall(sweep: Sweep)

  /** One committed transaction: what it read, what was asked, and the clock it used. */
  datatype Step = Step(env: Env, call: Call, now: int64)

  ghost function Apply(st: Store, step: Step): (Store, Reply) {
    match step.call
    case AcquireCall(p) => Acquire(st, step.env, p, step.now)
    case RenewCall(p) => Renew(st, step.env, p, step.now)
    case ExpireCall(q) => Expire(st, step.env, q, step.now)
  }

  ghost function Run(st: Store, steps: seq<Step>): Store {
    if steps == [] then st else Apply(Run(st, steps[..|steps| - 1]), steps[|steps| - 1]).0
  }

  /** What the i-th transaction of a run answered. */
  ghost function ReplyAt(st: Store, steps: seq<Step>, i: nat): Reply
    requires i < |steps|
  {
    Apply(Run(st, steps[..i]), steps[i]).1
  }

  /** The reply hands `key` to `owner`, by acquiring or renewing. */
  ghost predicate Hands(r: Reply, key: Key, owner: string) {
    r.LeaseReply? && r.acquired && r.key == key && r.lease.owner == owner
  }

  ghost predicate InClockOrder(steps: seq<Step>) {
    forall i, j :: 0 <= i <= j < |steps| ==> steps[i].now <= steps[j].now
  }

  /** Nothing happens to `key`; or it is handed over, never from under another live holder; or
      its lease is deleted after it has run out. */
  ghost predicate Effect(before: map<Key, Lease>, r: Reply, now: int64, after: map<Key, Lease>, key: Key) {
    if r.LeaseReply? && r.acquired && r.key == key then
      && key in after && after[key] == r.lease
      && !LiveForOther(before, key, r.lease.owner, now)
      && r.lease.renewedAt == now < r.lease.expiresAt
      && (r.lease.acquiredAt == now || (key in before && r.lease.acquiredAt == before[key].acquiredAt))
    else
      || (key in before && key in after && after[key] == before[key])
      || (key !in before && key !in after)
      || (key in before && key !in after && before[key].expiresAt <= now)
  }

  lemma StepOnKey(st: Store, step: Step, key: Key)
    ensures var (st', r) := Apply(st, step); Effect(st.leases, r, step.now, st'.leases, key)
  {
    hide Listing, ExpireRows, NormalKey;
  }

  lemma RunStep(st: Store, steps: seq<Step>, p: nat)
    requires p < |steps|
    ensures Run(st, steps[..p + 1]) == Apply(Run(st, steps[..p]), steps[p]).0
  {
    assert steps[..p + 1][..p] == steps[..p];
  }

  /** After transaction i handed `key` to `owner` until `e`, and while `owner` is not handed it
      again, either that lease is in the table or the clock has reached `e`. */
  lemma {:induction false} HeldUntil(st: Store, steps: seq<Step>, i: nat, p: nat, key: Key, owner: string)
    requires i < p <= |steps| && InClockOrder(steps)
    requires Hands(ReplyAt(st, steps, i), key, owner)
    requires forall m | i < m < p :: !Hands(ReplyAt(st, steps, m), key, owner)
    ensures var now := Run(st, steps[..p]).leases;
      var e := ReplyAt(st, steps, i).lease.expiresAt;
      || (key in now && now[key].owner == owner && now[key].expiresAt == e)
      || steps[p - 1].now >= e
    decreases p
  {
    hide Apply, Run;
    RunStep(st, steps, p - 1);
    StepOnKey(Run(st, steps[..p - 1]), steps[p - 1], key);
    var r := ReplyAt(st, steps, p - 1);
    if p - 1 != i {
      assert !Hands(r, key, owner);
      HeldUntil(st, steps, i, p - 1, key, owner);
    }
  }

  /** Mutual exclusion over whole runs: once transaction i has handed `key` to `owner`, and it
      was the last to do so before transaction j, nobody else is handed `key` at a time before
      the expiry that i promised. */
  lemma Exclusion(st: Store, steps: seq<Step>, i: nat, j: nat, key: Key, owner: string, other: string)
    requires i < j < |steps| && InClockOrder(steps)
    requires Hands(ReplyAt(st, steps, i), key, owner)
    requires forall m | i < m < j :: !Hands(ReplyAt(st, steps, m), key, owner)
    requires owner != other && Hands(ReplyAt(st, steps, j), key, other)
    ensures steps[j].now >= ReplyAt(st, steps, i).lease.expiresAt
  {
    HeldUntil(st, steps, i, j, key, owner);
    StepOnKey(Run(st, steps[..j]), steps[j], key);
  }

  /** The transaction is a sweep whose scope holds `key`. */
  predicate Sweeps(step: Step, key: Key) {
    step.call.ExpireCall? && step.env.teamMode &&
    var q := step.call.sweep;
    var scope := NormalKey(step.env, q.workspace, q.profile, q.peer, q.action);
    Complete(scope) && scope.workspace == key.workspace && scope.profile == key.profile && scope.peer == key.peer
      && (scope.action == "" || scope.action == key.action)
  }

  /** A key leaves the table exactly when a sweep of its scope read a clock at or past its expiry. */
  lemma SweptExactly(st: Store, step: Step, key: Key)
    requires key in st.leases
    ensures key !in Apply(st, step).0.leases <==> Sweeps(step, key) && step.now >= st.leases[key].expiresAt
  {
    hide NormalKey, Listing, ExpireRows;
  }

  /** Only a grant brings a key into the table. */
  lemma AbsentUntilHanded(st: Store, step: Step, key: Key)
    requires key !in st.leases && key in Apply(st, step).0.leases
    ensures var r := Apply(st, step).1; r.LeaseReply? && Hands(r, key, r.lease.owner)
  {
    hide NormalKey, Listing, ExpireRows;
  }

  /** Nobody is handed the key between transactions i and p. */
  ghost predicate Unhanded(st: Store, steps: seq<Step>, i: nat, p: nat, key: Key)
    requires p <= |steps|
  {
    forall m, o | i < m < p :: !Hands(ReplyAt(st, steps, m), key, o)
  }

  /** Between i and p a sweep of the key's scope read a clock at or past `e`. */
  ghost predicate SweptBetween(steps: seq<Step>, i: nat, p: nat, key: Key, e: int) {
    exists m :: SweptAt(steps, i, p, key, e, m)
  }

  predicate SweptAt(steps: seq<Step>, i: nat, p: nat, key: Key, e: int, m: int) {
    i < m < p && m < |steps| && Sweeps(steps[m], key) && steps[m].now >= e
  }

  lemma SweptMore(steps: seq<Step>, i: nat, p: nat, key: Key, e: int)
    requires i < p < |steps|
    ensures SweptBetween(steps, i, p + 1, key, e) <==>
      SweptBetween(steps, i, p, key, e) || (Sweeps(steps[p], key) && steps[p].now >= e)
  {
    hide Sweeps;
    if SweptBetween(steps, i, p + 1, key, e) {
      var m :| SweptAt(steps, i, p + 1, key, e, m);
      assert m < p ==> SweptAt(steps, i, p, key, e, m);
    }
    if SweptBetween(steps, i, p, key, e) {
      var m :| SweptAt(steps, i, p, key, e, m);
      assert SweptAt(steps, i, p + 1, key, e, m);
    }
    if Sweeps(steps[p], key) && steps[p].now >= e {
      assert SweptAt(steps, i, p + 1, key, e, p);
    }
  }

  lemma NotSweptYet(steps: seq<Step>, i: nat, key: Key, e: int)
    ensures !SweptBetween(steps, i, i + 1, key, e)
  {
    hide Sweeps;
  }

  /** While nobody is handed the key, its lease is in the table until a sweep takes it out. */
  lemma {:induction false} LeaseStaysUntilSwept(st: Store, steps: seq<Step>, i: nat, p: nat, key: Key, owner: string)
    requires i < p <= |steps| && Unhanded(st, steps, i, p, key)
    requires Hands(ReplyAt(st, steps, i), key, owner)
    ensures var (now, lease) := (Run(st, steps[..p]).leases, ReplyAt(st, steps, i).lease);
      if SweptBetween(steps, i, p, key, lease.expiresAt) then key !in now else key in now && now[key] == lease
    decreases p
  {
    hide Apply, Run, Sweeps, SweptBetween;
    RunStep(st, steps, p - 1);
    var (before, step) := (Run(st, steps[..p - 1]), steps[p - 1]);
    StepOnKey(before, step, key);
    var e := ReplyAt(st, steps, i).lease.expiresAt;
    if p - 1 == i {
      NotSweptYet(steps, i, key, e);
    } else {
      LeaseStaysUntilSwept(st, steps, i, p - 1, key, owner);
      SweptMore(steps, i, p - 1, key, e);
      var r := ReplyAt(st, steps, p - 1);
      assert r.LeaseReply? ==> !Hands(r, key, r.lease.owner);
      if key in before.leases {
        SweptExactly(before, step, key);
      } else if key in Apply(before, step).0.leases {
        AbsentUntilHanded(before, step, key);
      }
    }
  }

  /** An acquire of the key that names an action and an owner and overflows nothing. */
  predicate AsksFor(step: Step, key: Key, owner: string) {
    step.call.AcquireCall? &&
    var p := step.call.params;
    && Complaint(step.env, p) == [] && !Overflows(step.now, p.ttl)
    && NormalKey(step.env, p.workspace, p.profile, p.peer, p.action) == key && key in step.env.actions
    && Text.TrimSpace(p.owner) == owner
  }

  /** Such an acquire gets the key unless another owner's lease outlives its clock. */
  lemma GrantedUnlessHeld(st: Store, step: Step, key: Key, owner: string)
    requires AsksFor(step, key, owner)
    ensures Hands(Apply(st, step).1, key, owner) <==> !LiveForOther(st.leases, key, owner, step.now)
  {
    hide NormalKey, Complaint;
  }

  /** The next handover, under any clocks: once i has handed `key` to `owner`, and nobody has been
      handed it since, another owner's acquire gets it exactly when its clock has reached the
      expiry, or a sweep of the key's scope that read such a clock committed in between. */
  lemma HandoverExactly(st: Store, steps: seq<Step>, i: nat, j: nat, key: Key, owner: string, other: string)
    requires i < j < |steps| && Unhanded(st, steps, i, j, key)
    requires Hands(ReplyAt(st, steps, i), key, owner)
    requires owner != other && AsksFor(steps[j], key, other)
    ensures var e := ReplyAt(st, steps, i).lease.expiresAt;
      Hands(ReplyAt(st, steps, j), key, other) <==> steps[j].now >= e || SweptBetween(steps, i, j, key, e)
  {
    LeaseStaysUntilSwept(st, steps, i, j, key, owner);
    GrantedUnlessHeld(Run(st, steps[..j]), steps[j], key, other);
    hide Apply, Run, SweptBetween, AsksFor;
  }

  /** With no such sweep, whoever else is handed the key next, is handed it after the expiry. */
  lemma HandoverWithoutSweeps(st: Store, steps: seq<Step>, i: nat, j: nat, key: Key, owner: string, other: string)
    requires i < j < |steps| && Unhanded(st, steps, i, j, key)
    requires Hands(ReplyAt(st, steps, i), key, owner)
    requires !SweptBetween(steps, i, j, key, ReplyAt(st, steps, i).lease.expiresAt)
    requires owner != other && Hands(ReplyAt(st, steps, j), key, other)
    ensures steps[j].now >= ReplyAt(st, steps, i).lease.expiresAt
  {
    LeaseStaysUntilSwept(st, steps, i, j, key, owner);
    StepOnKey(Run(st, steps[..j]), steps[j], key);
    hide Apply, Run, SweptBetween;
  }

  /** At m the key passed from `owner`'s lease: a sweep of its scope, or a grant to someone else,
      that read a clock at or past `e`. */
  ghost predicate EndsLease(st: Store, steps: seq<Step>, i: nat, j: nat, key: Key, owner: string, e: int, m: int) {
    && i < m < j <= |steps| && steps[m].now >= e
    && (Sweeps(steps[m], key) || exists o | o != owner :: Hands(ReplyAt(st, steps, m), key, o))
  }

  lemma {:induction false} LeaseStaysUntilEnded(st: Store, steps: seq<Step>, i: nat, p: nat, key: Key, owner: string)
    requires i < p <= |steps|
    requires Hands(ReplyAt(st, steps, i), key, owner)
    requires forall m | i < m < p :: !Hands(ReplyAt(st, steps, m), key, owner)
    ensures var (now, lease) := (Run(st, steps[..p]).leases, ReplyAt(st, steps, i).lease);
      || (key in now && now[key] == lease)
      || exists m :: EndsLease(st, steps, i, p, key, owner, lease.expiresAt, m)
    decreases p
  {
    hide Apply, Run, Sweeps;
    RunStep(st, steps, p - 1);
    var (before, step) := (Run(st, steps[..p - 1]), steps[p - 1]);
    StepOnKey(before, step, key);
    var (r, lease) := (ReplyAt(st, steps, p - 1), ReplyAt(st, steps, i).lease);
    if p - 1 != i {
      LeaseStaysUntilEnded(st, steps, i, p - 1, key, owner);
      if key in before.leases && before.leases[key] == lease {
        SweptExactly(before, step, key);
        if r.LeaseReply? && Hands(r, key, r.lease.owner) {
          assert r.lease.owner != owner;
        }
        assert EndsLease(st, steps, i, p, key, owner, lease.expiresAt, p - 1) || Run(st, steps[..p]).leases[key] == lease;
      } else {
        var m :| EndsLease(st, steps, i, p - 1, key, owner, lease.expiresAt, m);
        assert EndsLease(st, steps, i, p, key, owner, lease.expiresAt, m);
      }
    }
  }

  /** Why exclusion may fail, under any clocks: if another owner is handed the key at a clock before
      the expiry, then in between a sweep of its scope or a grant to another owner read a clock at
      or past it. In clock order that cannot be. */
  lemma EarlyHandoverHasCause(st: Store, steps: seq<Step>, i: nat, j: nat, key: Key, owner: string, other: string)
    requires i < j < |steps|
    requires Hands(ReplyAt(st, steps, i), key, owner)
    requires forall m | i < m < j :: !Hands(ReplyAt(st, steps, m), key, owner)
    requires owner != other && Hands(ReplyAt(st, steps, j), key, other)
    requires steps[j].now < ReplyAt(st, steps, i).lease.expiresAt
    ensures exists m :: EndsLease(st, steps, i, j, key, owner, ReplyAt(st, steps, i).lease.expiresAt, m)
  {
    LeaseStaysUntilEnded(st, steps, i, j, key, owner);
    StepOnKey(Run(st, steps[..j]), steps[j], key);
    hide Apply, Run, EndsLease;
  }

  const EMPTY := Store(map[], [])

  /** The audit log determines the lease table after every run, and each of its rows was due. */
  lemma {:induction false} LogRebuildsTable(steps: seq<Step>)
    ensures LogMatches(Run(EMPTY, steps))
  {
    if steps != [] {
      LogRebuildsTable(steps[..|steps| - 1]);
      StepKeepsLog(Run(EMPTY, steps[..|steps| - 1]), steps[|steps| - 1]);
    }
  }

  /** Every stored lease was renewed before it expires, under any clocks. In clock order it was also
      acquired no later than renewed, and renewed no later than the last transaction. */
  lemma {:induction false} LeaseTimesOrdered(steps: seq<Step>, key: Key)
    requires key in Run(EMPTY, steps).leases
    ensures var lease := Run(EMPTY, steps).leases[key];
      && lease.renewedAt < lease.expiresAt
      && (InClockOrder(steps) ==> lease.acquiredAt <= lease.renewedAt <= steps[|steps| - 1].now)
  {
    hide Apply;
    if steps != [] {
      var init, last := steps[..|steps| - 1], steps[|steps| - 1];
      StepOnKey(Run(EMPTY, init), last, key);
      if key in Run(EMPTY, init).leases {
        LeaseTimesOrdered(init, key);
      }
    }
  }

  // ----- Tenures -----

  /** Row i granted `key` to someone who did not hold it at that moment. */
  ghost predicate Opens(log: seq<AuditRow>, i: nat, key: Key)
    requires i < |log|
  {
    && log[i].key == key && log[i].reason == LeaseAcquired
    && !LiveFor(Replay(log[..i]), key, log[i].actor, log[i].createdAt)
  }

  /** The row leaves `owner` holding `key` without a gap, if it concerns `key` at all. */
  ghost predicate RowContinues(leases: map<Key, Lease>, row: AuditRow, key: Key, owner: string) {
    row.key == key ==>
      && row.reason != LeaseExpired
      && (row.reason in {LeaseAcquired, LeaseRenewed} ==>
            row.actor == owner && LiveFor(leases, key, owner, row.createdAt))
  }

  ghost predicate Continues(log: seq<AuditRow>, j: nat, key: Key, owner: string)
    requires j < |log|
  {
    RowContinues(Replay(log[..j]), log[j], key, owner)
  }

  /** The lease's AcquiredAt is the time of row i, which opened the owner's tenure, and the
      tenure has not been broken since. */
  ghost predicate HeldSince(log: seq<AuditRow>, i: nat, key: Key) {
    && i < |log| && key in Replay(log) && Opens(log, i, key)
    && Replay(log)[key].owner == log[i].actor && Replay(log)[key].acquiredAt == log[i].createdAt
    && forall j :: i < j < |log| ==> Continues(log, j, key, log[i].actor)
  }

  lemma {:induction false} TenureHasStart(log: seq<AuditRow>, key: Key) returns (i: nat)
    requires Lawful(log) && key in Replay(log)
    requires forall j :: 0 <= j < |log| ==> log[j].createdAt > 0
    ensures HeldSince(log, i, key)
  {
    hide Due, AcquiredAt;
    var n := |log| - 1;
    var init := log[..n];
    assert Due(Replay(log[..n]), log[n]);
    if Opens(log, n, key) {
      i := n;
      TenureStarts(Replay(init), log[n]);
    } else {
      LawfulPrefix(log, n);
      i := TenureHasStart(init, key);
      TenureGoesOn(Replay(init), log[n], key);
      assert log[..n][..i] == log[..i];
      forall j | i < j < |log| ensures Continues(log, j, key, log[i].actor) {
        if j < n {
          assert Continues(init, j, key, init[i].actor) && init[..j] == log[..j];
        }
      }
    }
  }

  lemma LawfulPrefix(log: seq<AuditRow>, n: nat)
    requires Lawful(log) && n <= |log|
    ensures Lawful(log[..n])
  {
    hide Replay, Due;
    forall j | 0 <= j < n ensures Due(Replay(log[..n][..j]), log[..n][j]) {
      assert log[..n][..j] == log[..j];
      assert Due(Replay(log[..j]), log[j]);
    }
  }

  /** A due row that does not open a tenure leaves the owner and AcquiredAt of what it finds. */
  lemma TenureGoesOn(leases: map<Key, Lease>, row: AuditRow, key: Key)
    requires Due(leases, row) && key in ReplayRow(leases, row)
    requires key in leases && leases[key].acquiredAt > 0
    requires row.key == key && row.reason == LeaseAcquired ==> LiveFor(leases, key, row.actor, row.createdAt)
    ensures ReplayRow(leases, row)[key].owner == leases[key].owner
    ensures ReplayRow(leases, row)[key].acquiredAt == leases[key].acquiredAt
    ensures RowContinues(leases, row, key, leases[key].owner)
  {
  }

  /** A grant to someone who did not hold the key dates the lease now. */
  lemma TenureStarts(leases: map<Key, Lease>, row: AuditRow)
    requires row.reason == LeaseAcquired && !LiveFor(leases, row.key, row.actor, row.createdAt)
    ensures var lease := ReplayRow(leases, row)[row.key];
      lease.owner == row.actor && lease.acquiredAt == row.createdAt
  {
  }

  lemma NewRowsTellTheTime(st: Store, step: Step)
    ensures var st' := Apply(st, step).0;
      && st.audit <= st'.audit
      && forall j :: |st.audit| <= j < |st'.audit| ==> st'.audit[j].createdAt == step.now
  {
    hide Listing, NormalKey, Complaint;
  }

  lemma {:induction false} LogTimesAreClockTimes(steps: seq<Step>, j: nat)
    requires j < |Run(EMPTY, steps).audit|
    ensures exists i :: 0 <= i < |steps| && Run(EMPTY, steps).audit[j].createdAt == steps[i].now
  {
    hide Apply;
    if steps != [] {
      var n := |steps| - 1;
      NewRowsTellTheTime(Run(EMPTY, steps[..n]), steps[n]);
      if j < |Run(EMPTY, steps[..n]).audit| {
        LogTimesAreClockTimes(steps[..n], j);
        var i :| 0 <= i < n && Run(EMPTY, steps[..n]).audit[j].createdAt == steps[..n][i].now;
        assert Run(EMPTY, steps).audit[j].createdAt == steps[i].now;
      } else {
        assert Run(EMPTY, steps).audit[j].createdAt == steps[n].now;
      }
    }
  }

  /** AcquiredAt stays fixed through an unbroken tenure: after every run on a clock past 1970,
      it is the time of the grant that opened the owner's current tenure. */
  lemma AcquiredAtOpensTenure(steps: seq<Step>, key: Key) returns (i: nat)
    requires forall s | s in steps :: s.now > 0
    requires key in Run(EMPTY, steps).leases
    ensures HeldSince(Run(EMPTY, steps).audit, i, key)
  {
    var st := Run(EMPTY, steps);
    LogRebuildsTable(steps);
    forall j | 0 <= j < |st.audit| ensures st.audit[j].createdAt > 0 {
      LogTimesAreClockTimes(steps, j);
    }
    i := TenureHasStart(st.audit, key);
  }

  /** A re-acquire by the live holder keeps AcquiredAt exactly when it is positive, or equal to
      the new time anyway: a tenure opened at or before 1970 is redated. */
  lemma ReacquireKeepsAcquiredAt(st: Store, env: Env, p: Params, now: int64, key: Key, owner: string)
    requires Hands(Acquire(st, env, p, now).1, key, owner) && LiveFor(st.leases, key, owner, now)
    ensures Acquire(st, env, p, now).0.leases[key].acquiredAt == st.leases[key].acquiredAt
       <==> st.leases[key].acquiredAt > 0 || st.leases[key].acquiredAt == now
  {
  }

  lemma ThreeSteps(s0: Step, s1: Step, s2: Step)
    ensures var (steps, t) := ([s0, s1, s2], Apply(EMPTY, s0).0);
      && ReplyAt(EMPTY, steps, 0) == Apply(EMPTY, s0).1
      && ReplyAt(EMPTY, steps, 1) == Apply(t, s1).1
      && ReplyAt(EMPTY, steps, 2) == Apply(Apply(t, s1).0, s2).1
  {
    hide Apply;
    var steps := [s0, s1, s2];
    assert steps[..0] == [] && steps[..1] == [s0] && steps[..2] == [s0, s1];
    assert [s0][..0] == [] && [s0, s1][..1] == [s0];
  }

  /** What an acquire that nobody stands in the way of leaves. */
  lemma GrantLeaves(st: Store, step: Step, key: Key, owner: string)
    requires AsksFor(step, key, owner) && !LiveForOther(st.leases, key, owner, step.now)
    ensures var (st', r) := Apply(st, step);
      && Hands(r, key, owner) && r.lease.expiresAt == step.now + step.call.params.ttl
      && key in st'.leases && st'.leases[key] == r.lease
  {
    hide NormalKey, Complaint;
  }

  /** A live holder's renewal hands it the key again. */
  lemma HolderRenews(st: Store, step: Step, key: Key, owner: string)
    requires step.call.RenewCall? && LiveFor(st.leases, key, owner, step.now)
    requires var p := step.call.params;
      && Complaint(step.env, p) == [] && !Overflows(step.now, p.ttl) && Text.TrimSpace(p.owner) == owner
      && NormalKey(step.env, p.workspace, p.profile, p.peer, p.action) == key && key in step.env.actions
    ensures Hands(Apply(st, step).1, key, owner)
  {
    hide NormalKey, Complaint;
  }

  const TRIAL_KEY := Key("w", "", "p", "x")
  const TRIAL_ENV := Env(true, "w", {TRIAL_KEY})

  function Trial(owner: string): Params {
    Params("w", "", "p", "x", owner, 10)
  }

  lemma TrialIsComplete(owner: string)
    requires Text.TrimSpace(owner) == owner != ""
    ensures Complaint(TRIAL_ENV, Trial(owner)) == [] && NormalKey(TRIAL_ENV, "w", "", "p", "x") == TRIAL_KEY
  {
    assert Text.TrimSpace("w") == "w" && Text.TrimSpace("p") == "p" && Text.TrimSpace("x") == "x" && Text.TrimSpace("") == "";
    hide Text.TrimSpace;
  }

  lemma TrialAsks(owner: string, now: int64)
    requires Text.TrimSpace(owner) == owner != "" && now <= 1000
    ensures AsksFor(Step(TRIAL_ENV, AcquireCall(Trial(owner)), now), TRIAL_KEY, owner)
  {
    TrialIsComplete(owner);
    hide Complaint, NormalKey;
  }

  lemma TrialSweeps(now: int64)
    ensures Sweeps(Step(TRIAL_ENV, ExpireCall(Sweep("w", "", "p", "x")), now), TRIAL_KEY)
  {
    TrialIsComplete("a") by { assert Text.TrimSpace("a") == "a"; }
    hide NormalKey, Complaint;
  }

  /** A sweep answers with what it swept, and hands nothing to anybody. */
  lemma SweepHandsNothing(st: Store, step: Step, key: Key, owner: string)
    requires step.call.ExpireCall?
    ensures !Hands(Apply(st, step).1, key, owner)
  {
    hide NormalKey, Listing, ExpireRows;
  }

  /** Exclusion needs commits to follow the clock: a sweep that read a later clock but committed
      first lets a second owner in before the first lease has run out. */
  lemma ExclusionNeedsClockOrder() returns (steps: seq<Step>, key: Key)
    ensures |steps| == 3 && !InClockOrder(steps)
    ensures Hands(ReplyAt(EMPTY, steps, 0), key, "a") && Hands(ReplyAt(EMPTY, steps, 2), key, "b")
    ensures !Hands(ReplyAt(EMPTY, steps, 1), key, "a")
    ensures steps[2].now < ReplyAt(EMPTY, steps, 0).lease.expiresAt
  {
    assert Text.TrimSpace("a") == "a" && Text.TrimSpace("b") == "b";
    key := TRIAL_KEY;
    var s0 := Step(TRIAL_ENV, AcquireCall(Trial("a")), 100);
    var s1 := Step(TRIAL_ENV, ExpireCall(Sweep("w", "", "p", "x")), 200);
    var s2 := Step(TRIAL_ENV, AcquireCall(Trial("b")), 105);
    steps := [s0, s1, s2];
    assert steps[1].now > steps[2].now;
    hide Apply, Run, ReplyAt, Text.TrimSpace, AsksFor, Sweeps;
    TrialAsks("a", 100);
    TrialSweeps(200);
    TrialAsks("b", 105);
    ThreeSteps(s0, s1, s2);
    var t1 := Apply(EMPTY, s0).0;
    GrantLeaves(EMPTY, s0, key, "a");
    SweptExactly(t1, s1, key);
    SweepHandsNothing(t1, s1, key, "a");
    GrantLeaves(Apply(t1, s1).0, s2, key, "b");
  }

  /** Without any sweep exclusion needs it too: "b" is handed the key after the expiry of "a", and
      then renews it by a clock from before. */
  lemma ExclusionNeedsClockOrderUnswept() returns (steps: seq<Step>, key: Key)
    ensures |steps| == 3 && !InClockOrder(steps) && forall m | 0 <= m < 3 :: !steps[m].call.ExpireCall?
    ensures Hands(ReplyAt(EMPTY, steps, 0), key, "a") && Hands(ReplyAt(EMPTY, steps, 2), key, "b")
    ensures !Hands(ReplyAt(EMPTY, steps, 1), key, "a")
    ensures steps[2].now < ReplyAt(EMPTY, steps, 0).lease.expiresAt
  {
    assert Text.TrimSpace("a") == "a" && Text.TrimSpace("b") == "b";
    key := TRIAL_KEY;
    var s0 := Step(TRIAL_ENV, AcquireCall(Trial("a")), 100);
    var s1 := Step(TRIAL_ENV, AcquireCall(Trial("b")), 120);
    var s2 := Step(TRIAL_ENV, RenewCall(Trial("b")), 50);
    steps := [s0, s1, s2];
    assert steps[1].now > steps[2].now;
    hide Apply, Run, ReplyAt, Text.TrimSpace, AsksFor, NormalKey, Complaint;
    TrialAsks("a", 100);
    TrialAsks("b", 120);
    TrialIsComplete("b");
    ThreeSteps(s0, s1, s2);
    var t1 := Apply(EMPTY, s0).0;
    GrantLeaves(EMPTY, s0, key, "a");
    GrantLeaves(t1, s1, key, "b");
    HolderRenews(Apply(t1, s1).0, s2, key, "b");
  }
}
