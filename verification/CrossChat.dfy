/** service/memory.go, cross-chat recall: `ExplainCrossChatRecall` says why a user's recall may
    widen to other chats, `selectMetadata` does the widening. They are coded apart, in two
    passes and in one. */
module CrossChat {
  import opened Text

  datatype Meta = Meta(sessionId: string, source: string, chatId: string, userId: string)

  datatype Filter = Filter(userId: string, sources: seq<string>, sessionIds: seq<string>,
                           currentSessionId: string, currentChatKey: string)

  /** Lower-casing and `strings.EqualFold`. */
  datatype Case = Case(lower: string -> string, equalFold: (string, string) -> bool)

  datatype SessionEvidence = SessionEvidence(sessionId: string, source: string, chatId: string,
                                             chatKey: string, current: bool)

  datatype Option<T> = None | Some(value: T)

  datatype Reason =
    | UnresolvedUser
    | BindingWithoutUser
    | BindingOfOther(userId: string)
    | UnknownBinding
    | NoSessions
    | Resolved

  datatype Evidence = Evidence(allowed: bool, reason: Reason, binding: Option<SessionEvidence>,
                               considered: nat, widened: nat, sessions: seq<SessionEvidence>)

  /** What `selectMetadata` returns: the sessions, or that another user is bound here, or nobody. */
  datatype Selection = Selected(metas: seq<Meta>) | DeniedFor(userId: string) | DeniedUnbound

  // ----- Filters -----

  /** `stringnorm.Unique`: normalized, non-empty, first occurrences in order. */
  function Unique(values: seq<string>, normalize: string -> string): seq<string> {
    if values == [] then []
    else
      var before := Unique(values[..|values| - 1], normalize);
      var v := normalize(values[|values| - 1]);
      if v == "" || v in before then before else before + [v]
  }

  function Sources(cs: Case, f: Filter): seq<string> {
    Unique(f.sources, s => cs.lower(TrimSpace(s)))
  }

  /** `normalizeSessionIDs`: a wildcard lifts the restriction. */
  function SessionIds(f: Filter): seq<string> {
    var ids := Unique(f.sessionIds, TrimSpace);
    if "*" in ids then [] else ids
  }

  predicate HasWildcard(sources: seq<string>) {
    exists s | s in sources :: TrimSpace(s) == "" || TrimSpace(s) == "*"
  }

  /** `sourcefilter.Allows` with empty sources not allowed. */
  predicate Allows(cs: Case, sources: seq<string>, kind: string) {
    || sources == [] || HasWildcard(sources)
    || (TrimSpace(kind) != "" && exists s | s in sources :: cs.equalFold(TrimSpace(s), TrimSpace(kind)))
  }

  predicate AllowsKindOrOrigin(cs: Case, sources: seq<string>, kind: string, origin: string) {
    sources == [] || HasWildcard(sources) || Allows(cs, sources, kind) || Allows(cs, sources, origin)
  }

  function ChatKey(m: Meta): string {
    var source, chatId := TrimSpace(m.source), TrimSpace(m.chatId);
    if source == "" || chatId == "" then "" else source + ":" + chatId
  }

  /** `metadataMatchesCurrent`. */
  predicate IsCurrent(cs: Case, f: Filter, m: Meta) {
    var session, key := TrimSpace(f.currentSessionId), TrimSpace(f.currentChatKey);
    || (session != "" && TrimSpace(m.sessionId) == session)
    || (key != "" && cs.equalFold(TrimSpace(ChatKey(m)), TrimSpace(key)))
  }

  predicate NeedsBinding(f: Filter) {
    TrimSpace(f.currentSessionId) != "" || TrimSpace(f.currentChatKey) != ""
  }

  function User(m: Meta): string {
    TrimSpace(m.userId)
  }

  function Asker(f: Filter): string {
    TrimSpace(f.userId)
  }

  /** The session is the asker's and passes the source and session filters. */
  predicate Admits(cs: Case, f: Filter, m: Meta) {
    && User(m) == Asker(f)
    && !(|Sources(cs, f)| > 0 && !AllowsKindOrOrigin(cs, Sources(cs, f), "turn", m.source))
    && !(|SessionIds(f)| > 0 && TrimSpace(m.sessionId) !in SessionIds(f))
  }

  function EvidenceOf(m: Meta, current: bool): SessionEvidence {
    SessionEvidence(TrimSpace(m.sessionId), TrimSpace(m.source), TrimSpace(m.chatId), ChatKey(m), current)
  }

  // ----- The two decisions as functions -----

  function Denied(reason: Reason, binding: Option<SessionEvidence>): Evidence {
    Evidence(false, reason, binding, 0, 0, [])
  }

  /** The outcome of the first pass over n records: a refusal, or the binding found so far. */
  datatype Binding = Refused(evidence: Evidence) | Bound(found: Option<SessionEvidence>)

  function FindBinding(cs: Case, f: Filter, metas: seq<Meta>, n: nat): Binding
    requires n <= |metas|
  {
    if n == 0 then Bound(None)
    else
      var before := FindBinding(cs, f, metas, n - 1);
      var m := metas[n - 1];
      if before.Refused? || !IsCurrent(cs, f, m) then before
      else
        var binding := Some(EvidenceOf(m, true));
        if User(m) == "" then Refused(Denied(BindingWithoutUser, binding))
        else if User(m) != Asker(f) then Refused(Denied(BindingOfOther(User(m)), binding))
        else Bound(binding)
  }

  function ListSessions(cs: Case, f: Filter, metas: seq<Meta>, n: nat): seq<SessionEvidence>
    requires n <= |metas|
  {
    if n == 0 then []
    else ListSessions(cs, f, metas, n - 1) +
         (if Admits(cs, f, metas[n - 1]) then [EvidenceOf(metas[n - 1], IsCurrent(cs, f, metas[n - 1]))] else [])
  }

  function CountWidened(sessions: seq<SessionEvidence>): nat {
    if sessions == [] then 0
    else CountWidened(sessions[..|sessions| - 1]) + if sessions[|sessions| - 1].current then 0 else 1
  }

  function Explain(cs: Case, f: Filter, metas: seq<Meta>): Evidence {
    if Asker(f) == "" then Denied(UnresolvedUser, None) else
    match FindBinding(cs, f, metas, |metas|)
    case Refused(e) => e
    case Bound(binding) =>
      if NeedsBinding(f) && binding == None then Denied(UnknownBinding, None)
      else
        var sessions := ListSessions(cs, f, metas, |metas|);
        if sessions == [] then Denied(NoSessions, binding)
        else Evidence(true, Resolved, binding, |sessions|, CountWidened(sessions), sessions)
  }

  /** The single pass of `selectMetadata` after n records. */
  datatype Scan = Stopped(selection: Selection) | Running(matched: bool, selected: seq<Meta>)

  function ScanMetas(cs: Case, f: Filter, metas: seq<Meta>, n: nat): Scan
    requires n <= |metas|
  {
    if n == 0 then Running(!NeedsBinding(f), [])
    else
      match ScanMetas(cs, f, metas, n - 1)
      case Stopped(r) => Stopped(r)
      case Running(matched, selected) =>
        var m := metas[n - 1];
        if IsCurrent(cs, f, m) && User(m) != Asker(f) then Stopped(DeniedFor(User(m)))
        else Running(matched || IsCurrent(cs, f, m), if Admits(cs, f, m) then selected + [m] else selected)
  }

  function Select(cs: Case, f: Filter, metas: seq<Meta>): Selection {
    if Asker(f) == "" then Selected([]) else
    match ScanMetas(cs, f, metas, |metas|)
    case Stopped(r) => r
    case Running(matched, selected) => if matched then Selected(selected) else DeniedUnbound
  }

  // ----- The two as the source writes them -----

  method ExplainCrossChatRecall(cs: Case, metas: seq<Meta>, f: Filter) returns (e: Evidence)
    ensures e == Explain(cs, f, metas)
  {
    hide TrimSpace, Sources, SessionIds, IsCurrent, Admits, ChatKey, NeedsBinding, EvidenceOf;
    if Asker(f) == "" {
      return Denied(UnresolvedUser, None);
    }
    var matched := !NeedsBinding(f);
    var binding: Option<SessionEvidence> := None;
    for i := 0 to |metas|
      invariant FindBinding(cs, f, metas, i) == Bound(binding)
      invariant FindBinding(cs, f, metas, |metas|).Refused? ==> FindBinding(cs, f, metas, i).Bound?
      invariant matched <==> !NeedsBinding(f) || binding != None
    {
      var m := metas[i];
      RefusalStays(cs, f, metas, i + 1, |metas|);
      if !IsCurrent(cs, f, m) {
        continue;
      }
      binding := Some(EvidenceOf(m, true));
      if User(m) == "" {
        return Denied(BindingWithoutUser, binding);
      }
      if User(m) != Asker(f) {
        return Denied(BindingOfOther(User(m)), binding);
      }
      matched := true;
    }
    if !matched {
      return Denied(UnknownBinding, binding);
    }
    var sessions: seq<SessionEvidence> := [];
    var widened := 0;
    for i := 0 to |metas|
      invariant sessions == ListSessions(cs, f, metas, i)
      invariant widened == CountWidened(sessions)
    {
      var m := metas[i];
      if !Admits(cs, f, m) {
        continue;
      }
      var item := EvidenceOf(m, IsCurrent(cs, f, m));
      assert (sessions + [item])[..|sessions|] == sessions;
      EvidenceCurrent(m, IsCurrent(cs, f, m));
      sessions := sessions + [item];
      if !item.current {
        widened := widened + 1;
      }
    }
    if |sessions| == 0 {
      return Denied(NoSessions, binding);
    }
    return Evidence(true, Resolved, binding, |sessions|, widened, sessions);
  }

  lemma EvidenceCurrent(m: Meta, current: bool)
    ensures EvidenceOf(m, current).current == current
  {
  }

  lemma {:induction false} RefusalStays(cs: Case, f: Filter, metas: seq<Meta>, n: nat, m: nat)
    requires n <= m <= |metas|
    ensures FindBinding(cs, f, metas, n).Refused? ==> FindBinding(cs, f, metas, m) == FindBinding(cs, f, metas, n)
  {
    hide IsCurrent, EvidenceOf, User, Asker;
    if n < m {
      RefusalStays(cs, f, metas, n, m - 1);
    }
  }

  method SelectMetadata(cs: Case, metas: seq<Meta>, f: Filter) returns (r: Selection)
    ensures r == Select(cs, f, metas)
  {
    hide TrimSpace, Sources, SessionIds, IsCurrent, Admits, NeedsBinding;
    if Asker(f) == "" {
      return Selected([]);
    }
    var matched := !NeedsBinding(f);
    var selected: seq<Meta> := [];
    for i := 0 to |metas|
      invariant ScanMetas(cs, f, metas, i) == Running(matched, selected)
    {
      var m := metas[i];
      StopStays(cs, f, metas, i + 1, |metas|);
      if IsCurrent(cs, f, m) {
        if User(m) != Asker(f) {
          return DeniedFor(User(m));
        }
        matched := true;
      }
      if !Admits(cs, f, m) {
        continue;
      }
      selected := selected + [m];
    }
    if !matched {
      return DeniedUnbound;
    }
    return Selected(selected);
  }

  lemma {:induction false} StopStays(cs: Case, f: Filter, metas: seq<Meta>, n: nat, m: nat)
    requires n <= m <= |metas|
    ensures ScanMetas(cs, f, metas, n).Stopped? ==> ScanMetas(cs, f, metas, m) == ScanMetas(cs, f, metas, n)
  {
    hide IsCurrent, Admits, User, Asker;
    if n < m {
      StopStays(cs, f, metas, n, m - 1);
    }
  }

  // ----- They agree -----

  /** The listed evidence describes the selected sessions, one to one and in order. */
  ghost predicate Describes(cs: Case, f: Filter, sessions: seq<SessionEvidence>, metas: seq<Meta>) {
    && |sessions| == |metas|
    && forall i | 0 <= i < |metas| :: sessions[i] == EvidenceOf(metas[i], IsCurrent(cs, f, metas[i]))
  }

  function RefusalOf(userId: string): Reason {
    if userId == "" then BindingWithoutUser else BindingOfOther(userId)
  }

  lemma {:induction false} PassesAgree(cs: Case, f: Filter, metas: seq<Meta>, n: nat)
    requires n <= |metas| && Asker(f) != ""
    ensures var (b, s) := (FindBinding(cs, f, metas, n), ScanMetas(cs, f, metas, n));
      && (b.Refused? <==> s.Stopped?)
      && (b.Refused? ==>
            && s.selection.DeniedFor? && b.evidence == Denied(b.evidence.reason, b.evidence.binding)
            && b.evidence.reason == RefusalOf(s.selection.userId))
      && (s.Running? ==>
            && (s.matched <==> !NeedsBinding(f) || b.found != None)
            && Describes(cs, f, ListSessions(cs, f, metas, n), s.selected)
            && (forall m | m in s.selected :: m in metas && Admits(cs, f, m)))
  {
    hide TrimSpace, Sources, SessionIds, IsCurrent, Admits, NeedsBinding, EvidenceOf, User, Asker;
    if n > 0 {
      PassesAgree(cs, f, metas, n - 1);
    }
  }

  /** For all records and filters, the explanation allows exactly when the selection succeeds
      with something in it. Then it lists the selected sessions one to one in order, and all of
      them belong to the asker; otherwise it lists none. A refusal over the current binding
      names the same user on both sides. */
  lemma ExplanationMatchesSelection(cs: Case, f: Filter, metas: seq<Meta>)
    ensures var (e, s) := (Explain(cs, f, metas), Select(cs, f, metas));
      && (e.allowed <==> s.Selected? && s.metas != [])
      && (e.allowed ==> Describes(cs, f, e.sessions, s.metas) && e.considered == |s.metas|)
      && (!e.allowed ==> e.sessions == [] && e.considered == 0 && e.widened == 0)
      && (s.Selected? ==> forall m | m in s.metas :: m in metas && User(m) == Asker(f))
      && (s.DeniedFor? <==> e.reason.BindingWithoutUser? || e.reason.BindingOfOther?)
      && (e.reason.BindingOfOther? ==> s.userId == e.reason.userId)
      && (s.DeniedUnbound? <==> e.reason.UnknownBinding?)
  {
    hide TrimSpace, Sources, SessionIds, IsCurrent, NeedsBinding, EvidenceOf, FindBinding, ScanMetas, ListSessions;
    if Asker(f) != "" {
      PassesAgree(cs, f, metas, |metas|);
    }
  }

  lemma {:induction false} BindingMeaning(cs: Case, f: Filter, metas: seq<Meta>, n: nat)
    requires n <= |metas|
    ensures var b := FindBinding(cs, f, metas, n);
      && (b.Bound? <==> forall i | 0 <= i < n && IsCurrent(cs, f, metas[i]) :: User(metas[i]) == Asker(f) != "")
      && (b.Bound? ==> (b.found != None <==> exists i :: 0 <= i < n && IsCurrent(cs, f, metas[i])))
      && (b.Refused? ==> !b.evidence.allowed)
  {
    hide IsCurrent, EvidenceOf, User, Asker;
    if n > 0 {
      BindingMeaning(cs, f, metas, n - 1);
    }
  }

  lemma {:induction false} ListingMeaning(cs: Case, f: Filter, metas: seq<Meta>, n: nat)
    requires n <= |metas|
    ensures ListSessions(cs, f, metas, n) != [] <==> exists i :: 0 <= i < n && Admits(cs, f, metas[i])
  {
    hide IsCurrent, Admits, EvidenceOf;
    if n > 0 {
      ListingMeaning(cs, f, metas, n - 1);
    }
  }

  /** What it takes to be allowed: a named asker; every record of the current chat or session is
      the asker's, and there is one if a current chat or session was named; and some session of
      the asker passes the filters. */
  lemma AllowedMeaning(cs: Case, f: Filter, metas: seq<Meta>)
    ensures Explain(cs, f, metas).allowed <==>
      && Asker(f) != ""
      && (forall i | 0 <= i < |metas| && IsCurrent(cs, f, metas[i]) :: User(metas[i]) == Asker(f))
      && (NeedsBinding(f) ==> exists i :: 0 <= i < |metas| && IsCurrent(cs, f, metas[i]))
      && (exists i :: 0 <= i < |metas| && Admits(cs, f, metas[i]))
  {
    hide IsCurrent, EvidenceOf, User, Asker, NeedsBinding, FindBinding, ListSessions, Admits;
    BindingMeaning(cs, f, metas, |metas|);
    ListingMeaning(cs, f, metas, |metas|);
  }

  lemma {:induction false} WidenedCounts(sessions: seq<SessionEvidence>)
    ensures CountWidened(sessions) <= |sessions|
    ensures CountWidened(sessions) == 0 <==> forall s | s in sessions :: s.current
  {
    if sessions != [] {
      WidenedCounts(sessions[..|sessions| - 1]);
      assert sessions == sessions[..|sessions| - 1] + [sessions[|sessions| - 1]];
    }
  }
}
