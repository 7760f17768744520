/** service/provider_resilience.go: the circuit breaker around calls to a provider.
    Each step runs under the breaker's lock, so overlapping calls give some sequence of steps:
    a call begins (`beforeCall`), and later its outcome is recorded. Times are nanoseconds;
    0 is Go's zero time. */
module ProviderBreaker {

  datatype CircuitState = Closed | Open | HalfOpen

  datatype Event =
    | Begin(now: int)
    | Failed(now: int, error: string)
    | Succeeded

  datatype Config = Config(threshold: int, cooldown: int)

  datatype Fields = Fields(state: CircuitState, failureCount: nat, lastError: string, openedAt: int)

  const ZERO_TIME := 0
  const DEFAULT_THRESHOLD := 3
  const DEFAULT_COOLDOWN := 30_000_000_000

  /** What `NewProviderCircuitBreaker` makes of the configuration. */
  function Normalize(cfg: Config): (r: Config)
    ensures r.threshold >= 1 && r.cooldown >= 1
    ensures cfg.threshold >= 1 ==> r.threshold == cfg.threshold
    ensures cfg.cooldown >= 1 ==> r.cooldown == cfg.cooldown
  {
    Config(if cfg.threshold <= 0 then DEFAULT_THRESHOLD else cfg.threshold,
           if cfg.cooldown <= 0 then DEFAULT_COOLDOWN else cfg.cooldown)
  }

  // ----- The steps as functions -----

  const INITIAL := Fields(Closed, 0, "", ZERO_TIME)

  predicate Rejects(cfg: Config, f: Fields, now: int) {
    f.state == Open && now < f.openedAt + cfg.cooldown
  }

  function Step(cfg: Config, f: Fields, e: Event): Fields {
    match e
    case Begin(now) => if f.state == Open && !Rejects(cfg, f, now) then f.(state := HalfOpen) else f
    case Failed(now, error) =>
      var g := f.(failureCount := f.failureCount + 1, lastError := error);
      if g.failureCount >= cfg.threshold || f.state == HalfOpen
      then g.(state := Open, openedAt := now)
      else g
    case Succeeded => INITIAL
  }

  function Replay(cfg: Config, h: seq<Event>): Fields {
    if h == [] then INITIAL else Step(cfg, Replay(cfg, h[..|h| - 1]), h[|h| - 1])
  }

  lemma ReplayAppend(cfg: Config, h: seq<Event>, e: Event)
    ensures Replay(cfg, h + [e]) == Step(cfg, Replay(cfg, h), e)
  {
    assert (h + [e])[..|h|] == h;
  }

  // ----- The meaning of a history -----

  /** How many failures were recorded since the last success. */
  function Trailing(h: seq<Event>): nat {
    if h == [] then 0
    else match h[|h| - 1]
         case Begin(_) => Trailing(h[..|h| - 1])
         case Failed(_, _) => Trailing(h[..|h| - 1]) + 1
         case Succeeded => 0
  }

  /** Position i holds the last failure of `h`, and no success came after it. */
  ghost predicate LastFailureAt(h: seq<Event>, i: int) {
    0 <= i < |h| && h[i].Failed? && forall j | i < j < |h| :: h[j].Begin?
  }

  /** A call began after the failure at i, when the cooldown since i had passed. */
  ghost predicate ProbedSince(cfg: Config, h: seq<Event>, i: int)
    requires 0 <= i < |h| && h[i].Failed?
  {
    exists j :: i < j < |h| && h[j].Begin? && h[j].now >= h[i].now + cfg.cooldown
  }

  ghost predicate InClockOrder(h: seq<Event>) {
    forall i, j :: 0 <= i < j < |h| && !h[i].Succeeded? && !h[j].Succeeded? ==> h[i].now <= h[j].now
  }

  lemma {:induction false} FindLastFailure(h: seq<Event>) returns (i: nat)
    requires Trailing(h) > 0
    ensures LastFailureAt(h, i)
  {
    var n := |h| - 1;
    if h[n].Failed? {
      i := n;
    } else {
      i := FindLastFailure(h[..n]);
    }
  }

  lemma {:induction false} LastFailureTrails(h: seq<Event>, i: nat)
    requires LastFailureAt(h, i)
    ensures Trailing(h) > 0
  {
    var n := |h| - 1;
    if i < n {
      assert LastFailureAt(h[..n], i);
      LastFailureTrails(h[..n], i);
    }
  }

  lemma {:induction false} CountMeansHistory(cfg: Config, h: seq<Event>)
    requires cfg.threshold >= 1
    ensures var f := Replay(cfg, h);
      && f.failureCount == Trailing(h)
      && (f.state == Closed <==> Trailing(h) < cfg.threshold)
      && (Trailing(h) == 0 ==> f.lastError == "")
      && (Trailing(h) < cfg.threshold ==> f.openedAt == ZERO_TIME)
  {
    if h != [] {
      CountMeansHistory(cfg, h[..|h| - 1]);
    }
  }

  lemma {:induction false} LastFailureMeansHistory(cfg: Config, h: seq<Event>, i: int)
    requires cfg.threshold >= 1 && LastFailureAt(h, i)
    ensures var f := Replay(cfg, h);
      && f.lastError == h[i].error
      && (Trailing(h) >= cfg.threshold ==>
            f.openedAt == h[i].now && (f.state == HalfOpen <==> ProbedSince(cfg, h, i)))
  {
    var n := |h| - 1;
    var init := h[..n];
    CountMeansHistory(cfg, init);
    if i < n {
      assert LastFailureAt(init, i);
      LastFailureMeansHistory(cfg, init, i);
      ProbedSinceStep(cfg, h, i);
    }
  }

  lemma ProbedSinceStep(cfg: Config, h: seq<Event>, i: int)
    requires LastFailureAt(h, i) && i < |h| - 1
    ensures ProbedSince(cfg, h, i) <==>
      ProbedSince(cfg, h[..|h| - 1], i) || h[|h| - 1].now >= h[i].now + cfg.cooldown
  {
    var init := h[..|h| - 1];
    assert forall j | i < j < |init| :: init[j] == h[j];
    assert h[|h| - 1].Begin?;
  }

  /** The fields are a function of the history: the count is the trailing run of failures, the
      circuit is closed exactly while that run is below the threshold, it is half open exactly
      when a call has begun since the last failure with the cooldown over, and `openedAt` is
      the time of that failure. */
  lemma FieldsMeanHistory(cfg: Config, h: seq<Event>)
    requires cfg.threshold >= 1
    ensures var f := Replay(cfg, h);
      && f.failureCount == Trailing(h)
      && (f.state == Closed <==> Trailing(h) < cfg.threshold)
      && (Trailing(h) == 0 ==> f.lastError == "")
      && (Trailing(h) < cfg.threshold ==> f.openedAt == ZERO_TIME)
      && (forall i | LastFailureAt(h, i) ::
            && f.lastError == h[i].error
            && (Trailing(h) >= cfg.threshold ==>
                  f.openedAt == h[i].now && (f.state == HalfOpen <==> ProbedSince(cfg, h, i))))
  {
    hide Replay, Trailing;
    CountMeansHistory(cfg, h);
    forall i | LastFailureAt(h, i)
      ensures var f := Replay(cfg, h);
        && f.lastError == h[i].error
        && (Trailing(h) >= cfg.threshold ==>
              f.openedAt == h[i].now && (f.state == HalfOpen <==> ProbedSince(cfg, h, i)))
    {
      LastFailureMeansHistory(cfg, h, i);
    }
  }

  /** Under any clock: a call is let through exactly when the trailing run is below the
      threshold, or the cooldown since the last failure has passed, or an earlier call has
      already found it passed. */
  lemma AdmissionExact(cfg: Config, h: seq<Event>, now: int)
    requires cfg.threshold >= 1
    ensures !Rejects(cfg, Replay(cfg, h), now) <==>
      || Trailing(h) < cfg.threshold
      || (exists i :: LastFailureAt(h, i) && (now >= h[i].now + cfg.cooldown || ProbedSince(cfg, h, i)))
  {
    FieldsMeanHistory(cfg, h);
    if Trailing(h) >= cfg.threshold {
      var i := FindLastFailure(h);
      assert forall k :: LastFailureAt(h, k) ==> k == i;
    }
  }

  /** With a clock that never goes back, the third case adds nothing. */
  lemma AdmissionByHistory(cfg: Config, h: seq<Event>, now: int)
    requires cfg.threshold >= 1 && InClockOrder(h + [Begin(now)])
    ensures !Rejects(cfg, Replay(cfg, h), now) <==>
      || Trailing(h) < cfg.threshold
      || (exists i :: LastFailureAt(h, i) && now >= h[i].now + cfg.cooldown)
  {
    AdmissionExact(cfg, h, now);
    forall i | LastFailureAt(h, i) && ProbedSince(cfg, h, i)
      ensures now >= h[i].now + cfg.cooldown
    {
      var j :| i < j < |h| && h[j].Begin? && h[j].now >= h[i].now + cfg.cooldown;
      var g := h + [Begin(now)];
      assert g[j] == h[j] && g[|h|] == Begin(now);
    }
  }

  lemma {:induction false} TrailingGrows(h: seq<Event>, i: nat)
    requires i <= |h| && forall j | i <= j < |h| :: !h[j].Succeeded?
    ensures Trailing(h) >= Trailing(h[..i])
  {
    if i == |h| {
      assert h[..i] == h;
    } else {
      var n := |h| - 1;
      assert h[..n][..i] == h[..i];
      TrailingGrows(h[..n], i);
    }
  }

  lemma NoLaterFailure(h: seq<Event>, i: nat, k: int)
    requires i < |h| && h[i].Failed? && LastFailureAt(h, k)
    ensures i <= k
  {
  }

  /** Whole-run safety: once failure i has the trailing run at the threshold, no call j gets
      through within the cooldown of i, however calls overlap, unless one succeeds between. */
  lemma OpenCircuitHolds(cfg: Config, h: seq<Event>, i: nat, j: nat)
    requires cfg.threshold >= 1 && InClockOrder(h)
    requires i < j < |h| && h[i].Failed? && Trailing(h[..i + 1]) >= cfg.threshold
    requires forall k | i < k < j :: !h[k].Succeeded?
    requires h[j].Begin? && h[j].now < h[i].now + cfg.cooldown
    ensures Rejects(cfg, Replay(cfg, h[..j]), h[j].now)
  {
    var g := h[..j];
    assert g[..i + 1] == h[..i + 1];
    TrailingGrows(g, i + 1);
    assert h[..j + 1] == g + [h[j]];
    assert InClockOrder(g + [h[j]]) by {
      assert forall k | 0 <= k < j + 1 :: (g + [h[j]])[k] == h[k];
    }
    AdmissionByHistory(cfg, g, h[j].now);
    forall k | LastFailureAt(g, k) ensures h[j].now < g[k].now + cfg.cooldown {
      NoLaterFailure(g, i, k);
    }
  }

  /** Calls that were admitted and have not come to an outcome yet. */
  function InFlight(cfg: Config, h: seq<Event>): int {
    if h == [] then 0
    else
      var (before, e) := (h[..|h| - 1], h[|h| - 1]);
      InFlight(cfg, before) +
        if e.Begin? then (if Rejects(cfg, Replay(cfg, before), e.now) then 0 else 1) else -1
  }

  /** Every outcome is that of an admitted call that had none yet. */
  predicate Recordable(cfg: Config, h: seq<Event>) {
    h == [] || (Recordable(cfg, h[..|h| - 1]) && (h[|h| - 1].Begin? || InFlight(cfg, h[..|h| - 1]) > 0))
  }

  /** With a clock that may go back, a call can be let through inside the cooldown: here one
      begins at 40, after the cooldown of the failure at 10, and lets in the next one, at 15. */
  lemma AdmissionNeedsClockOrder() returns (cfg: Config, h: seq<Event>)
    ensures cfg.threshold >= 1 && Recordable(cfg, h) && !Rejects(cfg, Replay(cfg, h), 15)
    ensures Trailing(h) >= cfg.threshold && LastFailureAt(h, 1) && 15 < h[1].now + cfg.cooldown
  {
    cfg := Config(1, 20);
    var h1 := [Begin(0)];
    var h2 := [Begin(0), Failed(10, "down")];
    h := [Begin(0), Failed(10, "down"), Begin(40)];
    assert h1[..0] == [] && h2[..1] == h1 && h[..2] == h2;
    assert InFlight(cfg, h1) == 1 by { assert InFlight(cfg, []) == 0 && Replay(cfg, []) == INITIAL; }
    assert Recordable(cfg, h1) && Recordable(cfg, h2);
    assert Trailing(h1) == 0 && Trailing(h2) == 1 && Trailing(h) == 1;
    assert ProbedSince(cfg, h, 1) by { assert h[2].Begin?; }
    AdmissionExact(cfg, h, 15);
  }

  // ----- The breaker -----

  datatype Status = Healthy | Degraded

  datatype Health = Health(status: Status, state: CircuitState, lastError: string, failureCount: nat,
                           retryAfter: int)

  class ProviderCircuitBreaker {
    const cfg: Config
    var state: CircuitState
    var failureCount: nat
    var lastError: string
    var openedAt: int
    ghost var history: seq<Event>

    ghost predicate Valid()
      reads this
    {
      && cfg.threshold >= 1
      && Fields(state, failureCount, lastError, openedAt) == Replay(cfg, history)
    }

    constructor (cfg: Config)
      ensures Valid() && history == [] && this.cfg == Normalize(cfg)
    {
      this.cfg := Normalize(cfg);
      state, failureCount, lastError, openedAt := Closed, 0, "", ZERO_TIME;
      history := [];
    }

    /** `beforeCall`; the result says whether the call may proceed. */
    method BeforeCall(now: int) returns (admitted: bool)
      requires Valid()
      modifies this
      ensures Valid() && history == old(history) + [Begin(now)]
      ensures admitted <==> !Rejects(cfg, Replay(cfg, old(history)), now)
    {
      hide Replay;
      ReplayAppend(cfg, history, Begin(now));
      history := history + [Begin(now)];
      if state == Open {
        if now < openedAt + cfg.cooldown {
          return false;
        }
        state := HalfOpen;
      }
      return true;
    }

    method RecordFailure(error: string, now: int)
      requires Valid()
      modifies this
      ensures Valid() && history == old(history) + [Failed(now, error)]
    {
      hide Replay;
      ReplayAppend(cfg, history, Failed(now, error));
      history := history + [Failed(now, error)];
      failureCount := failureCount + 1;
      lastError := error;
      if failureCount >= cfg.threshold || state == HalfOpen {
        state := Open;
        openedAt := now;
      }
    }

    method RecordSuccess()
      requires Valid()
      modifies this
      ensures Valid() && history == old(history) + [Succeeded]
    {
      hide Replay;
      ReplayAppend(cfg, history, Succeeded);
      history := history + [Succeeded];
      failureCount := 0;
      lastError := "";
      state := Closed;
      openedAt := ZERO_TIME;
    }

    /** One call that does not overlap others. `errors` holds the error the callee returns, if
        any; the second clock reading is the one `recordFailure` takes. */
    method Execute(errors: seq<string>, before: int, after: int) returns (admitted: bool)
      requires Valid()
      modifies this
      ensures Valid()
      ensures admitted <==> !Rejects(cfg, Replay(cfg, old(history)), before)
      ensures history == old(history) + [Begin(before)] +
                (if !admitted then [] else if errors == [] then [Succeeded] else [Failed(after, errors[0])])
    {
      admitted := BeforeCall(before);
      if admitted {
        if errors != [] {
          RecordFailure(errors[0], after);
        } else {
          RecordSuccess();
        }
      }
    }

    /** Degraded exactly when the last recorded outcome was a failure. */
    method HealthReport() returns (r: Health)
      requires Valid()
      ensures r.status == Degraded <==> Trailing(history) > 0
      ensures r.state == state && r.lastError == lastError && r.failureCount == Trailing(history)
      ensures forall i | LastFailureAt(history, i) && state == Open && history[i].now != ZERO_TIME ::
                r.retryAfter == history[i].now + cfg.cooldown
      ensures state != Open ==> r.retryAfter == ZERO_TIME
    {
      FieldsMeanHistory(cfg, history);
      var status := Healthy;
      if state == Open || failureCount > 0 {
        status := Degraded;
      }
      var retryAfter := ZERO_TIME;
      if state == Open && openedAt != ZERO_TIME {
        retryAfter := openedAt + cfg.cooldown;
      }
      return Health(status, state, lastError, failureCount, retryAfter);
    }
  }
}
