/** The abstract state of the admin client's metadata manager, its transitions and
    its three queries (readiness, fetch delay, rebootstrap decision), as pure values.
    The class in AdminMetadata is proved to follow these definitions call by call;
    the lemmas here state what the manager promises over any sequence of calls. */
module MetadataModel {

  /** Java's Long.MAX_VALUE: the delay answered while a fetch is already in flight. */
  const LongMaxValue: int := 0x7fff_ffff_ffff_ffff

  datatype Option<T> = None | Some(value: T)

  /** A cluster snapshot, reduced to what readiness depends on. */
  datatype Cluster = Cluster(isBootstrapConfigured: bool, nodeCount: nat) {
    /** Confirmed by a live fetch and not empty. */
    predicate IsUsable() {
      !isBootstrapConfigured && nodeCount > 0
    }
  }

  /** The snapshot a manager starts with: empty, built from no seed address. */
  const EmptyBootstrap: Cluster := Cluster(true, 0)

  /** How a metadata fetch failed. */
  datatype FailureKind = Transient | AuthenticationFailure | AuthorizationFailure {
    /** Authentication and authorization failures are sticky until a success. */
    predicate IsFatal() {
      AuthenticationFailure? || AuthorizationFailure?
    }
  }

  /** The outcome of a readiness check: a value, or the sticky error it raises. */
  datatype Result<T> = Ok(value: T) | Err(error: FailureKind)

  /** Whether a fetch is idle, explicitly asked for, or in flight. */
  datatype Mode = Quiescent | UpdateRequested | UpdatePending

  /** The constructor's arguments; they never change. */
  datatype Config = Config(refreshBackoffMs: nat, metadataExpireMs: nat, usingBootstrapControllers: bool)

  datatype State = State(
    config: Config,
    cluster: Cluster,                     // the current snapshot
    bootstrapCluster: Cluster,            // the last bootstrap-only snapshot handed to update
    lastUpdateMs: Option<int>,            // time of the last successful update
    lastAttemptMs: Option<int>,           // time of the last fetch attempt
    mode: Mode,
    fatalError: Option<FailureKind>,      // sticky authentication/authorization failure
    stuckSinceMs: Option<int>,            // start of the stuck window
    rebootstrapForced: bool)

  /** The snapshot kept for rebootstrap is always a bootstrap-only one. */
  predicate Valid(s: State) {
    s.bootstrapCluster.isBootstrapConfigured
  }

  function Init(config: Config): (s: State) {
    State(config, EmptyBootstrap, EmptyBootstrap, None, None, Quiescent, None, None, false)
  }

  function Max(a: int, b: int): (m: int) {
    if a < b then b else a
  }

  // ----- queries -----

  /** isReady(): raises the sticky error if there is one, otherwise tells whether the
      snapshot is usable. */
  function Readiness(s: State): (r: Result<bool>) {
    if s.fatalError.Some? then Err(s.fatalError.value) else Ok(s.cluster.IsUsable())
  }

  /** The clock reads no earlier than any time the manager recorded. */
  predicate ClockNotBehind(s: State, now: int) {
    (s.lastAttemptMs.Some? ==> s.lastAttemptMs.value <= now) &&
    (s.lastUpdateMs.Some? ==> s.lastUpdateMs.value <= now)
  }

  /** Milliseconds of backoff left since the last fetch attempt, whether that attempt
      succeeded or failed. */
  function BackoffRemaining(s: State, now: int): (d: nat) {
    match s.lastAttemptMs
    case None => 0
    case Some(attempt) => Max(0, s.config.refreshBackoffMs - (now - attempt))
  }

  /** Milliseconds until a usable snapshot expires. A manager that is not ready (its
      snapshot is unusable, or it holds a sticky failure) is due at once. */
  function ExpiryRemaining(s: State, now: int): (d: nat) {
    if s.fatalError.Some? || !s.cluster.IsUsable() then 0
    else match s.lastUpdateMs
      case None => 0
      case Some(updated) => Max(0, s.config.metadataExpireMs - (now - updated))
  }

  /** metadataFetchDelayMs(now): never a second fetch while one is in flight; an explicit
      request is still held back by the backoff; otherwise the later of backoff and expiry. */
  function FetchDelay(s: State, now: int): (d: int)
    ensures s.mode.UpdatePending? ==> d == LongMaxValue
    ensures !s.mode.UpdatePending? ==> 0 <= d
    ensures !s.mode.UpdatePending? && ClockNotBehind(s, now) ==>
      d <= Max(s.config.refreshBackoffMs, s.config.metadataExpireMs)
    ensures !s.mode.UpdatePending? ==> BackoffRemaining(s, now) <= d
  {
    match s.mode
    case UpdatePending => LongMaxValue
    case UpdateRequested => BackoffRemaining(s, now)
    case Quiescent => Max(BackoffRemaining(s, now), ExpiryRemaining(s, now))
  }

  /** needsRebootstrap(now, triggerMs): forced, or stuck for strictly more than triggerMs. */
  predicate NeedsRebootstrapAt(s: State, now: int, triggerMs: int) {
    s.rebootstrapForced || (s.stuckSinceMs.Some? && now - s.stuckSinceMs.value > triggerMs)
  }

  // ----- transitions -----

  /** update(cluster, now): a successful fetch ends the attempt, the request, the sticky
      error and the stuck window. */
  function AfterUpdate(s: State, c: Cluster, now: int): (s': State) {
    s.(cluster := c,
       bootstrapCluster := if c.isBootstrapConfigured then c else s.bootstrapCluster,
       lastUpdateMs := Some(now),
       mode := Quiescent,
       fatalError := None,
       stuckSinceMs := None)
  }

  /** updateFailed(error): the attempt is over; a fatal error becomes sticky. */
  function AfterUpdateFailed(s: State, e: FailureKind): (s': State) {
    s.(mode := Quiescent,
       fatalError := if e.IsFatal() then Some(e) else s.fatalError)
  }

  /** requestUpdate(): an idle manager records the request; an in-flight attempt serves it. */
  function AfterRequestUpdate(s: State): (s': State) {
    if s.mode.Quiescent? then s.(mode := UpdateRequested) else s
  }

  /** transitionToUpdatePending(now): records the attempt and arms the stuck window
      unless it is already running. */
  function AfterTransitionToUpdatePending(s: State, now: int): (s': State) {
    s.(mode := UpdatePending,
       lastAttemptMs := Some(now),
       stuckSinceMs := if s.stuckSinceMs.None? then Some(now) else s.stuckSinceMs)
  }

  /** rebootstrap(now): back to the bootstrap snapshot, with the window re-armed at now. */
  function AfterRebootstrap(s: State, now: int): (s': State) {
    s.(cluster := s.bootstrapCluster,
       stuckSinceMs := Some(now),
       rebootstrapForced := false)
  }

  /** initiateRebootstrap(): rebootstrap is due whatever the clock says. */
  function AfterInitiateRebootstrap(s: State): (s': State) {
    s.(rebootstrapForced := true)
  }

  // ----- call sequences -----

  /** One call that changes the manager's state. */
  datatype Event =
    | Updated(cluster: Cluster, now: int)
    | Failed(kind: FailureKind)
    | RequestedUpdate
    | WentPending(now: int)
    | Rebootstrapped(now: int)
    | InitiatedRebootstrap

  function Apply(s: State, e: Event): (s': State) {
    match e
    case Updated(c, now) => AfterUpdate(s, c, now)
    case Failed(kind) => AfterUpdateFailed(s, kind)
    case RequestedUpdate => AfterRequestUpdate(s)
    case WentPending(now) => AfterTransitionToUpdatePending(s, now)
    case Rebootstrapped(now) => AfterRebootstrap(s, now)
    case InitiatedRebootstrap => AfterInitiateRebootstrap(s)
  }

  function Run(s: State, es: seq<Event>): (s': State)
    decreases |es|
  {
    if es == [] then s else Run(Apply(s, es[0]), es[1..])
  }

  predicate NoSuccess(es: seq<Event>) {
    forall i :: 0 <= i < |es| ==> !es[i].Updated?
  }

  predicate NoRebootstrap(es: seq<Event>) {
    forall i :: 0 <= i < |es| ==> !es[i].Rebootstrapped?
  }

  predicate NoOutcome(es: seq<Event>) {
    forall i :: 0 <= i < |es| ==> !es[i].Updated? && !es[i].Failed?
  }

  // ----- properties -----

  /** The configuration, and so usingBootstrapControllers(), survives every call sequence. */
  lemma {:induction false} ConfigNeverChanges(s: State, es: seq<Event>)
    ensures Run(s, es).config == s.config
    decreases |es|
  {
    if es != [] {
      ConfigNeverChanges(Apply(s, es[0]), es[1..]);
    }
  }

  /** Every state reached from a new manager is valid, whatever the calls. */
  lemma {:induction false} ValidAfterAnyCalls(s: State, es: seq<Event>)
    requires Valid(s)
    ensures Valid(Run(s, es))
    decreases |es|
  {
    if es != [] {
      ValidAfterAnyCalls(Apply(s, es[0]), es[1..]);
    }
  }

  /** A new manager is not ready, is due for a fetch at any time and is not stuck. */
  lemma InitialState(config: Config, now: int, triggerMs: int)
    ensures Valid(Init(config))
    ensures Readiness(Init(config)) == Ok(false)
    ensures FetchDelay(Init(config), now) == 0
    ensures !NeedsRebootstrapAt(Init(config), now, triggerMs)
  {
  }

  /** Updating with a bootstrap-only snapshot leaves the manager not ready and due for a
      fetch as soon as the backoff allows. */
  lemma BootstrapUpdateNotReady(s: State, c: Cluster, t: int, now: int)
    requires c.isBootstrapConfigured
    ensures Readiness(AfterUpdate(s, c, t)) == Ok(false)
    ensures FetchDelay(AfterUpdate(s, c, t), now) == BackoffRemaining(s, now)
  {
  }

  /** Updating with a usable snapshot at t makes the manager ready; the delay then counts
      down from metadataExpireMs to 0 at t + metadataExpireMs, unless a backoff is longer. */
  lemma UpdateSchedulesExpiry(s: State, c: Cluster, t: int, elapsed: nat)
    requires c.IsUsable()
    ensures Readiness(AfterUpdate(s, c, t)) == Ok(true)
    ensures FetchDelay(AfterUpdate(s, c, t), t + elapsed) ==
      Max(BackoffRemaining(s, t + elapsed), Max(0, s.config.metadataExpireMs - elapsed))
    ensures BackoffRemaining(s, t + elapsed) == 0 ==>
      FetchDelay(AfterUpdate(s, c, t), t + elapsed) == Max(0, s.config.metadataExpireMs - elapsed)
  {
  }

  /** From transitionToUpdatePending until the attempt succeeds or fails, whatever else is
      called, the delay is Long.MAX_VALUE: no concurrent fetch is scheduled. */
  lemma PendingSuppressesFetch(s: State, t: int, es: seq<Event>, now: int)
    requires NoOutcome(es)
    ensures Run(AfterTransitionToUpdatePending(s, t), es).mode == UpdatePending
    ensures FetchDelay(Run(AfterTransitionToUpdatePending(s, t), es), now) == LongMaxValue
  {
    PendingStaysPending(AfterTransitionToUpdatePending(s, t), es, now);
  }

  lemma {:induction false} PendingStaysPending(s: State, es: seq<Event>, now: int)
    requires s.mode.UpdatePending?
    requires NoOutcome(es)
    ensures Run(s, es).mode == UpdatePending
    ensures FetchDelay(Run(s, es), now) == LongMaxValue
    decreases |es|
  {
    if es != [] {
      assert !es[0].Updated? && !es[0].Failed?;
      assert NoOutcome(es[1..]) by {
        forall i | 0 <= i < |es[1..]| ensures !es[1..][i].Updated? && !es[1..][i].Failed? {
          assert es[1..][i] == es[i + 1];
        }
      }
      PendingStaysPending(Apply(s, es[0]), es[1..], now);
    }
  }

  /** A failed attempt started at t holds the next fetch back for refreshBackoffMs, counting
      down to 0, even once an update has been explicitly requested; when the manager is not
      ready afterwards (no usable snapshot, or a sticky failure) the request changes nothing. */
  lemma BackoffAfterFailure(s: State, t: int, e: FailureKind, elapsed: nat)
    ensures var failed := AfterUpdateFailed(AfterTransitionToUpdatePending(s, t), e);
      && FetchDelay(AfterRequestUpdate(failed), t + elapsed) ==
           Max(0, s.config.refreshBackoffMs - elapsed)
      && FetchDelay(failed, t + elapsed) >= Max(0, s.config.refreshBackoffMs - elapsed)
      && (!s.cluster.IsUsable() || s.fatalError.Some? || e.IsFatal() ==>
           FetchDelay(failed, t + elapsed) == Max(0, s.config.refreshBackoffMs - elapsed))
  {
  }

  /** An authentication or authorization failure reported by updateFailed. */
  predicate IsFatalFailure(e: Event) {
    e.Failed? && e.kind.IsFatal()
  }

  /** The last authentication or authorization failure in a call sequence, if any. */
  function LastFatalFailure(es: seq<Event>): (r: Option<FailureKind>)
    ensures r.None? <==> forall i :: 0 <= i < |es| ==> !IsFatalFailure(es[i])
    ensures r.Some? ==> r.value.IsFatal()
    ensures r.Some? ==> exists i :: 0 <= i < |es| && es[i] == Failed(r.value) &&
                                    (forall j :: i < j < |es| ==> !IsFatalFailure(es[j]))
    decreases |es|
  {
    if es == [] then None
    else if IsFatalFailure(es[|es| - 1]) then Some(es[|es| - 1].kind)
    else
      var r := LastFatalFailure(es[..|es| - 1]);
      assert forall i :: 0 <= i < |es| - 1 ==> es[..|es| - 1][i] == es[i];
      r
  }

  /** Running a sequence and then one more call is running the longer sequence. */
  lemma {:induction false} RunAppend(s: State, es: seq<Event>, e: Event)
    ensures Run(s, es + [e]) == Apply(Run(s, es), e)
    decreases |es|
  {
    if es == [] {
      assert [e][1..] == [];
    } else {
      assert (es + [e])[0] == es[0];
      assert (es + [e])[1..] == es[1..] + [e];
      RunAppend(Apply(s, es[0]), es[1..], e);
    }
  }

  /** The backoff runs from the last attempt even when that attempt succeeded: after an
      attempt at t and an update, an explicit request still waits out refreshBackoffMs. */
  lemma BackoffAfterSuccessfulAttempt(s: State, t: int, c: Cluster, updatedAt: int, elapsed: nat)
    ensures var updated := AfterUpdate(AfterTransitionToUpdatePending(s, t), c, updatedAt);
      FetchDelay(AfterRequestUpdate(updated), t + elapsed) == Max(0, s.config.refreshBackoffMs - elapsed)
  {
  }

  /** After an authentication or authorization failure e, every readiness check raises e
      again, through any calls other than a successful update; only a later fatal failure
      replaces it, and then the latest one is raised. */
  lemma FatalErrorIsSticky(s: State, e: FailureKind, es: seq<Event>)
    requires e.IsFatal()
    requires NoSuccess(es)
    ensures Readiness(AfterUpdateFailed(s, e)) == Err(e)
    ensures LastFatalFailure(es).None? ==> Readiness(Run(AfterUpdateFailed(s, e), es)) == Err(e)
    ensures LastFatalFailure(es).Some? ==>
      Readiness(Run(AfterUpdateFailed(s, e), es)) == Err(LastFatalFailure(es).value)
  {
    FatalStaysFatal(AfterUpdateFailed(s, e), es);
  }

  /** Without a successful update, the stored failure is the last fatal one called, or the
      one stored before the sequence if none was. */
  lemma {:induction false} FatalStaysFatal(s: State, es: seq<Event>)
    requires NoSuccess(es)
    ensures Run(s, es).fatalError ==
      if LastFatalFailure(es).Some? then LastFatalFailure(es) else s.fatalError
    decreases |es|
  {
    if es != [] {
      var init, last := es[..|es| - 1], es[|es| - 1];
      assert es == init + [last];
      assert !last.Updated?;
      assert NoSuccess(init) by {
        forall i | 0 <= i < |init| ensures !init[i].Updated? {
          assert init[i] == es[i];
        }
      }
      RunAppend(s, init, last);
      FatalStaysFatal(s, init);
    }
  }

  /** The first transitionToUpdatePending at t0 anchors the stuck window: through failures and
      further attempts, rebootstrap is needed exactly when forced or when now - t0 > triggerMs. */
  lemma StuckWindowAnchored(s: State, t0: int, es: seq<Event>, now: int, triggerMs: int)
    requires s.stuckSinceMs.None?
    requires NoSuccess(es) && NoRebootstrap(es)
    ensures Run(AfterTransitionToUpdatePending(s, t0), es).stuckSinceMs == Some(t0)
    ensures NeedsRebootstrapAt(Run(AfterTransitionToUpdatePending(s, t0), es), now, triggerMs) <==>
      Run(AfterTransitionToUpdatePending(s, t0), es).rebootstrapForced || now - t0 > triggerMs
  {
    WindowKeepsAnchor(AfterTransitionToUpdatePending(s, t0), es);
  }

  lemma {:induction false} WindowKeepsAnchor(s: State, es: seq<Event>)
    requires s.stuckSinceMs.Some?
    requires NoSuccess(es) && NoRebootstrap(es)
    ensures Run(s, es).stuckSinceMs == s.stuckSinceMs
    decreases |es|
  {
    if es != [] {
      assert !es[0].Updated? && !es[0].Rebootstrapped?;
      assert NoSuccess(es[1..]) && NoRebootstrap(es[1..]) by {
        forall i | 0 <= i < |es[1..]| ensures !es[1..][i].Updated? && !es[1..][i].Rebootstrapped? {
          assert es[1..][i] == es[i + 1];
        }
      }
      WindowKeepsAnchor(Apply(s, es[0]), es[1..]);
    }
  }

  /** A successful update closes the stuck window: unless forced, no horizon needs rebootstrap. */
  lemma UpdateClosesWindow(s: State, c: Cluster, t: int, now: int, triggerMs: int)
    ensures NeedsRebootstrapAt(AfterUpdate(s, c, t), now, triggerMs) <==> s.rebootstrapForced
  {
  }

  /** rebootstrap(t) clears a forced rebootstrap and re-arms the window at t. */
  lemma RebootstrapRearmsWindow(s: State, t: int, elapsed: int, triggerMs: int)
    requires Valid(s)
    ensures NeedsRebootstrapAt(AfterRebootstrap(s, t), t + elapsed, triggerMs) <==> elapsed > triggerMs
    ensures Readiness(AfterRebootstrap(s, t)).Ok? ==> Readiness(AfterRebootstrap(s, t)) == Ok(false)
  {
  }

  /** initiateRebootstrap() makes rebootstrap due at every time, through any calls up to
      the next rebootstrap. */
  lemma {:induction false} ForcedUntilRebootstrap(s: State, es: seq<Event>, now: int, triggerMs: int)
    requires NoRebootstrap(es)
    ensures NeedsRebootstrapAt(Run(AfterInitiateRebootstrap(s), es), now, triggerMs)
  {
    StaysForced(AfterInitiateRebootstrap(s), es);
  }

  lemma {:induction false} StaysForced(s: State, es: seq<Event>)
    requires s.rebootstrapForced
    requires NoRebootstrap(es)
    ensures Run(s, es).rebootstrapForced
    decreases |es|
  {
    if es != [] {
      assert !es[0].Rebootstrapped?;
      assert NoRebootstrap(es[1..]) by {
        forall i | 0 <= i < |es[1..]| ensures !es[1..][i].Rebootstrapped? {
          assert es[1..][i] == es[i + 1];
        }
      }
      StaysForced(Apply(s, es[0]), es[1..]);
    }
  }
}
