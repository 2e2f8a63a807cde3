/** The admin client's metadata manager as a mutable object: each call updates the fields in
    place, and is proved to move the abstract state exactly as MetadataModel says. */
module AdminMetadata {
  import M = MetadataModel

  class AdminMetadataManager {
    const refreshBackoffMs: nat
    const metadataExpireMs: nat
    const usingBootstrapControllers: bool

    var cluster: M.Cluster
    var bootstrapCluster: M.Cluster
    var lastMetadataUpdateMs: M.Option<int>
    var lastMetadataFetchAttemptMs: M.Option<int>
    var state: M.Mode
    var fatalError: M.Option<M.FailureKind>
    var stuckSinceMs: M.Option<int>
    var rebootstrapRequested: bool

    /** The abstract state the fields stand for. */
    ghost function Model(): M.State
      reads this
    {
      M.State(M.Config(refreshBackoffMs, metadataExpireMs, usingBootstrapControllers),
              cluster, bootstrapCluster, lastMetadataUpdateMs, lastMetadataFetchAttemptMs,
              state, fatalError, stuckSinceMs, rebootstrapRequested)
    }

    ghost predicate Valid()
      reads this
    {
      M.Valid(Model())
    }

    constructor (refreshBackoffMs: nat, metadataExpireMs: nat, usingBootstrapControllers: bool)
      ensures Valid()
      ensures Model() == M.Init(M.Config(refreshBackoffMs, metadataExpireMs, usingBootstrapControllers))
    {
      this.refreshBackoffMs := refreshBackoffMs;
      this.metadataExpireMs := metadataExpireMs;
      this.usingBootstrapControllers := usingBootstrapControllers;
      cluster := M.EmptyBootstrap;
      bootstrapCluster := M.EmptyBootstrap;
      lastMetadataUpdateMs := M.None;
      lastMetadataFetchAttemptMs := M.None;
      state := M.Quiescent;
      fatalError := M.None;
      stuckSinceMs := M.None;
      rebootstrapRequested := false;
    }

    // ----- queries -----

    function UsingBootstrapControllers(): (r: bool)
      reads this
      ensures r == Model().config.usingBootstrapControllers
    {
      usingBootstrapControllers
    }

    /** Err carries the sticky failure that the source raises as an exception. */
    function IsReady(): (r: M.Result<bool>)
      reads this
      ensures r == M.Readiness(Model())
    {
      if fatalError.Some? then M.Err(fatalError.value)
      else if cluster.nodeCount == 0 then M.Ok(false)
      else if cluster.isBootstrapConfigured then M.Ok(false)
      else M.Ok(true)
    }

    function DelayBeforeNextAttemptMs(now: int): (d: nat)
      reads this
      ensures d == M.BackoffRemaining(Model(), now)
    {
      match lastMetadataFetchAttemptMs
      case None => 0
      case Some(attempt) =>
        var timeSinceAttempt := now - attempt;
        M.Max(0, refreshBackoffMs - timeSinceAttempt)
    }

    function DelayBeforeNextExpireMs(now: int): (d: nat)
      reads this
      ensures d == M.ExpiryRemaining(Model(), now)
    {
      if fatalError.Some? || cluster.nodeCount == 0 || cluster.isBootstrapConfigured then 0
      else match lastMetadataUpdateMs
        case None => 0
        case Some(updated) =>
          var timeSinceUpdate := now - updated;
          M.Max(0, metadataExpireMs - timeSinceUpdate)
    }

    function MetadataFetchDelayMs(now: int): (d: int)
      reads this
      ensures d == M.FetchDelay(Model(), now)
    {
      match state
      case Quiescent => M.Max(DelayBeforeNextAttemptMs(now), DelayBeforeNextExpireMs(now))
      case UpdateRequested => DelayBeforeNextAttemptMs(now)
      case UpdatePending => M.LongMaxValue
    }

    predicate NeedsRebootstrap(now: int, rebootstrapTriggerMs: int): (r: bool)
      reads this
      ensures r <==> M.NeedsRebootstrapAt(Model(), now, rebootstrapTriggerMs)
    {
      rebootstrapRequested ||
      match stuckSinceMs
      case None => false
      case Some(startMs) => now - startMs > rebootstrapTriggerMs
    }

    // ----- state changes -----

    method Update(c: M.Cluster, now: int)
      requires Valid()
      modifies this
      ensures Valid()
      ensures Model() == M.AfterUpdate(old(Model()), c, now)
    {
      if c.isBootstrapConfigured {
        bootstrapCluster := c;
      }
      cluster := c;
      lastMetadataUpdateMs := M.Some(now);
      state := M.Quiescent;
      fatalError := M.None;
      stuckSinceMs := M.None;
    }

    method UpdateFailed(e: M.FailureKind)
      requires Valid()
      modifies this
      ensures Valid()
      ensures Model() == M.AfterUpdateFailed(old(Model()), e)
    {
      state := M.Quiescent;
      if e.IsFatal() {
        fatalError := M.Some(e);
      }
    }

    method RequestUpdate()
      requires Valid()
      modifies this
      ensures Valid()
      ensures Model() == M.AfterRequestUpdate(old(Model()))
    {
      if state == M.Quiescent {
        state := M.UpdateRequested;
      }
    }

    method TransitionToUpdatePending(now: int)
      requires Valid()
      modifies this
      ensures Valid()
      ensures Model() == M.AfterTransitionToUpdatePending(old(Model()), now)
    {
      state := M.UpdatePending;
      lastMetadataFetchAttemptMs := M.Some(now);
      if stuckSinceMs.None? {
        stuckSinceMs := M.Some(now);
      }
    }

    method Rebootstrap(now: int)
      requires Valid()
      modifies this
      ensures Valid()
      ensures Model() == M.AfterRebootstrap(old(Model()), now)
    {
      cluster := bootstrapCluster;
      stuckSinceMs := M.Some(now);
      rebootstrapRequested := false;
    }

    method InitiateRebootstrap()
      requires Valid()
      modifies this
      ensures Valid()
      ensures Model() == M.AfterInitiateRebootstrap(old(Model()))
    {
      rebootstrapRequested := true;
    }
  }
}
