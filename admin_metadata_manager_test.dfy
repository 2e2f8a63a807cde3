/** The unit tests of the metadata manager as verified scenarios. Each scenario drives a fresh
    manager with an explicit clock `time` (starting at any reading `start`) and returns what
    the test observes, in order; its postcondition is the list of values the test asserts. */
module AdminMetadataManagerTest {
  import M = MetadataModel
  import opened AdminMetadata

  const RefreshBackoffMs: nat := 100
  const MetadataExpireMs: nat := 60000

  /** A snapshot built from one seed address. */
  const BootstrapCluster: M.Cluster := M.Cluster(true, 1)

  /** A live cluster of three nodes. */
  const MockCluster: M.Cluster := M.Cluster(false, 3)

  method TestSetUsingBootstrapControllers(usingBootstrapControllers: bool) returns (observed: bool)
    ensures observed == usingBootstrapControllers
  {
    var manager := new AdminMetadataManager(RefreshBackoffMs, MetadataExpireMs, usingBootstrapControllers);
    observed := manager.UsingBootstrapControllers();
  }

  method TestMetadataReady(start: int) returns (readiness: seq<M.Result<bool>>, delays: seq<int>)
    ensures readiness == [M.Ok(false), M.Ok(false), M.Ok(true)]
    ensures delays == [0, 0, MetadataExpireMs, 0]
  {
    var time := start;
    var mgr := new AdminMetadataManager(RefreshBackoffMs, MetadataExpireMs, false);
    // not ready on initialization
    var r0 := mgr.IsReady();
    var d0 := mgr.MetadataFetchDelayMs(time);
    // not ready when only bootstrap servers are known
    mgr.Update(BootstrapCluster, time);
    var r1 := mgr.IsReady();
    var d1 := mgr.MetadataFetchDelayMs(time);
    mgr.Update(MockCluster, time);
    var r2 := mgr.IsReady();
    var d2 := mgr.MetadataFetchDelayMs(time);
    time := time + MetadataExpireMs;
    var d3 := mgr.MetadataFetchDelayMs(time);
    readiness := [r0, r1, r2];
    delays := [d0, d1, d2, d3];
  }

  method TestMetadataRefreshBackoff(start: int) returns (delays: seq<int>)
    ensures delays == [M.LongMaxValue, RefreshBackoffMs, RefreshBackoffMs, 0]
  {
    var time := start;
    var mgr := new AdminMetadataManager(RefreshBackoffMs, MetadataExpireMs, false);
    mgr.TransitionToUpdatePending(time);
    var d0 := mgr.MetadataFetchDelayMs(time);
    mgr.UpdateFailed(M.Transient);
    var d1 := mgr.MetadataFetchDelayMs(time);
    // an explicit request still respects the backoff
    mgr.RequestUpdate();
    var d2 := mgr.MetadataFetchDelayMs(time);
    time := time + RefreshBackoffMs;
    var d3 := mgr.MetadataFetchDelayMs(time);
    delays := [d0, d1, d2, d3];
  }

  /** Shared by the authentication and the authorization test: a fatal failure of kind `e`. */
  method FatalFailureScenario(start: int, e: M.FailureKind)
    returns (delay: int, before: M.Result<bool>, after: M.Result<bool>)
    requires e.IsFatal()
    ensures delay == RefreshBackoffMs
    ensures before == M.Err(e)
    ensures after == M.Ok(true)
  {
    var time := start;
    var mgr := new AdminMetadataManager(RefreshBackoffMs, MetadataExpireMs, false);
    mgr.TransitionToUpdatePending(time);
    mgr.UpdateFailed(e);
    delay := mgr.MetadataFetchDelayMs(time);
    before := mgr.IsReady();
    mgr.Update(MockCluster, time);
    after := mgr.IsReady();
  }

  method TestAuthenticationFailure(start: int)
    returns (delay: int, before: M.Result<bool>, after: M.Result<bool>)
    ensures delay == RefreshBackoffMs
    ensures before == M.Err(M.AuthenticationFailure)
    ensures after == M.Ok(true)
  {
    delay, before, after := FatalFailureScenario(start, M.AuthenticationFailure);
  }

  method TestAuthorizationFailure(start: int)
    returns (delay: int, before: M.Result<bool>, after: M.Result<bool>)
    ensures delay == RefreshBackoffMs
    ensures before == M.Err(M.AuthorizationFailure)
    ensures after == M.Ok(true)
  {
    delay, before, after := FatalFailureScenario(start, M.AuthorizationFailure);
  }

  method TestNeedsRebootstrap(start: int) returns (answers: seq<bool>)
    ensures answers == [false, false,  false, true,  false, true,  false, false,
                        false, true,  true, false, false, true,  true, false, false, true]
  {
    var time := start;
    var mgr := new AdminMetadataManager(RefreshBackoffMs, MetadataExpireMs, false);
    var trigger := 1000;
    mgr.Update(BootstrapCluster, time);
    var a0 := mgr.NeedsRebootstrap(time, trigger);
    var a1 := mgr.NeedsRebootstrap(time + 2000, trigger);

    mgr.TransitionToUpdatePending(time);
    var a2 := mgr.NeedsRebootstrap(time, trigger);
    var a3 := mgr.NeedsRebootstrap(time + 1001, trigger);

    // the failure does not move the start of the window
    time := time + 100;
    mgr.UpdateFailed(M.Transient);
    var a4 := mgr.NeedsRebootstrap(time + 900, trigger);
    var a5 := mgr.NeedsRebootstrap(time + 901, trigger);

    // a success closes the window
    time := time + 1000;
    mgr.Update(MockCluster, time);
    var a6 := mgr.NeedsRebootstrap(time, trigger);
    var a7 := mgr.NeedsRebootstrap(time + 2000, trigger);

    time := time + 1000;
    mgr.TransitionToUpdatePending(time);
    var a8 := mgr.NeedsRebootstrap(time, trigger);
    var a9 := mgr.NeedsRebootstrap(time + 1001, trigger);

    // rebootstrap re-arms the window at the current time
    time := time + 1001;
    var a10 := mgr.NeedsRebootstrap(time, trigger);
    mgr.Rebootstrap(time);
    var a11 := mgr.NeedsRebootstrap(time, trigger);
    var a12 := mgr.NeedsRebootstrap(time + 1000, trigger);
    var a13 := mgr.NeedsRebootstrap(time + 1001, trigger);

    // a forced rebootstrap is due at once, until the next rebootstrap
    mgr.InitiateRebootstrap();
    var a14 := mgr.NeedsRebootstrap(time, trigger);
    mgr.Rebootstrap(time);
    var a15 := mgr.NeedsRebootstrap(time, trigger);
    var a16 := mgr.NeedsRebootstrap(time + 1000, trigger);
    var a17 := mgr.NeedsRebootstrap(time + 1001, trigger);

    answers := [a0, a1, a2, a3, a4, a5, a6, a7, a8, a9, a10, a11, a12, a13, a14, a15, a16, a17];
  }
}
