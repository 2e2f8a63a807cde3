# Admin client metadata manager: freshness, backoff and rebootstrap

This project models `AdminMetadataManager`, the component of the Kafka admin client that
decides, from a millisecond clock alone, when cluster metadata must be fetched again, how long
to back off after a failed fetch, when an authentication or authorization failure must be
reported, and when the client has been stuck long enough to rebootstrap from its seed
addresses. The behaviour comes from the manager's unit test,
`AdminMetadataManagerTest.java`, call by call.

Three files, one module each:

- `metadata_model.dfy` (`MetadataModel`): the manager's state as a value. It holds the
  snapshot (bootstrap-only or not, and its node count), the last update time, the last
  fetch-attempt time and the quiescent / requested / pending mode. It also holds the sticky
  fatal error, the start of the stuck window, the forced-rebootstrap flag and the fixed
  configuration. Each call is a function from state to state. The three queries are
  `Readiness`, `FetchDelay` and `NeedsRebootstrapAt`. A call sequence is a `seq<Event>`
  run by `Run`, and the lemmas state what holds over such sequences.
- `admin_metadata_manager.dfy` (`AdminMetadata`): class `AdminMetadataManager` with mutable
  fields. Each method updates the fields in place and is proved to move `Model()` exactly as
  the matching `MetadataModel` transition does. Each query is a `reads this` function proved
  equal to the model's query.
- `admin_metadata_manager_test.dfy` (`AdminMetadataManagerTest`): each JUnit test as a
  scenario method. The scenario drives a fresh manager with an explicit clock that starts at
  any reading `start`. Its postcondition is the sequence of values the test asserts.

Time is an unbounded `int`, and `Long.MAX_VALUE` is the constant `LongMaxValue`. A snapshot is
abstracted to `Cluster(isBootstrapConfigured, nodeCount)`. A failure is one of `Transient`,
`AuthenticationFailure` and `AuthorizationFailure`. `isReady()` returns a `Result`, and its
`Err` carries the failure the source throws.

The manager's implementation file is not part of this model. The test fixes these choices:

- `updateFailed` takes no timestamp, so backoff runs from the attempt time that
  `transitionToUpdatePending(now)` recorded. The manager records only attempt times, so the
  backoff also follows an attempt that succeeded (`BackoffAfterSuccessfulAttempt`).
- `needsRebootstrap` is strict: it holds when `now - start > triggerMs`. The test shows this
  with +1000 false and +1001 true.
- `rebootstrap` takes only `now`, so the manager keeps the last bootstrap-only snapshot it
  was given and restores it.

Where the test is silent, the model makes these choices:

- The timestamps start unset, so a new manager is due for a fetch at any clock reading.
- A manager that is not ready has no expiry wait, so it is due as soon as the backoff
  allows. It is not ready when its snapshot is unusable or it holds a sticky failure.
- The manager has one mode: quiescent, requested or pending. `requestUpdate` moves only a
  quiescent manager to requested, and both `update` and `updateFailed` return it to
  quiescent. So a request is not kept across an attempt (see "Left out").
- `rebootstrap` changes only the snapshot, the forced flag and the window start.
- `initiateRebootstrap` sets a flag that only `rebootstrap` clears.

## Model

| member | source | states |
|---|---|---|
| `MetadataModel.FetchDelay` | clients/src/test/java/org/apache/kafka/clients/admin/internals/AdminMetadataManagerTest.java:76-90 | Long.MAX_VALUE while an attempt is pending. Otherwise never negative, never less than the remaining backoff, and at most the larger of refreshBackoffMs and metadataExpireMs when the clock is not behind the recorded times |
| `MetadataModel.ConfigNeverChanges` | clients/src/test/java/org/apache/kafka/clients/admin/internals/AdminMetadataManagerTest.java:48-54 | no call sequence changes the configuration, so usingBootstrapControllers() keeps the constructor's flag |
| `MetadataModel.ValidAfterAnyCalls` | clients/src/test/java/org/apache/kafka/clients/admin/internals/AdminMetadataManagerTest.java:115-140 | through any call sequence, the snapshot kept for rebootstrap stays bootstrap-only |
| `MetadataModel.InitialState` | clients/src/test/java/org/apache/kafka/clients/admin/internals/AdminMetadataManagerTest.java:57-60 | a new manager is valid and not ready. Its fetch delay is 0 at every time, and it never needs rebootstrap |
| `MetadataModel.BootstrapUpdateNotReady` | clients/src/test/java/org/apache/kafka/clients/admin/internals/AdminMetadataManagerTest.java:62-66 | after update with a bootstrap-only snapshot the manager is not ready (no error), and its delay is exactly the remaining backoff |
| `MetadataModel.UpdateSchedulesExpiry` | clients/src/test/java/org/apache/kafka/clients/admin/internals/AdminMetadataManagerTest.java:68-73 | after update with a usable snapshot at t, the manager is ready. Once backoff has elapsed, the delay at t + elapsed is max(0, metadataExpireMs - elapsed): metadataExpireMs at t, 0 at t + metadataExpireMs |
| `MetadataModel.PendingSuppressesFetch` | clients/src/test/java/org/apache/kafka/clients/admin/internals/AdminMetadataManagerTest.java:78-79 | from transitionToUpdatePending, through any calls other than update or updateFailed, the delay is Long.MAX_VALUE at every time |
| `MetadataModel.PendingStaysPending` | clients/src/test/java/org/apache/kafka/clients/admin/internals/AdminMetadataManagerTest.java:78-79 | a pending manager stays pending, with delay Long.MAX_VALUE, until an update or updateFailed |
| `MetadataModel.BackoffAfterFailure` | clients/src/test/java/org/apache/kafka/clients/admin/internals/AdminMetadataManagerTest.java:81-89 | after an attempt at t fails, requestUpdate does not shorten the wait: the delay at t + elapsed is max(0, refreshBackoffMs - elapsed). Without the request the delay is at least that. It is exactly that when the manager is then not ready: the snapshot is unusable, or a fatal failure is stored |
| `MetadataModel.FatalErrorIsSticky` | clients/src/test/java/org/apache/kafka/clients/admin/internals/AdminMetadataManagerTest.java:93-110 | an authentication or authorization failure e makes isReady raise e. Through any calls other than update, isReady keeps raising e, or the latest fatal failure among those calls if there is one |
| `MetadataModel.FatalStaysFatal` | clients/src/test/java/org/apache/kafka/clients/admin/internals/AdminMetadataManagerTest.java:95-97 | without a successful update, the stored failure is the last fatal failure called, or the one stored before if none was |
| `MetadataModel.LastFatalFailure` | clients/src/test/java/org/apache/kafka/clients/admin/internals/AdminMetadataManagerTest.java:95-107 | the last authentication or authorization failure of a call sequence. It is None iff the sequence has no fatal failure. Otherwise it is fatal, one of the sequence's failures, and no fatal failure follows it |
| `MetadataModel.RunAppend` | clients/src/test/java/org/apache/kafka/clients/admin/internals/AdminMetadataManagerTest.java:112-151 | running a call sequence and then one more call equals running the extended sequence |
| `MetadataModel.BackoffAfterSuccessfulAttempt` | clients/src/test/java/org/apache/kafka/clients/admin/internals/AdminMetadataManagerTest.java:78-89 | the backoff runs from the last attempt even when it succeeded: after an attempt at t and an update, a requested fetch waits max(0, refreshBackoffMs - elapsed) at t + elapsed |
| `MetadataModel.StuckWindowAnchored` | clients/src/test/java/org/apache/kafka/clients/admin/internals/AdminMetadataManagerTest.java:119-126 | the first transitionToUpdatePending at t0 anchors the window. Through later failures and attempts (no update, no rebootstrap), needsRebootstrap(now) holds iff forced or now - t0 > trigger |
| `MetadataModel.WindowKeepsAnchor` | clients/src/test/java/org/apache/kafka/clients/admin/internals/AdminMetadataManagerTest.java:123-126 | a running window keeps its start through every call except update and rebootstrap |
| `MetadataModel.UpdateClosesWindow` | clients/src/test/java/org/apache/kafka/clients/admin/internals/AdminMetadataManagerTest.java:115-131 | after a successful update, needsRebootstrap at any horizon holds iff a rebootstrap had been forced |
| `MetadataModel.RebootstrapRearmsWindow` | clients/src/test/java/org/apache/kafka/clients/admin/internals/AdminMetadataManagerTest.java:138-143 | after rebootstrap(t), needsRebootstrap(t + elapsed) holds iff elapsed > trigger, and isReady is false unless it raises a sticky failure |
| `MetadataModel.ForcedUntilRebootstrap` | clients/src/test/java/org/apache/kafka/clients/admin/internals/AdminMetadataManagerTest.java:145-150 | after initiateRebootstrap, needsRebootstrap is true at every time through any calls up to the next rebootstrap |
| `MetadataModel.StaysForced` | clients/src/test/java/org/apache/kafka/clients/admin/internals/AdminMetadataManagerTest.java:145-147 | a forced rebootstrap stays forced until rebootstrap |
| `AdminMetadata.AdminMetadataManager.constructor` | clients/src/test/java/org/apache/kafka/clients/admin/internals/AdminMetadataManagerTest.java:45-46 | the new object stands for the initial state with the given backoff, expiry and flag |
| `AdminMetadata.AdminMetadataManager.UsingBootstrapControllers` | clients/src/test/java/org/apache/kafka/clients/admin/internals/AdminMetadataManagerTest.java:53 | returns the flag of the manager's configuration |
| `AdminMetadata.AdminMetadataManager.IsReady` | clients/src/test/java/org/apache/kafka/clients/admin/internals/AdminMetadataManagerTest.java:59-69 | equals the model's readiness: the sticky failure if any, else whether the snapshot is non-empty and not bootstrap-only |
| `AdminMetadata.AdminMetadataManager.DelayBeforeNextAttemptMs` | clients/src/test/java/org/apache/kafka/clients/admin/internals/AdminMetadataManagerTest.java:82-89 | equals the model's remaining backoff since the last attempt |
| `AdminMetadata.AdminMetadataManager.DelayBeforeNextExpireMs` | clients/src/test/java/org/apache/kafka/clients/admin/internals/AdminMetadataManagerTest.java:70-73 | equals the model's remaining time to expiry, which is 0 unless the snapshot is usable and no sticky failure is stored |
| `AdminMetadata.AdminMetadataManager.MetadataFetchDelayMs` | clients/src/test/java/org/apache/kafka/clients/admin/internals/AdminMetadataManagerTest.java:60-89 | equals the model's fetch delay |
| `AdminMetadata.AdminMetadataManager.NeedsRebootstrap` | clients/src/test/java/org/apache/kafka/clients/admin/internals/AdminMetadataManagerTest.java:116-150 | equals the model's rebootstrap decision |
| `AdminMetadata.AdminMetadataManager.Update` | clients/src/test/java/org/apache/kafka/clients/admin/internals/AdminMetadataManagerTest.java:63-68 | keeps Valid and moves the state as AfterUpdate: new snapshot, success time, quiescent, no sticky error, no window |
| `AdminMetadata.AdminMetadataManager.UpdateFailed` | clients/src/test/java/org/apache/kafka/clients/admin/internals/AdminMetadataManagerTest.java:81-82 | keeps Valid and moves the state as AfterUpdateFailed: quiescent, and a fatal failure becomes sticky |
| `AdminMetadata.AdminMetadataManager.RequestUpdate` | clients/src/test/java/org/apache/kafka/clients/admin/internals/AdminMetadataManagerTest.java:84-86 | keeps Valid and moves the state as AfterRequestUpdate |
| `AdminMetadata.AdminMetadataManager.TransitionToUpdatePending` | clients/src/test/java/org/apache/kafka/clients/admin/internals/AdminMetadataManagerTest.java:78-79 | keeps Valid and moves the state as AfterTransitionToUpdatePending: pending, attempt time recorded, window armed if not running |
| `AdminMetadata.AdminMetadataManager.Rebootstrap` | clients/src/test/java/org/apache/kafka/clients/admin/internals/AdminMetadataManagerTest.java:140-143 | keeps Valid and moves the state as AfterRebootstrap: bootstrap snapshot restored, window re-armed at now, force cleared |
| `AdminMetadata.AdminMetadataManager.InitiateRebootstrap` | clients/src/test/java/org/apache/kafka/clients/admin/internals/AdminMetadataManagerTest.java:145-146 | keeps Valid and sets the forced flag |
| `AdminMetadataManagerTest.TestSetUsingBootstrapControllers` | clients/src/test/java/org/apache/kafka/clients/admin/internals/AdminMetadataManagerTest.java:48-54 | usingBootstrapControllers() returns exactly the constructor's flag, for both values |
| `AdminMetadataManagerTest.TestMetadataReady` | clients/src/test/java/org/apache/kafka/clients/admin/internals/AdminMetadataManagerTest.java:56-74 | observes not ready twice, then ready. Observes delays 0, 0, 60000, then 0 after sleeping metadataExpireMs |
| `AdminMetadataManagerTest.TestMetadataRefreshBackoff` | clients/src/test/java/org/apache/kafka/clients/admin/internals/AdminMetadataManagerTest.java:76-90 | observes delays Long.MAX_VALUE, 100, 100 after requestUpdate, then 0 after sleeping refreshBackoffMs |
| `AdminMetadataManagerTest.FatalFailureScenario` | clients/src/test/java/org/apache/kafka/clients/admin/internals/AdminMetadataManagerTest.java:92-110 | for either fatal kind: delay 100, isReady raises that kind, and after update isReady is true |
| `AdminMetadataManagerTest.TestAuthenticationFailure` | clients/src/test/java/org/apache/kafka/clients/admin/internals/AdminMetadataManagerTest.java:92-100 | delay 100, isReady raises an authentication failure, then ready after update |
| `AdminMetadataManagerTest.TestAuthorizationFailure` | clients/src/test/java/org/apache/kafka/clients/admin/internals/AdminMetadataManagerTest.java:102-110 | delay 100, isReady raises an authorization failure, then ready after update |
| `AdminMetadataManagerTest.TestNeedsRebootstrap` | clients/src/test/java/org/apache/kafka/clients/admin/internals/AdminMetadataManagerTest.java:112-151 | observes the 18 needsRebootstrap answers of the test, in order |

## Left out

- Logging (`LogContext`) only produces output, so it is not modelled.
- `MockTime` is replaced by an explicit `now` argument. Each scenario keeps its own clock variable starting at an arbitrary `start`.
- `Cluster`, `Node` and `InetSocketAddress` are reduced to a bootstrap-only flag and a node count, the only parts readiness depends on. The controller node and the cluster id are not modelled.
- The Java exception hierarchy and `assertThrows` become the `FailureKind` datatype and an `Err` result. Failures other than authentication and authorization are all `Transient`.
- Locking and concurrent callers are not modelled: the manager is one sequential object.
- 64-bit arithmetic is not modelled. Times are unbounded integers, so `now - start` cannot overflow as a Java `long` could for extreme clock values.
- The constructor takes `nat` backoff and expiry, so negative configuration values are not modelled.
- AfterRequestUpdate, AfterUpdateFailed: an explicit request is not kept until the next successful update. A request made while an attempt is in flight is dropped, and a failed attempt returns a requested manager to quiescent. The manager's design keeps the request until a success, but the model uses a single quiescent / requested / pending mode.
- BackoffRemaining: the backoff is measured from the last attempt, successful or not. The manager's design measures it from failures only. The model keeps only attempt times, because `updateFailed` takes no timestamp.
- The manager's own source file is not part of this model. Where the unit test does not pin a behaviour down, the model follows the component's documented design (see above).
