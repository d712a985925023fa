# AppCrane: verified models of its stateful cores

AppCrane hosts apps in containers behind one front door. The code modelled here
is the part where state outlives a request: host ports that a container keeps
binding after its row has changed, a self-update that can die between any two
effects, limiters that must hold over every history, and the tables that decide
who may enter an app.

Each file is one Dafny module (`dafny verify dfyconfig.toml` checks them all).
Code that changes state in place is a class whose methods are proved equal to a
function on its state; the properties are lemmas about those functions, over every
input, every run or every reachable state.

| module | models |
|---|---|
| `Ingress` | the host-port registry, the ingress half of `PUT /api/apps/:slug`, the MCP ingress tool, publish targets and releases, as functions on one platform state |
| `IngressProtocol` | the protocol over any number of apps: edits by either door, both halves of a container start, stops, status changes, create, delete; its invariant and its exact safety condition |
| `IngressReports` | read surfaces, the audit chain, read-modify-write, flip and back |
| `IngressGaps` | ordinary request sequences in which a guard is not met, and what goes wrong |
| `IngressDraining` | how long a re-pinned number stays draining, and which requests can get it back meanwhile |
| `IngressStore` | the same operations as they overwrite rows and roll back |
| `Membership` | `app_users`, `app_user_roles`, `app_role_grants` and the SCIM ledger with every statement that writes them, and `resolveAppRole` |
| `SelfUpdate`, `Rollback` | the host under self-update: module load, listen callback and update endpoint of the process, and the boot wrapper with its rollback; which failed boots reset the tree, how often and where to |
| `Migrations`, `AutoHeal` | boot-time migrations; orphan marking, sentinel and auto-heal |
| `RateLimit`, `RevealThrottle` | the fixed-window limiters with their sweep; the sliding-window reveal throttle with its notices |
| `Escaping`, `EnvFile` | `esc` and `jsStr` against an HTML decoder and the JSON string grammar; the `.env` editor against the `.env` loader |
| `TenantPath`, `TenantUsage`, `TenantPurge` | tenant directories under POSIX path rules; usage over a directory tree; the server's own derivation and removal of a tenant |
| `ControlChart`, `Catalog` | the CI failure-rate chart; the "already installed" index against a scan |
| `Strings`, `Wrappers` | splitting and joining; `Option` and `Result` |

## Where the code keeps less than is promised

These properties are false of the code as it stands. For each, the project gives
runs that break it and the condition under which it holds.

- **A bound host port is reserved to its app.** A run stays safe if and only if
  every step meets its guard (`SafeExactlyWhenGuarded`). The guards fail for:
  `sandbox_public_port: null` while the sandbox container still binds the port (by the
  MCP tool also in a call that sets `http`); a re-pin of a bound port while that
  environment has no deployment in status `live` (a first deploy in progress, or one
  that failed its health check); an edit between the moment a start reads the row and
  the release that follows `docker run`; and a delete whose container removal failed.
- **No surface calls a port closed while it answers**
  (server/routes/apps.js:66-70). Each surface names exactly the rows given by
  `SurfacesExactly`. GET detail and catalogue miss a bound number exactly when it is
  no longer reserved to the app (`DroppedSandboxIsUnreported`) or is the pinned
  sandbox port of an app on `http`, because `pending_port_release` looks at the
  production column only; a readable docker adds whatever the production container
  binds. The answers to PUT also miss draining numbers, the MCP ingress tool misses
  the sandbox port, and the MCP app reads miss both: no surface hides a bound port
  exactly when each is pinned as the app's production port
  (`NamedEverywhereExactly`). Recreating the sandbox container does not release its
  number on `http` either, although README.md:588-595 says a held number is released
  automatically.
- **At most 30 reveals per user and app in 10 minutes, across both doors**
  (server/routes/envVars.js:37-41). The MCP tool writes to the shared log without
  asking the throttle. The bound holds for HTTP reveals, and for both doors exactly
  when no MCP reveal comes over budget (`BothDoorsBoundedExactly`). An MCP reveal
  also silences the notice of the HTTP reveals that follow it (`McpSilencesNotice`).
- **A release that fails to boot is rolled back** (server/index.js:1313-1318,
  scripts/safe-boot.sh:3-28, install.sh:344-348). The in-process rollback is entered
  only without a database handle, and a process that listens always has one: no run
  enters it (`InProcessRollbackIsDead`). The wrapper looks for the record in
  `$DATA_DIR/.self-update/`, the process writes it in `$DATA_DIR` itself: from a fresh
  install some run rolls back if and only if the two name one file
  (`RollbackIsDeadExactly`), which with one data directory they never do
  (`OneRecordExactly`).
- **A record causes at most 3 resets** (scripts/safe-boot.sh:26-28). Where the wrapper
  does find a record, its counter's write is not checked before the reset; the bound
  holds over every run exactly when no reset follows a counter that stayed as it was
  (`BudgetHoldsExactly`, `CrashLoopNeverStops`).
- **`previous_sha` names the version to go back to.** It is HEAD, not the running
  commit: after an update that failed between its reset and its record, the next
  record names a commit that never booted (`RollbackTargetsExactly`,
  `RecordNamesNeverBooted`).
- **`success` says whether the release took.** Over every run in which no further
  record is written, it compares the target with the version of the one boot that
  completed the record (`SuccessExactly`). If no other update moved the tree before
  that boot, `success` is said exactly when nothing was rolled back or the version
  number is equal (`SuccessByResets`; the latter needs the two programs to share the
  record, `RolledBackReportedAsSuccess`). Otherwise it may be denied to a release that
  booted: a reconcile whose write fails, then an update that fails after its reset,
  then a restart (`FailureWithoutRollback`).
- **Sentinel and auto-heal queue one deployment per pair and boot.** True exactly for
  an auto-heal query within 300 seconds of the sentinel (`OneQueuePerBootExactly`).
- **A written `.env` key loads as its new value, and no other key changes.** The key
  does not when an inherited variable, or a line above the written one that the editor
  does not recognise (a space before `=`), already gives it a non-empty value
  (`ShadowedExactly`). A value of several lines is written as several lines: its key
  loads as the first, and another key is left alone in every file exactly when none of
  the further lines assigns it (`OtherKeysUnchangedExactly`).
- **The control chart reports a rule.** It divides by zero exactly when every
  baseline run failed (`Detect`).
- **A removed member stays out, and an app-defined role must be granted again.**
  The boot-time owner backfill seats a dropped creator as owner again, without
  membership, exactly when the creator is active and no owner was kept
  (`BackfillReseatsExactly`). A SCIM sweep that removes a membership leaves its
  app-defined grants behind, live again on the next add (`SweptKeysComeBack`), and it
  removes or rewrites a tier an admin set by hand over one the sweep had created
  (`SweepRevokesHandSetTier`), although server/services/scimGroupAccess.js:20-22 says it
  never overwrites such a tier.
- **An app is not left without an owner** (server/routes/users.js:262-263). The guarded
  route keeps one; replacing the list, the MCP grant, deleting a user and a SCIM sweep
  can take the last (`OwnersLostExactly`). The backfill that gives ownerless apps back
  to an active creator (server/services/ownerBackfill.js:9-10) does so exactly when that
  creator has no row at all (`OwnedAfterBackfillExactly`, `BackfillLeavesOwnerless`).

Smaller surprises, not violations: no single request gets an app its own draining
number back (`OneRequestIsRefused`), and the row stays until a recreate, a delete or a
dropped sandbox port frees it (`HeldUntilFreedExactly`); yet dropping the sandbox port
and naming the number in a second request does (`TwoRequestsReclaim`). Sending back
what a GET reported changes nothing through PUT (`EngagesExactly`), while the MCP tool
writes an audit entry for every accepted call (`OneEntryPerToolCall`).

## Model

| member | source | states |
|---|---|---|
| IngressProtocol.SafeExactlyWhenGuarded | server/routes/apps.js:1313-1390 | over every run from a safe state, every bound host port stays reserved to exactly its app and environment if and only if each step met its guard |
| IngressProtocol.StepKeeps | server/services/tcpIngress.js:491-626 | each step keeps the registry/column invariant, and keeps safety exactly when its guard holds |
| IngressProtocol.RunKeepsInv | server/services/tcpIngress.js:321-335 | the invariant holds after every run, guarded or not |
| IngressProtocol.SafeIsExclusive | server/services/tcpIngress.js:57-72 | in a safe state no two containers bind one host port and no other app has a bound number pinned |
| IngressProtocol.StartNeverCollides | server/services/docker.js:442-498 | a start whose row still says what it read never meets an allocated host port |
| IngressProtocol.AssignKeeps | server/services/tcpIngress.js:491-569 | assigning keeps every owner except a named replacement of a number with no live deployment, which is dropped; a present number is kept, a named one is what the column gets |
| IngressProtocol.RenameKeeps | server/services/tcpIngress.js:534-569 | a re-pin drains the old number when it is live and drops it when it is not |
| IngressProtocol.DrainEffect | server/services/tcpIngress.js:543-565 | draining turns the one pinned row into a draining row and changes nothing else |
| IngressProtocol.UnrecordedIsReserved | server/services/tcpIngress.js:543-565 | where column and registry disagree, a re-pin of a live app leaves the column's number unreserved exactly when no row holds it and another one is pinned |
| IngressProtocol.AssignableExactly | server/services/tcpIngress.js:413-454 | a named number is given if and only if it lies in 1024 to 65535, is not refused to everyone, and is free or already this pin; each refusal has its reason |
| IngressProtocol.AllocatedExactly | server/services/tcpIngress.js:461-478 | a number nobody named is the lowest of 31000 to 31999 neither refused to everyone nor reserved, and there is none exactly when all of them are |
| IngressProtocol.LowestFreeIsLeast | server/services/tcpIngress.js:461-478 | the scan skips exactly the numbers refused to everyone or owned by somebody else |
| IngressProtocol.SandboxKeeps | server/routes/apps.js:1374-1390 | the sandbox half keeps all other bindings reserved, and its own exactly under the sandbox guard |
| IngressProtocol.PortsSafeExactly | server/routes/apps.js:1369-1400 | the port work of the transaction keeps safety if and only if neither environment forgets a bound number |
| IngressProtocol.AcceptedExactly | server/routes/apps.js:1211-1345 | which requests the checks let through, type by type, and the row they write: what was asked, and everything else kept |
| IngressProtocol.EditEffect | server/routes/apps.js:1192-1408 | everything an accepted change does: one row with type, ports and data plane as asked and the rest kept, one audit entry, exact safety |
| IngressProtocol.ToolUpdateIsChecked | server/services/mcpTools.js:2490-2553 | the tool refuses a missing type and any public port on `http`; otherwise it accepts and rejects what PUT does, reading a null public port as absent |
| IngressProtocol.ToolWritesAsPut | server/services/mcpTools.js:2575-2611 | short of a sandbox port dropped on `http` the tool writes what PUT writes |
| IngressProtocol.ToolEffect | server/services/mcpTools.js:2485-2611 | everything an accepted tool call does: one row with type, ports and data plane as asked and the rest kept, one audit entry, exact safety |
| IngressProtocol.ReleaseAfterRecreateKeeps | server/services/tcpIngress.js:599-626 | a recreate frees exactly the draining rows of that environment and, for an `http` production container, its pinned one |
| IngressProtocol.StillReserved | server/services/tcpIngress.js:599-626 | after the release a number is still the app's exactly when the row pins it and would publish it |
| IngressProtocol.FinishSafeExactly | server/services/docker.js:476-498 | a start that returned keeps safety exactly when the row still pins what was published |
| IngressProtocol.DeleteSafeExactly | server/routes/apps.js:1511-1563 | deleting an app keeps safety exactly when its containers were removed or bound nothing |
| IngressProtocol.UninterruptedStart | server/services/docker.js:442-498 | in every safe reachable state a start nobody interrupts binds exactly the publish of its row, never collides, leaves nothing draining and stays safe |
| IngressProtocol.StopThenDelete | server/routes/apps.js:1511-1563 | an app whose containers were stopped first is deleted safely, whatever became of their removal |
| IngressProtocol.DeletedLeavesNothing | server/routes/apps.js:1545-1563 | a delete takes every row, reservation, live mark and audit entry of its app and nothing of another |
| IngressReports.SurfacesExactly | server/routes/apps.js:66-105 | in every reachable state, which numbers each kind of answer names: a row of the app is shown by its state, environment and type, plus what docker shows of production |
| IngressReports.ReportedExactly | server/routes/apps.js:77-105 | in every reachable state the detail surface names exactly the numbers reserved to the app, except the pinned sandbox port of an `http` app |
| IngressReports.NamedEverywhereExactly | server/services/mcpTools.js:651-662 | no surface hides a bound port of an app if and only if each is pinned as its production port |
| IngressReports.ControlPlaneOnlyForTcp | server/services/tcpIngress.js:192-208 | a publish reaches container port 3000 exactly for `tcp`, which has no data-plane port; `dual` reaches its own |
| IngressReports.DataPlaneIsReported | server/services/tcpIngress.js:192-208 | a data plane is reported exactly for `dual`, also when an `http` row still stores one |
| IngressReports.DataPlaneSurvives | server/routes/apps.js:1261-1312 | over any run that never sends `data_plane_port: null`, a stored data plane stays and no publish of the app moves to 3000 |
| IngressReports.EngagesExactly | server/routes/apps.js:1179-1210 | a request engages the ingress branch exactly when some field differs from what a GET reports |
| IngressReports.AcceptedIsReported | server/routes/apps.js:1192-1408 | after an accepted request, by either door, a GET reports every field as it was asked |
| IngressReports.PutIsIdempotent | server/routes/apps.js:1179-1210 | an accepted PUT sent again, by anybody and with whatever is blocked by then, changes nothing and logs nothing |
| IngressReports.PortlessRowIsRepaired | server/routes/apps.js:1203-1207 | repeating the type of a publishing row without a number is a change that only an admin may make, and it assigns one |
| IngressReports.RowStays | server/routes/apps.js:1210-1213 | over every run only a platform admin's request, a production recreate or a delete changes an app's row |
| IngressReports.OneEntryPerChange | server/routes/apps.js:1369-1408 | an accepted change appends one entry from the old view to the new one; anything else leaves the whole state alone |
| IngressReports.OneEntryPerToolCall | server/services/mcpTools.js:2598-2609 | every accepted tool call appends one entry from the old view to the new one, changed or not; a refusal leaves the whole state alone |
| IngressReports.LogIsGapFree | server/routes/apps.js:110-118 | after every run each entry starts where the app's previous one ended, and the last ends at what a GET reports |
| IngressReports.FlipAndBack | server/routes/apps.js:1326-1343 | flipping to `http` and back before a production recreate restores the whole row, whatever other apps did meanwhile |
| IngressReports.EmptyPlatformIsGood | server/services/tcpIngress.js:57-72 | the empty platform satisfies invariant, safety and log chain, so the run lemmas cover every reachable state |
| IngressGaps.DroppingSandboxGivesAwayBoundPort | server/routes/apps.js:1374-1390 | `sandbox_public_port: null` lets another app take a number a container still binds |
| IngressGaps.RepinBeforeLiveForgetsBoundPort | server/services/tcpIngress.js:534-568 | a re-pin without a live deployment does the same |
| IngressGaps.RepinAfterFailureForgetsBoundPort | server/services/tcpIngress.js:534-568 | and a re-pin after a deployment that went live and then failed |
| IngressGaps.FailedDeleteGivesAwayBoundPort | server/services/docker.js:506-513 | so does a delete whose container removal failed |
| IngressGaps.DroppedSandboxIsUnreported | server/routes/apps.js:1374-1390 | after `sandbox_public_port: null` no surface names the number the container still binds |
| IngressGaps.FlipDuringStartFreesBoundPort | server/services/docker.js:442-498 | a flip during `docker run` frees the number just bound |
| IngressGaps.HttpFlipHidesSandboxPort | server/services/tcpIngress.js:328-335 | an `http` flip meets every guard and hides a bound sandbox port from every surface, and a sandbox recreate never releases it |
| IngressGaps.ForgottenNumberIsReissued | server/services/tcpIngress.js:413-454 | any number the registry does not hold goes to the next app that names it |
| IngressDraining.RepinToDrainingIsRefused | server/services/tcpIngress.js:502-508 | an assignment that names the app's own draining number fails |
| IngressDraining.OneRequestIsRefused | server/services/tcpIngress.js:502-508 | so does every single PUT or tool call that names it, for either environment |
| IngressDraining.DrainingStaysExactly | server/services/tcpIngress.js:580-626 | which steps free a draining row, exactly: a start of its container that went through, a delete of the app, and for the sandbox an accepted null port |
| IngressDraining.HeldUntilFreedExactly | server/services/tcpIngress.js:580-626 | over every run the number stays draining throughout if and only if no step frees it |
| IngressDraining.TwoRequestsReclaim | server/routes/apps.js:1374-1390 | `sandbox_public_port: null`, then the draining number by name, pins it again with every container as it was |
| IngressDraining.ReclaimIsReachable | server/services/tcpIngress.js:534-568 | ordinary requests lead to such a state with the number still bound |
| IngressStore.Store.AllocatePublicPort | server/services/tcpIngress.js:461-478 | the scan loop returns the lowest free number |
| IngressStore.Store.Claim | server/services/tcpIngress.js:502-508 | delete, insert and update give the claimed state, or report the primary-key conflict |
| IngressStore.Store.AssignPublicPort | server/services/tcpIngress.js:491-569 | the statements give the assigned state, and every failure leaves the tables as they were |
| IngressStore.Store.ReleasePublicPort | server/services/tcpIngress.js:580-586 | all rows of the pair and the column are gone, nothing else moved |
| IngressStore.Store.ReleasePendingPortAfterRecreate | server/services/tcpIngress.js:599-626 | the statements give the released state |
| IngressStore.Store.PutIngress | server/routes/apps.js:1192-1408 | checks and transaction give the state and error of the handler function; a refusal changes nothing |
| IngressStore.Store.SetAppIngress | server/services/mcpTools.js:2485-2611 | the tool's checks and transaction give the state and error of its function; a refusal changes nothing |
| IngressStore.DrainingByApp | server/routes/apps.js:96-105 | the loop groups the query by app with no empty groups, in query order |
| IngressStore.OfAppKeepsQueryOrder | server/routes/apps.js:96-105 | each group is exactly that app's draining ports, ascending |
| Membership.Store.PutUsersList | server/routes/apps.js:1594-1631 | succeeds exactly when every id is a user; the loop and deletes give the replaced tables, a failure leaves them untouched |
| Membership.ReplaceExact | server/routes/apps.js:1610-1631 | seat by seat: members are the list, tiers survive exactly for those kept, keys go with a lost seat, other apps and tables are untouched |
| Membership.TierAppearsExactly | server/services/ownerBackfill.js:28-40 | which steps write a role row for a seat that has none, exactly |
| Membership.TierStaysAwayExactly | server/routes/identity.js:373-380 | a seat stays without a row at every point of a run if and only if no step of it writes one |
| Membership.DroppedStaysOut | server/routes/identity.js:367-397 | after a drop, at every later verify of a run that writes no row: admin exactly as a global admin, else viewer exactly of a public app, else none |
| Membership.ReaddedHoldsNothing | server/routes/apps.js:1617-1630 | dropped and put back on the list, a user is a member with no tier and no app-defined key |
| Membership.VisibilityExactly | server/routes/identity.js:373-380 | publishing an app turns none into viewer, withdrawing it turns viewer into none, and no other role of any app moves |
| Membership.GlobalAdminExactly | server/routes/identity.js:373-380 | a change of the person leaves a seat with a row alone; without one it is admin exactly as a global admin, else as the app is public |
| Membership.TierIsTheRole | server/routes/users.js:265-331 | a tier set over the guarded route or by a grant is the resolved role, whatever the flags, with membership; the route refuses exactly to demote or remove the only owner |
| Membership.NewAppIsPrivate | server/routes/apps.js:610-645 | a new app's creator is owner, everybody else admin as a global admin or none |
| Membership.DeletedUserLeavesNothing | server/routes/users.js:121-137 | deleting a user takes exactly their seats, tiers, keys and ledger entries, and their name off the apps they created |
| Membership.DeletedAppLeavesNothing | server/routes/apps.js:1545-1563 | deleting an app takes exactly its seats, tiers, keys and ledger entries |
| Membership.LiveKeysExactly | server/services/appDefinedRoles.js:176-202 | the app-defined keys on the wire are the ones set, for members only; no other seat's keys move |
| Membership.StepKeepsHeld | server/routes/users.js:265-331 | every step keeps "a tier is held by a member", except exactly a backfill that seats a non-member |
| Membership.RunKeepsHeld | server/services/scimGroupAccess.js:58-82 | so do whole runs, SCIM sweeps and their ledger included |
| Membership.BackfillReseatsExactly | server/services/ownerBackfill.js:28-40 | at the next boot a dropped creator is owner, and not a member, exactly when active and no owner was kept |
| Membership.OwnedAfterBackfillExactly | server/services/ownerBackfill.js:28-40 | the backfill keeps every row, and an app has an owner afterwards exactly when it had one or its active creator has no row at all |
| Membership.BackfillLeavesOwnerless | server/services/ownerBackfill.js:28-40 | a selected creator who holds a lower tier keeps it, and the app stays without an owner |
| Membership.SetTierKeepsAnOwner | server/routes/users.js:276-284 | setting or removing a tier over PUT roles never leaves an owned app without an owner |
| Membership.OwnersLostExactly | server/services/mcpTools.js:2703-2707 | which steps leave an owned app without an owner, exactly: a list without one, a grant that demotes the last, removing that user or the app, a sweep after which nobody is one |
| Membership.SweepTouchesExactly | server/services/scimGroupAccess.js:58-82 | a sweep leaves a stored tier alone exactly when its ledger does not claim the row or the groups still ask for the same |
| Membership.SweepGrants | server/services/scimGroupAccess.js:66-82 | a seat the groups open, or hold open at another tier, resolves to the tier they now ask for |
| Membership.SweepTwice | server/services/scimGroupAccess.js:58-82 | sweeping twice for the same groups is sweeping once |
| Membership.SweepUndone | server/services/scimGroupAccess.js:58-66 | from an empty ledger, a sweep followed by one for no groups restores every table |
| Membership.SweepRevokesHandSetTier | server/services/scimGroupAccess.js:60-66 | a tier set by hand over a swept one is lost with the group |
| Membership.LeavingClearsKeysExactly | server/services/appDefinedRoles.js:204-225 | a seat that is given up loses its app-defined keys, unless a sweep takes it, which keeps them all |
| Membership.SweptKeysComeBack | server/services/appDefinedRoles.js:176-202 | those keys are live again as soon as the person is back on the list |
| SelfUpdate.Server.LoadIndex | server/db.js:21-35 | module load publishes the handle before it migrates; a throw anywhere ends the process and asks the wrapper |
| SelfUpdate.Server.ListenCallback | server/index.js:1319-1355 | with a handle the boot is reconciled into the record, without one the in-process rollback is entered |
| SelfUpdate.Server.MaybeAutoRollback | server/index.js:547-607 | guards, persist and reset, stopped anywhere; a failed write is never followed by the reset |
| SelfUpdate.Server.AttemptRollback | scripts/safe-boot.sh:81-138 | the wrapper's guards, unchecked persist and reset, on its own record |
| SelfUpdate.Server.AfterExit | scripts/safe-boot.sh:273-307 | a clean or late exit ends the wrapper, an early failure asks for a rollback |
| SelfUpdate.Server.RunSelfUpdate | server/index.js:610-862 | HEAD capture, reset, record write and exit, stopped anywhere, give the updated host |
| Rollback.InProcessRollbackIsDead | server/index.js:1319-1330 | over every run a listening process holds a handle, and maybeAutoRollback is never entered |
| Rollback.ResetsExactly | scripts/safe-boot.sh:81-138 | every step rolls the tree back exactly when its process dies and the wrapper gets to its reset on a readable, uncompleted record with budget at its own path |
| Rollback.OneRecordExactly | scripts/safe-boot.sh:46-47 | the two programs name one file exactly when the process's data directory is the wrapper's `.self-update`; with one data directory they never do |
| Rollback.TwoRecordsNeverRoll | server/index.js:525-531 | with two files, and none to roll back to at the wrapper's, no step of any run rolls back |
| Rollback.RollbackIsDeadExactly | server/index.js:525-531 | from a fresh install no step of any run of boots, crashes and updates rolls back if and only if the two programs name different files |
| Rollback.BudgetHolds | scripts/safe-boot.sh:106-119 | a record causes at most 3 resets over every run in which no reset follows an untouched counter |
| Rollback.CrashLoopNeverStops | scripts/safe-boot.sh:113-130 | with a counter that cannot be written every failed boot resets the tree again, any number of times |
| Rollback.CountedLoopStops | scripts/safe-boot.sh:98-130 | with a counter that can be written, failed boots reset the tree once each until 3 attempts are used up, and then never again |
| Rollback.BudgetHoldsExactly | scripts/safe-boot.sh:106-130 | the bound of 3 holds over all runs exactly when resets behind an untouched counter are excluded |
| Rollback.SuccessIsTheBootedVersion | server/index.js:1335-1346 | nothing but the reconcile of a process that listens completes a record, and `success` says whether that process runs the target version |
| Rollback.SuccessExactly | server/index.js:1335-1346 | over every run after an update's record in which no other record is written: a completed record was completed by one reconcile of the run, and `success` holds exactly when that boot ran the target version |
| Rollback.CompletedOnce | server/index.js:1339 | only one step of such a run can be that reconcile |
| Rollback.SuccessByResets | server/index.js:1335-1346 | if it is completed before any other update moves the tree: `success` exactly when nothing was rolled back or the version is equal; always, with separate records |
| Rollback.FailureWithoutRollback | server/index.js:1351-1355 | a failed reconcile write, an update that fails after its reset and a restart record `success: false` with nothing rolled back |
| Rollback.CompletedStays | server/index.js:1339 | a completed record that is still readable at the end of such a run is unchanged |
| Rollback.TornReconcileIsLost | server/index.js:1346-1355 | a reconcile whose write tears the record loses its verdict in every run without a further record |
| Rollback.RunFollowsUpdate | server/index.js:817-825 | a run whose further updates are refused keeps tree, live process and record tied to the update's two commits |
| Rollback.CompletedIsFinal | server/index.js:560-563 | a completed record never changes again and no failed boot moves the tree |
| Rollback.NothingLeftToTry | scripts/safe-boot.sh:98-109 | with no record to roll back to, any number of failed boots changes nothing but the process |
| Rollback.RollbackTargetsExactly | server/index.js:681-685 | every record names a commit that has booted if and only if every recorded update started from a HEAD that had |
| Rollback.RecordNamesNeverBooted | server/index.js:785-825 | an update that failed after its reset makes the next record name a commit that never ran |
| Rollback.RollbackToNeverBooted | scripts/safe-boot.sh:127-130 | where the wrapper can read that record, a bad release is rolled back to that commit |
| Rollback.RolledBackReportedAsSuccess | server/index.js:1340-1346 | there a rollback to an equal version number is reconciled as success |
| Migrations.Runner.PendingMigrations | server/db.js:87-90 | the filter returns the unmarked files in directory order |
| Migrations.PendingKeepsOrder | server/db.js:87-90 | the pending list is in directory order, by any ranking in which the listing ascends |
| Migrations.Runner.SnapshotBeforeMigrations | server/db.js:58-71 | a snapshot is taken with the pending list exactly when it is not empty |
| Migrations.Runner.RunMigrations | server/db.js:92-132 | the loop applies the pending files in order up to where the process stops |
| Migrations.EffectsAreAccounted | server/db.js:92-132 | over every sequence of boots stopped anywhere, a transactional file takes effect at most once, and another repeats once per crash between its SQL and its mark |
| Migrations.CompletedBoot | server/db.js:92-132 | after a completed boot every transactional file took effect exactly once, and a rerun applies and snapshots nothing |
| Migrations.SnapshotIsWhatRuns | server/db.js:58-71 | wherever a boot stops, the files whose SQL took effect are a prefix of the snapshot's list in its order, and the whole list if nothing stops it |
| Migrations.EachListedRunsOnce | server/db.js:112-131 | if nothing stops the loop, exactly the listed files take effect once more each |
| Migrations.LoopKeepsAccount | server/db.js:112-131 | one boot, stopped anywhere, keeps the account of effects and forgets no mark |
| AutoHeal.Deployments.BulkRedeploy | server/index.js:1575-1603 | the sentinel loop queues one production deployment for each app it reaches |
| AutoHeal.Deployments.AutoHeal | server/index.js:1609-1656 | a pair is queued, once, if and only if it has no container and some row of it has been live for more than 300 seconds with only deleted rows of it after that |
| AutoHeal.EligibleExactly | server/index.js:1620-1633 | the condition of the query and its filter, over the rows of the pair |
| AutoHeal.NotHealedAfter | server/index.js:1620-1633 | a pair is not healed right after a deploy request for it, nor after its app was deleted |
| AutoHeal.HealsAreSeparatedByALiveDeploy | server/index.js:1620-1632 | after a heal no boot heals the pair again until one of its deployments went live, whatever else happens |
| AutoHeal.OneQueuePerBoot | server/index.js:1575-1633 | a pair the sentinel queued is not healed by a query within five minutes |
| AutoHeal.OneQueuePerBootExactly | server/index.js:1575-1633 | over all tables and runs, no pair is queued twice in a boot if and only if the query comes within five minutes |
| AutoHeal.SlowBootQueuesTwice | server/index.js:1631 | a deployment live as soon as it was queued is healed by exactly the queries more than five minutes later |
| AutoHeal.OrphansAreSettled | server/index.js:1417-1426 | orphan marking fails exactly the rows queued, building or deploying, keeps all others, and changes no pair's eligibility |
| AutoHeal.NewestFacts | server/index.js:1627-1629 | MAX(id) is the newest remaining row of the pair |
| RateLimit.Limiter.Check | server/routes/identity.js:24-57 | one check decides and updates the bucket as the window rule says |
| RateLimit.Limiter.RunSweep | server/index.js:118-119 | the sweep, in any order, deletes exactly the expired buckets |
| RateLimit.SweepIsUnobservable | server/routes/identity.js:24-57 | sweeping at any times changes no decision of any history |
| RateLimit.SweptMapIsRecent | server/index.js:118-119 | after a sweep each key left has its bucket from a request that opened it, made in the last 60 seconds |
| RateLimit.WindowAdmitsAtMostLimit | server/index.js:125-142 | a window admits at most the limit |
| RateLimit.IntervalBound | server/index.js:125-142 | any closed 60-second interval of any history admits at most 2·limit − 1 per key |
| RateLimit.BoundIsReached | server/index.js:125-142 | and that many are admitted within one millisecond, for every limit |
| RevealThrottle.Audit.GetEnvRevealed | server/routes/envVars.js:78-107 | refused exactly when the pair has 30 rows of the last 600 seconds; otherwise one row, and a mail exactly when it has none of the last 1800 |
| RevealThrottle.RevealExactly | server/routes/envVars.js:78-107 | the same two conditions, counted by position in the log, on the log function every run is made of |
| RevealThrottle.HandlerRevealsAreBounded | server/routes/envVars.js:81-94 | every closed 10-minute interval of every history holds at most 30 HTTP reveals per pair |
| RevealThrottle.BothDoorsBoundedExactly | server/services/mcpTools.js:877-881 | counting MCP reveals too, the bound holds throughout if and only if none of them is over budget |
| RevealThrottle.ThirtyOneMcpReveals | server/services/mcpTools.js:877-881 | 31 MCP reveals in a second break it |
| RevealThrottle.McpBurstIsUnbounded | server/services/mcpTools.js:877-881 | every one of any number of MCP reveals is logged |
| RevealThrottle.EveryChainIsNoticedAtItsStart | server/routes/envVars.js:96-106 | a reveal mails the owner exactly when it is the pair's first or comes more than 30 minutes after the one before |
| RevealThrottle.NoticesAreApart | server/routes/envVars.js:45-50 | two notices of a pair are more than 30 minutes apart |
| RevealThrottle.McpSilencesNotice | server/services/mcpTools.js:877-881 | a chain an MCP reveal starts gets no notice |
| Escaping.MarkupIsOnePass | docs/shared.js:20-26 | the four chained replacements of `jsStr` equal one character map |
| Escaping.EscIsOnePass | docs/shared.js:5-12 | so do the five of `esc` |
| Escaping.EscRoundTrip | docs/shared.js:5-12 | a decoder with its own table of named and decimal references undoes `esc` for every string |
| Escaping.JsStrRoundTrip | docs/shared.js:20-26 | that decoder, then the parser of section 7 of RFC 8259, undoes `jsStr` for every string, lone surrogates included |
| Escaping.ParseQuoteBody | docs/shared.js:20-26 | the JSON parser undoes well-formed JSON.stringify |
| Escaping.QuoteIsShortest | docs/shared.js:20-26 | the written form of a unit is the shortest JSON has for it, in lower-case digits; lone surrogates are escaped |
| Escaping.PlainIsVerbatim | docs/shared.js:20-26 | text that needs no escape, surrogate pairs included, is written as it is |
| Escaping.OutputIsInert | docs/shared.js:5-26 | no raw angle bracket or double quote leaves either function, and no apostrophe leaves `esc` |
| Escaping.AmpersandsAreReferences | docs/shared.js:5-26 | every ampersand written begins a reference that decoder knows |
| EnvFile.Load | server/index.js:17-28 | the loader loop gives the environment of its lines |
| EnvFile.LineGrammar | server/index.js:19-24 | a line of key, first `=` and value, with blanks anywhere between, assigns that value to that key; the editor recognises exactly those without a blank before `=` |
| EnvFile.IgnoredLines | server/index.js:19-22 | blank lines, comments and lines without `=` assign nothing |
| EnvFile.WriteEnvKey | server/routes/appstudio.js:368-379 | the editor overwrites the first matching line or appends one, on a missing file too |
| EnvFile.WriteThenLoad | server/routes/appstudio.js:368-400 | for every file and every trimmed value: the key loads as the value's first line unless it is shadowed, and a key no further line assigns loads as before |
| EnvFile.OneLineValue | server/routes/appstudio.js:393-400 | a one-line value is its own first line and has no further ones |
| EnvFile.OtherKeysUnchangedExactly | server/routes/appstudio.js:393-400 | a write leaves another key alone in every file and environment if and only if no further line of the value assigns it |
| EnvFile.ShadowedExactly | server/index.js:25-27 | it is shadowed exactly by an inherited value or by a line above the written one that gives the key a non-empty value |
| EnvFile.UnspacedFileTakesValue | server/routes/appstudio.js:371 | a file without a space before `=` on that key's lines, and no inherited value, always takes the new value |
| EnvFile.UnmatchedLineWins | server/routes/appstudio.js:371 | in every file and environment, a value the editor cannot see above the written line is what the key loads as after any number of writes |
| EnvFile.SpacedLineParses | server/index.js:23-24 | `K =old` is such a line |
| EnvFile.LoadSettles | server/index.js:18-28 | a key loads as its first non-empty value, or its last empty one |
| TenantPath.KeySegmentsAreOrdinary | packages/tenant/index.js:31-49 | whatever the headers hold, both parts of an accepted key are ordinary names |
| TenantPath.OrgIsAfterLastAt | packages/tenant/index.js:31-39 | the org is the lower-cased part after the last `@`; without one, or with nothing usable in it, it is `unknown` |
| TenantPath.PlainIdentity | packages/tenant/index.js:42-49 | an ordinary domain and a decimal id are the tenant key themselves; an id without a digit gives none |
| TenantPath.TenantDirIsTwoBelowRoot | packages/tenant/index.js:52-57 | a tenant directory is the root and exactly two ordinary segments |
| TenantPath.TenantsAreDisjoint | packages/tenant/index.js:52-57 | of two tenants neither directory is the other or its ancestor |
| TenantPath.TenantFileIsInStorage | packages/tenant/index.js:85-102 | an accepted file name lies directly in the tenant's storage directory |
| TenantPath.TenantFileExactly | packages/tenant/index.js:96-102 | a name is refused exactly when its last part is `.` or `..` or holds a NUL; otherwise that part is the file's name |
| TenantPath.NormalizeKeepsSegments | packages/tenant/index.js:54 | POSIX normalisation keeps the root and the names a path walks through |
| TenantPath.DotSegments | packages/tenant/index.js:54 | a trailing `.` stays in place and `..` goes up one name, never above a root |
| TenantUsage.DirSize | packages/tenant/index.js:111-127 | the recursive walk returns the sum of the sizes of exactly the files below the directory |
| TenantUsage.UsageIgnoresOtherTenants | packages/tenant/index.js:107-109 | any change below another tenant's directory leaves the usage alone |
| TenantUsage.WriteChangesUsage | packages/tenant/index.js:107-127 | writing a file below a tenant's directory changes its usage by exactly what the file grows by |
| TenantUsage.PurgeIsExact | packages/tenant/index.js:52-57 | removing everything below a tenant's directory zeroes its usage and nobody else's |
| TenantPurge.Disk.PurgeTenant | server/services/tenants.js:45-63 | the loop over environments removes each target that passes the guard |
| TenantPurge.OrgSlugIsStable | server/services/tenants.js:34-38 | sanitising an org a second time changes nothing |
| TenantPurge.TargetSegments | server/services/tenants.js:45-55 | for every email and id the target is three ordinary names below the base, so the guard never skips it |
| TenantPurge.GuardIsContainment | server/services/tenants.js:53-54 | on resolved paths the string guard is containment of the directories, whatever a sibling is called |
| TenantPurge.SameTenantDirExactly | server/services/tenants.js:5-32 | for every tenant the server removes the directory the package uses if and only if the package's root is /data/tenants |
| TenantPurge.PurgedExactly | server/services/tenants.js:50-62 | the loop leaves exactly the files outside the targets of the listed bases, unchanged |
| TenantPurge.PurgeIsExact | server/services/tenants.js:45-63 | over any list of bases apart from each other: the revoked tenant loses all of its bytes below each listed base, and every other tenant, and every other base, keeps all of them |
| TenantPurge.RevocationIsExact | server/services/tenants.js:45-63 | for every app, environment and tenant of the platform: usage is zero afterwards in both environments of that app for that tenant, and unchanged otherwise |
| TenantPurge.BasesApart | server/services/tenants.js:50-51 | the data directories of two apps or environments are apart, and ordinary absolute ones |
| ControlChart.FillBuckets | ops/ci-failure-rate.py:83-95 | a day has a bucket exactly when a counted run falls on it, and the bucket holds the number of those positions and of those that failed |
| ControlChart.MakePoints | ops/ci-failure-rate.py:99-109 | the points are the buckets in date order |
| ControlChart.Chart | ops/ci-failure-rate.py:83-156 | from runs to report: a point for exactly the days with counted runs, each with its runs and failures, adding up to all counted runs and all failing ones |
| ControlChart.Detect | ops/ci-failure-rate.py:111-156 | the report is the exact cascade's, and a division by zero exactly when every baseline run failed |
| ControlChart.ReportExactly | ops/ci-failure-rate.py:111-143 | which report is given, by days, runs and failures: 18 days, 30 baseline runs, and one that did not fail are needed |
| ControlChart.BaselineTotals | ops/ci-failure-rate.py:115-117 | the totals are the sums over the baseline |
| ControlChart.SeriesUnits | ops/ci-failure-rate.py:139-142 | a sigma unit for every series day, or failure when sigma is zero |
| ControlChart.UnitsTest | ops/ci-failure-rate.py:139-142 | each `sigma_units > k` is the square-root-free comparison |
| ControlChart.CascadeIsExact | ops/ci-failure-rate.py:147-156 | the cascade fires the same rule as the one on exact comparisons |
| ControlChart.RuleExactly | ops/ci-failure-rate.py:147-156 | which rule is reported, by the number of the last 3 and 5 days beyond 2 and 1 sigma |
| ControlChart.LastEightExactly | ops/ci-failure-rate.py:153 | the fourth rule: eight days in a row with a larger share of failures than the centre line |
| ControlChart.SeverityIsMonotone | ops/ci-failure-rate.py:144-156 | more failures on any series days never lower the severity of the rule that fires |
| ControlChart.ReportIsMonotone | ops/ci-failure-rate.py:111-156 | on the whole report, days, runs and baseline fixed: whether a rule is measured does not change, and the severity never drops |
| ControlChart.PointsAreValid | ops/ci-failure-rate.py:99-109 | points have runs, never more failures than runs, and ascending dates |
| ControlChart.PointsTally | ops/ci-failure-rate.py:85-109 | from any day on, the points add up to the counted runs since then, failures to failures; none is lost or counted twice |
| ControlChart.SplitExactly | ops/ci-failure-rate.py:114-115 | series and baseline are the last eight days, or all, and the rest |
| ControlChart.CentreExactly | ops/ci-failure-rate.py:131-136 | the centre line times the runs is the failures, or one half when there were none |
| Catalog.InstalledIndex | server/routes/catalog.js:72-88 | the loop builds exactly the two indexes, in list order, with no empty lists |
| Catalog.InstalledFor | server/routes/catalog.js:90-99 | the indexed lookup equals a direct scan: repo matches, then image-only matches, each app once |
| Catalog.ScanExactly | server/routes/catalog.js:90-99 | which hits the scan lists: an app on its repo if that matches, else on its image if that does |
| Catalog.ScanOrder | server/routes/catalog.js:90-99 | repo hits come first and either kind keeps the list's order |
| Catalog.HiddenAppsNeverAppear | server/routes/catalog.js:62-69 | no app hidden from a non-admin appears in the lookup |
| Catalog.VisibleApps | server/routes/catalog.js:62-69 | an admin's list is every app, anybody else's exactly the ones not hidden |
| Catalog.VisibleOrder | server/routes/catalog.js:62-69 | in the order of the whole list |

## Left out

- Surfaces: the ports `docker ps` reports are taken as current when it is readable
  (publishedPortsBySlug caches them for a few seconds); an answer withheld from a caller
  without a role is not modelled.
- Real systems: docker, git, npm, SQLite, Caddy and the filesystem are effects that
  happen, fail or stop; a transaction is one step. Error texts and status codes are not
  modelled.
- The unique column indexes (they never fire while the invariant holds),
  `container_port` replacing 3000 for image apps, overlapping starts of one container,
  and a request served between the MCP ingress tool's read of the row and its
  transaction, which only a first module load separates.
- Blocked, own, Caddy and slot-derived ports are one set, given to each request, with one
  reason for all of them.
- PUT fields that do not touch ingress, and the request-role checks in front of every
  handler, except the platform-admin check of an ingress change.
- Membership: resolving emails to ids, deactivated sessions, definition and deletion of
  app-defined roles (only who holds which key), and the request-approval tool, which
  writes like a grant.
- SelfUpdate: the Node-version floor, in-flight and drain refusals all count as
  "refused"; `node_modules` and the wrapper's runtime repairs are not part of the host;
  an update request served before the listen callback has finished is left out.
- Migrations: a no-transaction file that stops inside its SQL counts as before or after it.
- Auto-heal: the deployer's own steps are arbitrary status changes of one row.
- Limiters: how a request becomes a key (credential hash or address).
- Escaping: HTML named references other than amp, lt, gt, quot and apos, hexadecimal ones,
  and decimal ones outside printable ASCII; the decoder leaves them as they are.
- `toLowerCase`, `math.sqrt` and the catalogue's URL and image normalisers are parameters.
- Tenant purge: an id without digits removes the directory `u` below the org, which is no tenant's.
- Tenant usage: empty directories, symbolic links, files that vanish during the walk,
  and quotas; an app's /data is taken to be mounted from its base, as
  server/services/deployer.js:1521 does.
- ControlChart: exact reals instead of floating point; fetching, window dates and truncation flags.
- User interface, CLI, cryptography, OIDC/SAML, mail, and the agent, plan, coder and ask
  workers, which would add only easy members or are not visible.
