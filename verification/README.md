# NexCause, modelled and proved

NexCause deploys applications to Kubernetes and analyses the root causes of their incidents. It consists of a
TypeScript deployment manager, a Python agent and a Go evidence server. This project models the parts of it that are
state machines or computations whose correctness is not visible in any one function, and proves what they promise.
`dafny verify dfyconfig.toml` checks all of it.

| file | models |
|---|---|
| `RunProtocol.dfy`, `RunOutcomes.dfy`, `RcaAgent.dfy` | the claim of RCA runs by racing tasks: states, actions and runs, what they achieve, and the repository and agent whose methods are those actions |
| `EventBus.dfy` | per-run subscriber queues |
| `Cluster.dfy`, `Kubernetes.dfy`, `Deployments.dfy` | the cluster as an object store in which any call may fail, the deployment of resources into it, and the records kept in step with it |
| `Sessions.dfy`, `SessionService.dfy`, `LoginRedemption.dfy` | sessions, login attempts, and concurrent login callbacks |
| `Incidents.dfy`, `IncidentReports.dfy`, `IncidentsService.dfy` | concurrent incident detection |
| `Redaction.dfy`, `LogPatterns.dfy`, `LogDigest.dfy`, `TopPatterns.dfy`, `Metrics.dfy` | evidence preprocessing |
| `EvidenceWindow.dfy` | evidence windows |
| `DnsNames.dfy`, `Ascii.dfy`, `Common.dfy` | name normalisation, and shared helpers |

## How the models work

Concurrent parts are state machines: a state, actions that are atomic steps, `Apply`, and a run that is any sequence of
actions (an action that is not enabled does nothing). Lemmas then speak of every run. Beside each machine stands a class
in the source's own form whose methods are proved equal to the machine's steps.

A step is a database transaction (or one API call, or the code between two suspension points). Clocks, random tokens,
replies of the analysis graph and the choice of failing calls are parameters. Hashes are taken to be injective, so a
token stands for its hash.

The cluster store keeps a ghost trace with its contents after each call. `AlwaysGood` says that there is one entry per
call and that all of them were sound: every ConfigMap and Secret that a managed deployment's manifest refers to exists,
and so does the Service behind its routes. Managed are the names this service generates. Nobody else is assumed to
use those; whatever else the cluster holds is unconstrained.

A deployment belongs to one workspace, so that a detection pass visits it at most once.

## What the proofs found

- **A raising claim breaks exclusion.** The handler in `run_rca` calls `fail_run` without asking whether the task ever
  owned the run. If `mark_running` raises, the run of another task can be failed and claimed again
  (`RaisingClaimBreaksExclusion`). Exclusion holds exactly as long as no such `fail_run` hits a run that another task
  owns (`StepExcludesIff` for a step, `RunExcludesIff` for a run); together with the agreement of rows and event log it
  holds exactly as long as none hits an owned run or one that is not running (`StepKeepsIff`, `RunKeepsIff`). Without
  raising claims both hold (`AtMostOneOwner`, `LogTellsRow`).
- **A lost owner strands its run.** When an owner is killed, or its `fail_run` raises, the row stays `running` and
  nothing ever claims it again: the poller sees pending rows only, and a claim needs a pending or failed one
  (`LostOwnerStrands`, `StrandedForever`). A running run can still end exactly when a task owns it (`CanEndIffOwned`).
- **A rejected detection step breaks uniqueness.** `Promise.all` settles on the first rejection while siblings are in
  flight, so a pass can end with a worker still to look for or to create its incident, and the next pass can overtake it
  (`RejectionBreaksUniqueness`). The exact condition is that no worker is left like that when a pass begins
  (`TickIsSafeIff`); under it open incidents are unique whatever rejects (`AtMostOneOpen`). An automatic incident has no
  run exactly when its start is in flight or was rejected (`EveryAutomaticIncidentHasItsRun`).
- **Log patterns are not quite stable.** The cut at 160 characters can turn the last word into a number or an
  identifier, exactly when normalising again would change the pattern (`NormaliseIdempotentIff`).
- **The two name normalisers differ.** The Kubernetes copy cuts at 45 characters after tidying, so it is not idempotent
  exactly when the cut falls after a hyphen (`KubernetesIdempotentIff`). The names built from it agree with the public
  hostname all the same, because both use at most its first 32 characters.
- **Service names may start with a digit.** They do exactly when the app name's first word does
  (`ServiceNameIsStrictIff`).
- **A restart of a stopped deployment** shows `creating` although no replica is wanted (`RestartedWhileStopped`).
  `stopped` means no replicas exactly without such a restart (`StoppedIffNotRestarted`).
- **Cleanup is unobservable** exactly when nothing swept away is created again (`CleanupUnobservableIff`), in
  particular when login states and session tokens are fresh (`CleanupIsUnobservable`).
- **Evidence windows are complete** for stamped lines exactly when the fetch is made at most as late as rounding up to
  whole seconds allows (`StampedLogsAreCompleteIff`): the length of the fetch is computed first, and a window of whole
  seconds leaves no slack. Lines without a stamp are kept whether or not they lie in the window, if they were fetched
  (`WindowCompleteIff`).
- **A spike of two points** is possible exactly when one is negative and the other positive (`SpikeOfTwoIff`).
- `completedAt` is set by a failure too and is not cleared by a later claim, so it is the last end and not a sign of
  completion (`LogTellsRow`).

## Model

| member | source | states |
|---|---|---|
| `RunProtocol.StepKeepsIff` | rca-agent-service/src/main.py:126-154 | exclusion and the agreement of rows with the event log survive a step together if and only if the step is not a `fail_run` by a task that never claimed, against a row that is owned or not running |
| `RunProtocol.RunKeepsIff` | rca-agent-service/src/main.py:126-154 | both hold in every state of a run exactly when every step of it is harmless in that sense |
| `RunProtocol.StepExcludesIff` | rca-agent-service/src/main.py:126-154 | exclusion alone survives a step if and only if the step is not a `fail_run` by a task that never claimed against a run that another task owns |
| `RunProtocol.RunExcludesIff` | rca-agent-service/src/main.py:126-154 | claims are exclusive in every state of a run exactly when no step steals a run in that sense |
| `RunProtocol.StepLogsIff` | rca-agent-service/src/db.py:76-130 | rows and log keep agreeing exactly when the step is not a `fail_run` by a task that never claimed on a row that is not running |
| `RunProtocol.FailExclusiveIff` | rca-agent-service/src/db.py:112-130 | what an unguarded `fail_run` does to exclusion, both directions, whether or not it changes a row |
| `RunProtocol.RunInv` | rca-agent-service/src/main.py:126-154 | if no claim raises, the invariant holds in every reachable state, whatever raises, dies or is cancelled after the claim |
| `RunProtocol.AtMostOneOwner` | rca-agent-service/src/main.py:126-141 | over every interleaving of any number of tasks, two owners of one run are the same task, and an owned run's row is `running` |
| `RunProtocol.RaisingClaimBreaksExclusion` | rca-agent-service/src/main.py:139-141 | a run with exactly one raising claim reaches a state in which a run has two owners |
| `RunProtocol.FailLogged` | rca-agent-service/src/db.py:112-130 | logging a failure keeps log and row in agreement exactly when the row is running |
| `RunProtocol.CompleteLoggedIff` | rca-agent-service/src/db.py:96-110 | logging a completion keeps log and row in agreement exactly when the row is running |
| `RunProtocol.ReplayIffShape` | rca-agent-service/src/db.py:76-130 | the status machine accepts a sequence of event kinds, ending in a status, exactly when it is created (running failed)* followed by nothing, running, or running completed, matching that status |
| `RunProtocol.LogTellsRow` | rca-agent-service/src/db.py:207-228 | in every reachable state: replaying a run's stored log gives its stored status and has that form; `startedAt` is the first claim, `completedAt` the last end; a result is stored iff completed; an error message iff failed, and the last event carries its first 500 characters |
| `RunProtocol.CompletedIsFinal` | rca-agent-service/src/db.py:96-110 | a completed run keeps its row, result and log under every continuation |
| `RunProtocol.LostOwnerStrands` | rca-agent-service/src/main.py:126-141 | an owner that is killed, or whose `fail_run` raises, leaves its run `running` with no owner |
| `RunProtocol.StrandedForever` | rca-agent-service/src/main.py:126-154 | such a run keeps its row and its log under every continuation without raising claims: no trigger, poll or claim gets it going again |
| `RunProtocol.CanEndIffOwned` | rca-agent-service/src/main.py:126-154 | while no claim raises, a running run can still end exactly when a task owns it |
| `RunOutcomes.ClaimSucceedsIff` | rca-agent-service/src/db.py:76-94 | a claim succeeds exactly on a run of the task's workspace whose event log ends with its creation or a failure |
| `RunOutcomes.PollSpawnsOldest` | rca-agent-service/src/db.py:193-205 | in every reachable state a poll spawns tasks for the workspace's three oldest pending runs, or for all of them, oldest first |
| `RunOutcomes.PolledTasks` | rca-agent-service/src/main.py:147-151 | each spawned task is its row's and has claimed nothing yet |
| `RunOutcomes.AnalysisIsStored` | rca-agent-service/src/main.py:133-141 | an owner whose analysis reports and completes stores exactly that report; one whose analysis raises and fails stores exactly that message |
| `RunOutcomes.OutcomesComeFromTasks` | rca-agent-service/src/db.py:96-130 | in every reachable state a stored result was reported, and a stored error raised, by one of the run's own tasks |
| `RcaAgent.RunRepository.MarkRunning` | rca-agent-service/src/db.py:76-94 | the claim is the conditional update with its event; it claims exactly a pending or failed run of the workspace; rows and log keep agreeing |
| `RcaAgent.RunRepository.CompleteRun` | rca-agent-service/src/db.py:96-110 | completion with its event, or nothing at all when no row matches and the transaction fails; rows and log still agree exactly when the run was running or nothing was written |
| `RcaAgent.RunRepository.FailRun` | rca-agent-service/src/db.py:112-130 | failure with its truncated event message, or nothing at all when the transaction fails; rows and log still agree exactly when the run was running or nothing was written |
| `RcaAgent.RunRepository.PendingRuns` | rca-agent-service/src/db.py:193-205 | the first pending rows of the workspace, in creation order, up to the limit |
| `RcaAgent.RunRepository.AddRunEvent` | rca-agent-service/src/db.py:207-228 | an event is appended exactly when its run exists in its workspace |
| `RcaAgent.RunRepository.CreateRun` | deployment-manager-service/src/rca/rca.service.ts:27-56 | the row and its first event appear together |
| `RcaAgent.Agent.StartRun` | rca-agent-service/src/main.py:54-67 | a trigger is accepted iff the run exists with that incident, and then spawns one task |
| `RcaAgent.Agent.PollPendingRuns` | rca-agent-service/src/main.py:144-154 | a sweep is the sequence of its workspaces' polls, each spawning a task per pending row it sees, and keeps the invariant |
| `RcaAgent.Agent.Begin` | rca-agent-service/src/main.py:128-132 | the claim, or its exception, is one step of the protocol and keeps its invariant; the task owns the run afterwards exactly when the log ended with its creation or a failure |
| `RcaAgent.Agent.Analyse` | rca-agent-service/src/main.py:133-136 | the analysis gives a report or an error to handle |
| `RcaAgent.Agent.Complete` | rca-agent-service/src/main.py:137-138 | completion, or its exception, is one step of the protocol |
| `RcaAgent.Agent.Handle` | rca-agent-service/src/main.py:139-141 | the handler fails the run with no ownership check, and keeps the protocol's invariant exactly when that is harmless |
| `EventBus.Bus.Publish` | rca-agent-service/src/events.py:13-16 | the message is appended to every queue of the run and to no other; the delivery invariant (delivered followed by queued is what was published to the run since registration, in order) is kept for every subscriber |
| `EventBus.Bus.Subscribe` | rca-agent-service/src/events.py:18-21 | a fresh empty queue joins the registered ones and the delivery invariant holds of it from now on |
| `EventBus.Bus.Next` | rca-agent-service/src/events.py:22-23 | the oldest queued message moves to the delivered ones |
| `EventBus.Bus.Unsubscribe` | rca-agent-service/src/events.py:24-25 | exactly that queue leaves, the others keep their order and their invariant |
| `EventBus.PublishedOne` | rca-agent-service/src/events.py:13-16 | publishing one message extends a subscriber's due messages by it iff the runs are equal |
| `Cluster.OwnersAreDisjoint` | deployment-manager-service/src/kubernetes/kubernetes.service.ts:96-114 | two deployments with different namespaces or base names own no common object |
| `Cluster.GoodFrame` | deployment-manager-service/src/kubernetes/kubernetes.service.ts:96-114 | a change to one deployment's own resources that leaves them linked keeps every other managed deployment linked |
| `Kubernetes.KubernetesService.BuildDeploymentManifest` | deployment-manager-service/src/kubernetes/builders/deployment-manifest.builder.ts:26-112 | the environment comes from exactly the wanted ConfigMap and Secret, the volumes from exactly the wanted file ConfigMap and Secret, each mounted at its path; the manifest refers to exactly the wanted ones and volume names are distinct |
| `Kubernetes.KubernetesService.DeployImage` | deployment-manager-service/src/kubernetes/kubernetes.service.ts:153-164 | for a deployment whose names are free and any pattern of failing calls: it succeeds exactly when the tenant policies are configurable and none of its calls fails; the trace gains a state for each of its calls, and in every one of them every ConfigMap and Secret its Deployment refers to and its routes' Service exist; no other deployment's objects change; success leaves every wanted resource, as wanted, in a namespace that exists with its policies |
| `Kubernetes.CompleteMeans` | deployment-manager-service/src/kubernetes/kubernetes.service.ts:575-869 | name by name, what a complete deployment has: which ConfigMaps, Secrets, Service and routes exist, the replicas, exactly which objects the manifest refers to, and the route's backend |
| `Kubernetes.WantedKeys` | deployment-manager-service/src/kubernetes/kubernetes.service.ts:607-760 | a file ConfigMap, Secret or secret-file Secret is wanted exactly when there are such files or values, routes exactly when exposed |
| `Kubernetes.KubernetesService.EnableApplicationRouting` | deployment-manager-service/src/kubernetes/kubernetes.service.ts:486-541 | gives up at once exactly when labelling fails or there is no namespace; when no route is there yet, both routes are created exactly when no call fails; otherwise the outcome tells whether the rollback completed, and after a completed one no route is left; the state after every one of its calls is sound |
| `Kubernetes.KubernetesService.RollBackRouting` | deployment-manager-service/src/kubernetes/kubernetes.service.ts:530-540 | deletes the redirect first and the route only after it; succeeds exactly when no call fails; what is left after a failure is exact |
| `Kubernetes.KubernetesService.CreateRoutes` | deployment-manager-service/src/kubernetes/kubernetes.service.ts:530-533 | both routes are there afterwards exactly when neither was before and no call fails |
| `Kubernetes.KubernetesService.DeleteDeploymentResources` | deployment-manager-service/src/kubernetes/kubernetes.service.ts:359-395 | succeeds exactly when none of its calls fails, whatever is already missing, so it can be retried to the end; the state after every one of its calls is sound, only this deployment's objects disappear, and success leaves none of them |
| `Kubernetes.KubernetesService.Upsert` | deployment-manager-service/src/kubernetes/kubernetes.service.ts:575-604 | read then replace or create: succeeds exactly when no call fails; the object is then stored, and otherwise nothing changed |
| `Kubernetes.KubernetesService.UpsertOptional` | deployment-manager-service/src/kubernetes/kubernetes.service.ts:607-656 | an optional resource is upserted when wanted and deleted when not; succeeds exactly when no call fails |
| `Kubernetes.KubernetesService.DeleteIfExists` | deployment-manager-service/src/kubernetes/kubernetes.service.ts:872-882 | removes the object; succeeds exactly when the call does not fail, whether or not the object was there |
| `Kubernetes.KubernetesService.EnsureNamespace` | deployment-manager-service/src/kubernetes/kubernetes.service.ts:398-421 | creates a missing namespace and, when enabled, reconciles its policies: succeeds exactly when those are configurable and no call fails, and then all of them exist; only namespaces and policies are touched |
| `Kubernetes.KubernetesService.ReconcilePolicies` | deployment-manager-service/src/kubernetes/kubernetes.service.ts:423-484 | one upsert per tenant policy up to the first failure: succeeds exactly when the gateway is configured and no call fails |
| `Kubernetes.KubernetesService.ScaleDeployment` | deployment-manager-service/src/kubernetes/kubernetes.service.ts:243-263 | succeeds exactly when the Deployment exists and the call does not fail, and then it has these replicas and nothing else changed |
| `Kubernetes.KubernetesService.RestartDeployment` | deployment-manager-service/src/kubernetes/kubernetes.service.ts:266-295 | succeeds exactly when the Deployment exists and the call does not fail, and then it carries this restart stamp and nothing else changed |
| `Kubernetes.KubernetesService.GetDeploymentReplicas` | deployment-manager-service/src/kubernetes/kubernetes.service.ts:224-240 | a read that changes nothing and gives the live count exactly when the Deployment exists and the call does not fail |
| `Kubernetes.DropSafe` | deployment-manager-service/src/kubernetes/kubernetes.service.ts:359-395 | why the deletion order is safe: a Service may go once its route is gone, configuration once the Deployment is gone |
| `Kubernetes.AddStep` | deployment-manager-service/src/kubernetes/kubernetes.service.ts:763-830 | why the creation order is safe: a Deployment may be added once its configuration is there, a route once its Service is |
| `Deployments.DeploymentsService.Create` | deployment-manager-service/src/deployments/deployments.service.ts:41-151 | record first, resources second; with a port it succeeds exactly when the tenant policies are configurable and no call fails, leaving the namespace, its policies and a Deployment with the record's replicas (one by default); a cluster error leaves a failed record and a part of the wanted resources; every record stays in step with the cluster |
| `Deployments.DeploymentsService.GetStatus` | deployment-manager-service/src/deployments/deployments.service.ts:169-203 | a deleted record is answered from the record without a call; any other gets an answer exactly when its Deployment is live and the call does not fail, and it is `running` exactly when it was or all of the Deployment's replicas, at least one, are ready; otherwise the status is the old one |
| `Deployments.DeploymentsService.Scale` | deployment-manager-service/src/deployments/deployments.service.ts:238-260 | succeeds exactly when the Deployment is live and the call does not fail; record and Deployment then change together, otherwise neither does; never on a deleted record |
| `Deployments.DeploymentsService.Stop` | deployment-manager-service/src/deployments/deployments.service.ts:263-285 | succeeds exactly when the Deployment is live and the call does not fail; record and Deployment then go to zero together, otherwise neither changes; never on a deleted record |
| `Deployments.DeploymentsService.Start` | deployment-manager-service/src/deployments/deployments.service.ts:288-311 | succeeds exactly when the Deployment is live and the call does not fail; record and Deployment then get the same count, otherwise neither changes; never on a deleted record |
| `Deployments.DeploymentsService.Restart` | deployment-manager-service/src/deployments/deployments.service.ts:314-328 | succeeds exactly when the Deployment is live and the call does not fail; then only the restart stamp and the status change; never on a deleted record |
| `Deployments.DeploymentsService.Delete` | deployment-manager-service/src/deployments/deployments.service.ts:331-351 | succeeds exactly when none of its calls fails, so a deletion retried after a failure at any call ends with none of the deployment's resources left; a failed one leaves the record as it was and only removes this deployment's objects; every record stays in step |
| `Deployments.OneChanges` | deployment-manager-service/src/deployments/deployments.service.ts:616-635 | changing one record and its own objects keeps every other record in step with the cluster |
| `Deployments.RecordRun` | deployment-manager-service/src/deployments/deployments.service.ts:238-328 | over every run of lifecycle operations: replicas = desiredReplicas = the last count given, `lastNonZeroReplicas` is the most recent positive count, `stoppedAt` is set iff there are no replicas, `running` implies replicas |
| `Deployments.StartRestores` | deployment-manager-service/src/deployments/deployments.service.ts:288-311 | a start without a count restores the last positive count, whatever stops, scalings to zero and restarts came before |
| `Deployments.StoppedIffNotRestarted` | deployment-manager-service/src/deployments/deployments.service.ts:238-328 | over every run of lifecycle operations on a created record: it is `stopped` exactly when it is not deleted, has no replicas and was not restarted since its last scale, stop or start |
| `Deployments.RunningIffReady` | deployment-manager-service/src/deployments/deployments.service.ts:169-328 | over every run of lifecycle operations: a live record is `running` exactly when it was seen fully ready, with replicas, since it was last scaled, stopped, started or restarted |
| `Deployments.ScaleChanges` | deployment-manager-service/src/deployments/deployments.service.ts:238-311 | writing a scale, stop or start to a live record and the same count to its Deployment keeps all records and the cluster in step |
| `Deployments.RestartedWhileStopped` | deployment-manager-service/src/deployments/deployments.service.ts:314-328 | an instance: a restart of a stopped deployment leaves status `creating` with no replicas |
| `Sessions.CleanupIsUnobservable` | deployment-manager-service/src/auth/session.service.ts:197-213 | for every sequence of operations with fresh tokens, removing all cleanups changes no reply of any other operation |
| `Sessions.CleanupUnobservableIff` | deployment-manager-service/src/auth/session.service.ts:197-213 | for every sequence of operations in time order: removing the cleanups changes no other reply exactly when no operation creates a state or token that a cleanup has swept away and that would otherwise still be stored |
| `Sessions.SweptIffExpired` | deployment-manager-service/src/auth/session.service.ts:197-213 | with positive lifetimes, the first such creation is of an entry that would still be stored and had expired by the last cleanup |
| `Sessions.CleanupObservableOnReuse` | deployment-manager-service/src/auth/session.service.ts:21-36 | an instance: a cleanup lets an expired state be created again |
| `Sessions.AuthenticateIffHistory` | deployment-manager-service/src/auth/session.service.ts:108-138 | `authenticate` succeeds exactly for a token created, never since replaced, destroyed or rejected, before creation + absolute limit and before the last success (or creation) + idle limit, in an active workspace |
| `Sessions.AuthenticateFollowsHistory` | deployment-manager-service/src/auth/session.service.ts:108-138 | the stored expiries refine the lease read off the history: the reply is the one the lease gives |
| `Sessions.LeaseIffUnbroken` | deployment-manager-service/src/auth/session.service.ts:73-101 | a token has a lease exactly when its history is unbroken, with the creation and last-success instants |
| `Sessions.ConsumeIffUnused` | deployment-manager-service/src/auth/session.service.ts:38-57 | a login state is consumed exactly when it was created less than ten minutes ago and not presented since, and gives the stored payload |
| `SessionService.SessionService.CreateLoginAttempt` | deployment-manager-service/src/auth/session.service.ts:21-36 | stores the attempt for ten minutes; a taken state changes nothing |
| `SessionService.SessionService.ConsumeLoginAttempt` | deployment-manager-service/src/auth/session.service.ts:38-57 | deletes the attempt in any case and returns it only before its expiry; on a regular history that is exactly when the state was created less than ten minutes ago and not presented since |
| `SessionService.SessionService.CreateSession` | deployment-manager-service/src/auth/session.service.ts:59-106 | the new session and the deletion of the replaced one, both or neither |
| `SessionService.SessionService.Authenticate` | deployment-manager-service/src/auth/session.service.ts:108-138 | deletes an expired or inactive session, otherwise slides the idle expiry, capped by the absolute one; on a regular history it succeeds exactly by the history rule |
| `SessionService.SessionService.Destroy` | deployment-manager-service/src/auth/session.service.ts:191-195 | the session is gone afterwards |
| `SessionService.SessionService.Cleanup` | deployment-manager-service/src/auth/session.service.ts:197-213 | removes exactly what has expired, in both tables, and returns how much that was |
| `LoginRedemption.RedeemedAtMostOnce` | deployment-manager-service/src/auth/session.service.ts:38-57 | over every interleaving of find and delete steps, redemptions plus stored rows never exceed creations, per state |
| `LoginRedemption.RedeemedWithinTenMinutes` | deployment-manager-service/src/auth/session.service.ts:21-57 | when the clock never goes back, each redemption found its attempt after a creation of that state and less than ten minutes after it |
| `LoginRedemption.StepConserves` | deployment-manager-service/src/auth/session.service.ts:40-52 | every step conserves that account |
| `LoginRedemption.FirstDeletionWins` | deployment-manager-service/src/auth/session.service.ts:40-52 | of two callbacks that found one attempt the first to delete decides: it redeems exactly an unexpired one, and unless the state is created again the other raises on its own deletion, whatever runs in between |
| `LoginRedemption.FirstFinderRedeems` | deployment-manager-service/src/auth/session.service.ts:21-57 | a created attempt that no other callback deletes first is redeemed by a callback that looks for it within ten minutes, whatever else runs in between |
| `Incidents.SignalsAreDistinct` | deployment-manager-service/src/incidents/incidents.service.ts:304-353 | exactly these signals, each when its condition holds, with its severity and what its summary says, and with distinct keys |
| `Incidents.AtMostOneOpen` | deployment-manager-service/src/incidents/incidents.service.ts:152-255 | over every interleaving, whatever rejects, with manual creation, manual runs and resolution at any time: never two open incidents with one deployment and rule key, as long as no pass begins while a worker of an earlier one is still to find or create |
| `Incidents.UniqueWithoutRejection` | deployment-manager-service/src/incidents/incidents.service.ts:152-255 | while nothing rejects no pass begins that way, so open incidents are unique |
| `Incidents.TickIsSafeIff` | deployment-manager-service/src/incidents/incidents.service.ts:152-185 | beginning a pass is safe, nothing that follows without another rejection opening a second incident with a key, exactly when no worker is still to find or create |
| `Incidents.StepKeeps` | deployment-manager-service/src/incidents/incidents.service.ts:152-255 | every step, a rejection included, keeps the invariant behind that: pending workers have distinct keys and belong to this pass, no creator is blocked |
| `Incidents.RejectionBreaksUniqueness` | deployment-manager-service/src/incidents/incidents.service.ts:187-209 | a run with exactly one rejection reaches a second open incident with one deployment and rule key |
| `Incidents.EveryAutomaticIncidentHasItsRun` | deployment-manager-service/src/incidents/incidents.service.ts:211-255 | with automatic RCA on, whatever rejects: automatic runs, starts in flight and rejected starts add up to the automatic incidents, in total and for each incident |
| `Incidents.RunAccounted` | deployment-manager-service/src/incidents/incidents.service.ts:211-255 | the same account with automatic RCA on or off, kept by every run |
| `Incidents.NoAutomaticRunsWhenOff` | deployment-manager-service/src/incidents/incidents.service.ts:293-295 | with automatic RCA off there are none, whatever rejects |
| `IncidentReports.SampledIsReported` | deployment-manager-service/src/incidents/incidents.service.ts:187-246 | while nothing rejects and nothing is resolved: once its batch has settled, every signal of every sampled deployment has an open incident with its key, severity and summary, whether the incident was there before or not |
| `IncidentReports.DoneIsReported` | deployment-manager-service/src/incidents/incidents.service.ts:211-246 | the same for each finished worker of the current batch |
| `IncidentsService.IncidentsService.BuildSignals` | deployment-manager-service/src/incidents/incidents.service.ts:304-353 | the pushes give exactly the specified signals in order |
| `IncidentsService.IncidentsService.BeginPass` | deployment-manager-service/src/incidents/incidents.service.ts:152-158 | a second pass does not begin while one runs; beginning one keeps the invariant when no worker is still to find or create |
| `IncidentsService.IncidentsService.StartBatch` | deployment-manager-service/src/incidents/incidents.service.ts:160-185 | one visit per deployment of a workspace, none of them visited in this pass before |
| `IncidentsService.IncidentsService.Visit` | deployment-manager-service/src/incidents/incidents.service.ts:187-209 | one worker per signal |
| `IncidentsService.IncidentsService.Abandon` | deployment-manager-service/src/incidents/incidents.service.ts:187-209 | a rejection abandons one worker and keeps the invariant |
| `IncidentsService.IncidentsService.FindExisting` | deployment-manager-service/src/incidents/incidents.service.ts:211-232 | finds the first open incident with the key, and goes on to create exactly when there is none |
| `IncidentsService.IncidentsService.UpdateExisting` | deployment-manager-service/src/incidents/incidents.service.ts:211-232 | the found incident gets the signal's severity and summary, nothing else of it changes and no other incident does |
| `IncidentsService.IncidentsService.CreateAutomatic` | deployment-manager-service/src/incidents/incidents.service.ts:233-246 | an open automatic incident with the signal's key, severity and summary is appended |
| `IncidentsService.IncidentsService.StartAutomaticRca` | deployment-manager-service/src/incidents/incidents.service.ts:247-255 | starts its run |
| `IncidentsService.IncidentsService.EndPass` | deployment-manager-service/src/incidents/incidents.service.ts:152-185 | clears the flag after the last batch has settled |
| `IncidentsService.IncidentsService.CreateManualIncident` | deployment-manager-service/src/incidents/incidents.service.ts:113-136 | an open manual incident without a rule key is appended, with the given severity or `warning` |
| `IncidentsService.IncidentsService.Resolve` | deployment-manager-service/src/incidents/incidents.service.ts:139-149 | closes the incident when there is one and changes nothing else |
| `Redaction.RedactedLeaksNothing` | rca-mcp-server/internal/preprocess/logs.go:71-77 | after both passes no substring is matched by either secret pattern, said without a scanner |
| `Redaction.PassCleans` | rca-mcp-server/internal/preprocess/logs.go:71-77 | replacing one pattern leaves no match of it and creates none of the other |
| `Redaction.RedactIdempotent` | rca-mcp-server/internal/preprocess/logs.go:71-77 | redacting twice is redacting once |
| `Redaction.RedactKeepsIff` | rca-mcp-server/internal/preprocess/logs.go:71-77 | a line is left alone exactly when it holds no secret |
| `Redaction.HitIsLongest` | rca-mcp-server/internal/preprocess/logs.go:12-15 | at every position the scanner returns a match of the pattern, the longest one, whenever there is one |
| `Redaction.CleanIffNoLeak` | rca-mcp-server/internal/preprocess/logs.go:12-15 | the scanner finds nothing at any position exactly when no substring is a secret |
| `Redaction.ReplaceAllIsLeftmostLongest` | rca-mcp-server/internal/preprocess/logs.go:71-77 | replacement is determined by the leftmost longest cut of the line: kept characters stay, each secret keeps its first group and the rest becomes the mask |
| `Redaction.LeftmostLongestExists` | rca-mcp-server/internal/preprocess/logs.go:71-77 | every line has such a cut |
| `Redaction.RedactIsTwoCuts` | rca-mcp-server/internal/preprocess/logs.go:71-77 | both passes: the line's assignments are masked first and the bearer tokens of what that leaves second, so the two cuts determine the result |
| `Redaction.AssignmentsGoFirst` | rca-mcp-server/internal/preprocess/logs.go:73-75 | such cuts exist for every line, and no assignment is left when bearer tokens are looked for |
| `LogDigest.Logs` | rca-mcp-server/internal/preprocess/logs.go:17-69 | the loop refines the declarative form: samples are the redactions of the first max(0, maxLines) non-blank trimmed lines in pod order, truncated iff there are more, exact error, stack and pattern counts; top patterns attached iff there are errors |
| `LogDigest.CollectPod` | rca-mcp-server/internal/preprocess/logs.go:25-46 | the same for one pod after any others |
| `LogDigest.DigestSamples` | rca-mcp-server/internal/preprocess/logs.go:31-48 | the samples are the first entries, as many as the limit allows, each redacted and classified; truncated iff entries are left |
| `LogDigest.DigestCounts` | rca-mcp-server/internal/preprocess/logs.go:36-43 | the counts are the numbers of error samples, of stack lines, and of samples with each pattern |
| `LogDigest.EntriesOfLines` | rca-mcp-server/internal/preprocess/logs.go:26-30 | of one pod, an entry for each line that is not blank when trimmed, in order |
| `LogDigest.EntriesInOrder` | rca-mcp-server/internal/preprocess/logs.go:25-25 | entries come pod by pod |
| `LogDigest.ClassifyIff` | rca-mcp-server/internal/preprocess/logs.go:79-88 | an error line mentions one of four words whatever the case, a warning another; found by position, without the scanner |
| `LogDigest.StackLineIff` | rca-mcp-server/internal/preprocess/logs.go:39-41 | a stack line begins with `at ` or holds `Traceback` |
| `LogPatterns.PatternHidesIds` | rca-mcp-server/internal/preprocess/logs.go:90-92 | before the cut no maximal word of a pattern is a long identifier or a number |
| `LogPatterns.MaskedSplit` | rca-mcp-server/internal/preprocess/logs.go:90-92 | a text is masked part by part wherever no word joins the parts |
| `LogPatterns.MaskedWord` | rca-mcp-server/internal/preprocess/logs.go:90-92 | a word of eight or more lower-case hexadecimal digits becomes `<id>`, even when it is a number; another number `<number>`; any other word stays |
| `LogPatterns.MaskedOther` | rca-mcp-server/internal/preprocess/logs.go:90-92 | any other character stays |
| `LogPatterns.PlainIsPattern` | rca-mcp-server/internal/preprocess/logs.go:90-92 | a line without either is left alone by the replacement |
| `LogPatterns.NormaliseIdempotentIff` | rca-mcp-server/internal/preprocess/logs.go:90-97 | normalising a pattern again changes nothing exactly when the cut at 160 has not made an identifier or a number of its last word |
| `LogPatterns.UncutIsIdempotent` | rca-mcp-server/internal/preprocess/logs.go:90-97 | a pattern that was not cut stays as it is |
| `LogPatterns.CutMakesNumber` | rca-mcp-server/internal/preprocess/logs.go:93-95 | an instance where the cut makes a number of `1a` |
| `LogDigest.PatternCountsAddUp` | rca-mcp-server/internal/preprocess/logs.go:43-45 | pattern counts sum to the number of samples, which the cap bounds |
| `LogDigest.SamplesLeakNothing` | rca-mcp-server/internal/preprocess/logs.go:34-45 | no collected sample holds a secret |
| `LogDigest.SplitLinesRoundTrip` | rca-mcp-server/internal/preprocess/logs.go:26-26 | splitting is inverted by joining with newlines, and no line holds one |
| `Ascii.TrimKeepsCore` | rca-mcp-server/internal/preprocess/logs.go:27-27 | trimming keeps what lies between the first and the last character that is not white space |
| `TopPatterns.SortDescending` | rca-mcp-server/internal/preprocess/logs.go:108-114 | the in-place exchange sort leaves a descending permutation |
| `TopPatterns.TopPatterns` | rca-mcp-server/internal/preprocess/logs.go:99-123 | a descending prefix, of the right length, of a listing of the map |
| `TopPatterns.CountsAreDetermined` | rca-mcp-server/internal/preprocess/logs.go:99-123 | the same counts come out whatever the map's iteration order |
| `TopPatterns.OmittedCountLess` | rca-mcp-server/internal/preprocess/logs.go:115-117 | an omitted pattern counts no more than any kept one, and none is omitted below the limit |
| `Metrics.PercentileIsNearestRank` | rca-mcp-server/internal/preprocess/metrics.go:62-74 | for 0 < p <= 1: the least value with at least ceil(p n) values not above it, and at least n - ceil(p n) + 1 not below |
| `Metrics.PercentileMonotone` | rca-mcp-server/internal/preprocess/metrics.go:62-74 | monotone in p, for every p |
| `Metrics.Percentile` | rca-mcp-server/internal/preprocess/metrics.go:62-74 | zero on an empty input, otherwise the clamped rank |
| `Metrics.CalculateStats` | rca-mcp-server/internal/preprocess/metrics.go:47-60 | the loop computes the sum of the unsorted values and the extremes and percentile of the sorted ones |
| `Metrics.StatsAreOrdered` | rca-mcp-server/internal/preprocess/metrics.go:47-60 | min <= avg <= max and min <= p95 <= max, min and max being the extremes |
| `Metrics.MeanAndPercentile` | rca-mcp-server/internal/preprocess/metrics.go:47-60 | the average times the count is the sum; 95 of 100 values, and no fewer, are at most the 95th percentile |
| `Metrics.SumConcat` | rca-mcp-server/internal/preprocess/metrics.go:51-54 | the sum adds up over parts |
| `Metrics.SpikeNeedsPoints` | rca-mcp-server/internal/preprocess/metrics.go:32-32 | a spike needs two points, and three when no value is negative |
| `Metrics.SpikeOfTwoIff` | rca-mcp-server/internal/preprocess/metrics.go:32-32 | two points spike exactly when they lie on either side of zero |
| `Metrics.SpikeOfTwo` | rca-mcp-server/internal/preprocess/metrics.go:32-32 | an instance with a negative value |
| `Metrics.Metrics` | rca-mcp-server/internal/preprocess/metrics.go:13-45 | empty series are skipped; the last series of a name wins; the limit, when positive, cuts and marks the samples |
| `Metrics.KeptInOrder` | rca-mcp-server/internal/preprocess/metrics.go:19-41 | the series that are kept are those of each part, in order |
| `Metrics.SpikesInOrder` | rca-mcp-server/internal/preprocess/metrics.go:19-41 | so are the names of the spikes |
| `Metrics.OneSeries` | rca-mcp-server/internal/preprocess/metrics.go:24-34 | a series with values is kept, and named when its maximum is positive and over twice its average |
| `Metrics.LastSeriesWins` | rca-mcp-server/internal/preprocess/metrics.go:27-31 | a name has the statistics of the last of its series that has values |
| `EvidenceWindow.WindowEndsByCollection` | deployment-manager-service/src/evidence/evidence.service.ts:349-373 | the window, option by option: from the given start, or ten minutes or the given lookback before the trigger, to the given end, or two minutes or the given lookahead after it, and never past collection |
| `EvidenceWindow.LineKeptIff` | deployment-manager-service/src/evidence/evidence.service.ts:421-440 | a line is kept exactly when it carries no stamp or its stamp lies in the window |
| `EvidenceWindow.SecondsBetween` | deployment-manager-service/src/evidence/evidence.service.ts:375-377 | the least whole number of seconds, at least one, that covers the span |
| `EvidenceWindow.WindowCompleteIff` | deployment-manager-service/src/evidence/evidence.service.ts:42-73 | for a fetch made within the slack that rounding up to seconds leaves: filtering the fetched log equals filtering the whole log exactly when every line without a stamp was fetched |
| `EvidenceWindow.StampedLogsAreCompleteIff` | deployment-manager-service/src/evidence/evidence.service.ts:42-73 | every stamped log is collected completely exactly when the fetch is made within the slack, or the window is empty |
| `EvidenceWindow.LateFetchMisses` | deployment-manager-service/src/evidence/evidence.service.ts:66-73 | a later fetch misses a line stamped with the window's start |
| `EvidenceWindow.EmptyWindow` | deployment-manager-service/src/evidence/evidence.service.ts:375-377 | a window starting after collection asks for one second and keeps only the unstamped lines fetched in it, whenever the fetch is made |
| `EvidenceWindow.KeptInOrder` | deployment-manager-service/src/evidence/evidence.service.ts:421-433 | a filter's result is what stands at increasing places of its input |
| `EvidenceWindow.PlacesOfKept` | deployment-manager-service/src/evidence/evidence.service.ts:435-440 | and those places are exactly the ones that pass |
| `EvidenceWindow.FilterFetchedIff` | deployment-manager-service/src/evidence/evidence.service.ts:379-433 | a fetch before a filter is unobservable exactly when everything the filter keeps was fetched |
| `EvidenceWindow.EventKeptIff` | deployment-manager-service/src/evidence/evidence.service.ts:379-399 | an event is kept exactly when it is a record and the first of its three times that parses, if any, lies in the window |
| `DnsNames.NormaliserJoinsWords` | deployment-manager-service/src/deployments/deployment-routing.ts:21-27 | the regex pipeline computes the words of the lower-cased name joined by single hyphens |
| `DnsNames.FixedIffTidy` | deployment-manager-service/src/deployments/deployment-routing.ts:21-27 | its fixed points are exactly the tidy names |
| `DnsNames.RoutingIdempotent` | deployment-manager-service/src/deployments/deployment-routing.ts:21-27 | the routing normaliser is idempotent |
| `DnsNames.KubernetesIdempotentIff` | deployment-manager-service/src/kubernetes/kubernetes.service.ts:971-978 | the Kubernetes copy is idempotent except where its cut at 45 falls just after a hyphen |
| `DnsNames.ResourceNamesAreLabels` | deployment-manager-service/src/kubernetes/kubernetes.service.ts:96-114 | for every app name and UUID all eight resource names are labels of at most 63 characters |
| `DnsNames.JobNameIsLabel` | deployment-manager-service/src/kubernetes/kubernetes.service.ts:131-136 | so is every build Job name |
| `DnsNames.ServiceNameIsStrictIff` | deployment-manager-service/src/kubernetes/kubernetes.service.ts:96-114 | the Service name meets the stricter grammar of section 2.3.1 of RFC 1035 exactly when the app name's first word does not start with a digit |
| `DnsNames.BaseIs` | deployment-manager-service/src/kubernetes/kubernetes.service.ts:96-136 | every resource and Job name, in terms of the first 32 characters of the normalised app name, or `app`, and the first eight of the id in lower case |
| `DnsNames.SameBaseIff` | deployment-manager-service/src/kubernetes/kubernetes.service.ts:96-114 | two deployments share a base name exactly when those two parts agree |
| `DnsNames.HostnameIsBelowWildcard` | deployment-manager-service/src/deployments/deployment-routing.ts:4-19 | the public hostname is exactly one label below the wildcard's zone, and that label is the Kubernetes deployment name |
| `DnsNames.HostnameIffWildcard` | deployment-manager-service/src/deployments/deployment-routing.ts:1-14 | a hostname is built exactly when the trimmed, lower-cased setting is `*.` followed by two or more labels separated by dots |

## Left out

- HTTP, OIDC, JWT, AES-GCM, SHA-256 and cookies: library calls; hashes and tokens are abstract and injective.
- Tenant isolation and row-level security: the policies are in database migrations that are not part of this model.
- Prometheus, Loki, Tempo and LangGraph adapters, LLM calls and chat threads: input and output around unseen libraries.
- The Kubernetes log fallback of the telemetry service: it looks back from now and not from the window's end, so no completeness is claimed for it.
- The contents of NetworkPolicy and HTTPRoute manifests, ports, images, labels, and the contents and item keys of ConfigMaps and Secrets: constants and copies.
- Image, build, file path and permission checks of a deployment request: only the missing port is modelled, and Create takes a request that passed the others.
- Records without resource names: every record of the model has all the names that creation gives it.
- The namespace label patch of application routing is a call that may fail and changes nothing the model keeps.
- The deletion of a deployment row together with its runs: an RCA run's row is never deleted in the model.
- Overlapping service operations on one deployment, process crashes between two statements and ambiguous commits: the code makes no promise there.
- A second process running detection: the re-entrancy flag is per process.
- Publishing is one step and does not raise: the queues are unbounded, so no put waits, and the payloads of status events are strings. An exception in `run_rca` therefore never follows the commit of a completion.
- Rows with equal creation times are taken in insertion order.
- Floating-point rounding: metrics are over real numbers.
- Unicode case folding and white space beyond ASCII.
- The titles and metadata of incidents; their summaries are kept as what they say, with the numbers and not the wording.
- Lengths of the wildcard's own labels and of the whole public hostname: the source does not bound them.
- The tail cap on fetched log lines, and health samples and other sources of an evidence snapshot.
- updateTokens and getStored of sessions: they neither read nor write the expiries.
- Kubernetes.KubernetesService.UpsertOptional: its contract is for a deployment whose names are free, where a deletion of an unwanted resource finds nothing; redeployment over existing resources is not part of the source's create path.
- Deployments.DeploymentsService.Create: requires that the base name is free; SameBaseIff says when two deployments would share one.
