# ipvsdr provider reconcile, modelled in Dafny

This project models the reconcile core of the ipvsdr load-balancer provider
(`provider/providers/ipvsdr/ipvsdr.go`). It handles one load balancer work item:

1. It validates the item, looks the load balancer up and claims its
   deployments.
2. It then either cleans up after a deleted load balancer, or runs one `sync`
   pass.
3. A `sync` pass keeps exactly one provider deployment, merged with the
   desired deployment. It scales every other claimed deployment to zero
   replicas. It creates the desired deployment when no claimed deployment
   carries the provider prefix.
4. Finally it hands the active deployment to the status update.

Every cluster interaction becomes a value:

- **Deployments and load balancers** are immutable datatypes. They keep the
  fields the reconcile logic builds, merges or compares, and leave out the pod
  fields it never reads (listed under "Left out"). Node affinity keeps both
  its required selector, which may be nil, and its preferred terms, since the
  merge replaces and compares it as a whole. A deep copy is
  the value itself, so the deployment passed to `ensureDeployment` is never
  modified.
- **Client requests** (update, create, delete, status) are `Call` records.
  Each step of the model returns them in issue order inside an `Outcome`,
  together with the error the Go function returns.
- **Whether the cluster rejects a call** is the input `fails: Call -> bool`.
  **Whether a deep copy fails** is the input `copyFails: Deployment -> bool`.
- **Results of reads** are inputs: the validation verdict, the lister lookup
  and the claimed deployment list. So are the configured image, the computed
  replica count and the random name suffix.
  The order of the claimed list is whatever the
  cache returns, so no lemma fixes it; `ReorderedSecondPassFlips` shows that
  the order decides the target.
- **Go runtime panics** the code can hit become a `Crash` failure that ends
  the pass. They are indexing container 0, dereferencing a nil affinity, and
  writing through the nil copy of a scale-down.

Files:

- `objects.dfy`: the object model (modules `Wrappers`, `Objects`).
- `descriptor.dfy`: `selector`, `filteredByLabel`, `generateDeployment`
  (module `Descriptor`).
- `ensure.dfy`: `ensureDeployment` (module `Ensure`).
  - `Merge` and `Changed` are the functions that specify it.
  - The method `EnsureDeployment` keeps the source's label loop. It is proved
    equal to `Ensured`.
- `sync.dfy`: `sync` (module `Converge`).
  - `Run` is the left fold of one loop iteration `Step` over the list.
  - `SyncOutcome` adds the create and the status update after the loop.
  - The method `Sync` is the source's loop with the `updated` flag and
    `activeDeploy`. It is proved equal to `SyncOutcome`.
  - The lemmas state the promises of the pass about the fold.
- `reconcile.dfy`: `cleanup` and the dispatch of `syncLoadBalancer` (module
  `Reconcile`).

## Model

| member | source | states |
|---|---|---|
| Descriptor.FilteredByLabelIff | provider/providers/ipvsdr/ipvsdr.go:161-167 | `FilteredByLabel` (modelling `filteredByLabel`): an object is filtered exactly when its labels lack the provider label or carry a value other than `ipvsdr` |
| Descriptor.SelectedNotFiltered | provider/providers/ipvsdr/ipvsdr.go:145-150 | `Selector` (modelling `selector`: created-by `ns/name` and provider `ipvsdr`): any labels matched by a load balancer's claim selector pass the provider's event filter |
| Descriptor.GenerateDeployment | provider/providers/ipvsdr/ipvsdr.go:369-509 | the desired deployment has a container 0 and an affinity, the two pod fields the merge dereferences |
| Descriptor.GeneratedIsSelfRecognising | provider/providers/ipvsdr/ipvsdr.go:369-447 | the generated deployment: <br>– is named `lb.Name + "-provider-ipvsdr-" + suffix`, so it meets the prefix test of the next pass; <br>– has labels, and pod-template labels, equal to the selector (created-by `ns/name`, provider `ipvsdr`), so the claim selector matches it and the label filter keeps it and its pods; <br>– has the given image and replica count; <br>– has a node affinity requiring exactly the node label `UniqueLabelKey(ns, name)` In `true`, with no preferred terms; <br>– has a single owner reference carrying the load balancer's name and UID, with controller and blockOwnerDeletion set |
| Ensure.Merge | provider/providers/ipvsdr/ipvsdr.go:318-327 | the merged labels are the union of the keys, desired values win and existing-only keys keep their value; replicas, image of container 0 and the node affinity as a whole (required selector and preferred terms) are desired's; every other field equals the existing deployment's |
| Ensure.ChangedIffDiffers | provider/providers/ipvsdr/ipvsdr.go:329-335 | `changed` holds exactly when the merged copy differs from the existing deployment (no spurious and no missed update) |
| Ensure.MergeIdempotent | provider/providers/ipvsdr/ipvsdr.go:312-347 | merging the merged copy again yields it unchanged, `changed` is false, and `ensureDeployment` on it reports no change |
| Ensure.UntouchedDetermines | provider/providers/ipvsdr/ipvsdr.go:318-327 | a deployment is determined by the four merged fields together with everything else |
| Ensure.EnsureDeployment | provider/providers/ipvsdr/ipvsdr.go:312-347 | the method returns exactly `Ensured`: <br>– an error when the deep copy fails; <br>– a panic when container 0 or the affinity is missing on either side; <br>– otherwise the merged copy and the change flag |
| Converge.Sync | provider/providers/ipvsdr/ipvsdr.go:258-310 | the loop with `updated` and `activeDeploy` issues the calls and returns the error of the specification `SyncOutcome` |
| Converge.FirstTarget | provider/providers/ipvsdr/ipvsdr.go:265-270 | the index of the first deployment whose name has the prefix `lb.Name + "-provider-ipvsdr"`; no earlier name has it |
| Converge.RunHalted | provider/providers/ipvsdr/ipvsdr.go:290-293 | once the loop returns an error, no later deployment is visited |
| Converge.RunSurplus | provider/providers/ipvsdr/ipvsdr.go:270-281 | once a target is chosen, or when no name is prefixed, and when no scale-down copy fails, the loop only appends one scale-down per deployment with replicas; rejected scale-downs are ignored |
| Converge.ScaleDownsExactly | provider/providers/ipvsdr/ipvsdr.go:271-279 | each scale-down call is an update, in the load balancer's namespace, of a listed deployment with non-zero replicas, identical except for zero replicas; every such deployment gets one; deployments already at zero get none |
| Converge.UpdatedIffTargetSeen | provider/providers/ipvsdr/ipvsdr.go:270-283 | after any prefix of the list, `updated` is set exactly when the first prefixed deployment is in that prefix |
| Converge.OnlyFirstTargetIsMerged | provider/providers/ipvsdr/ipvsdr.go:265-283 | single target: a deployment takes the merge branch exactly when it is the first prefixed one; later prefixed deployments are surplus |
| Converge.SyncWithoutTarget | provider/providers/ipvsdr/ipvsdr.go:299-309 | with no prefixed deployment (the empty list included) and no scale-down copy failing, the pass scales down all deployments with replicas, then creates the desired deployment: it returns the create error, or the status update of the desired deployment |
| Converge.SyncWithTarget | provider/providers/ipvsdr/ipvsdr.go:265-309 | with a target, and no scale-down copy failing, the pass: <br>– scales down the deployments with replicas before and after it; <br>– updates the target only when changed; <br>– creates nothing, even when the target's copy failed; <br>– hands the merged target to the status update, or the desired deployment when the copy failed |
| Converge.SyncScaleDownCopyFails | provider/providers/ipvsdr/ipvsdr.go:276-278 | a failed deep copy of a deployment to be scaled down panics when its replicas are set: the pass ends with the calls issued so far, with no create and no status update |
| Converge.SyncTargetUpdateRejected | provider/providers/ipvsdr/ipvsdr.go:288-293 | a rejected update of the target returns that error at once; nothing later is scaled down, created or reported |
| Converge.SyncTargetCrashed | provider/providers/ipvsdr/ipvsdr.go:283-284 | a panic in the target's merge ends the pass after the earlier scale-downs |
| Converge.CreateOnlyWithoutTarget | provider/providers/ipvsdr/ipvsdr.go:283-307 | a create is issued only when no listed name carries the prefix |
| Converge.CreateIffNoTarget | provider/providers/ipvsdr/ipvsdr.go:283-307 | when no scale-down panics, a create is issued if and only if no listed name carries the prefix |
| Converge.SecondPassQuiet | provider/providers/ipvsdr/ipvsdr.go:258-310 | the next pass after a successful one is quiet when: <br>– the claimed list holds the merged target among deployments at zero replicas, listed in any order that puts no prefixed name before it; <br>– the desired deployment differs only in its fresh name. <br>It finds the same target and issues no update and no create, only the status update of the merged target |
| Converge.ReorderedSecondPassFlips | provider/providers/ipvsdr/ipvsdr.go:265-296 | the claimed order decides the target: a zeroed second prefixed deployment listed before the merged target becomes the target and is updated back to the desired replicas; once that update is accepted, the merged target is scaled to zero |
| Converge.NextPassAdoptsCreated | provider/providers/ipvsdr/ipvsdr.go:299-310 | the pass after a create adopts the created deployment as its target, though it generates a new name suffix. The created deployment is stored in the load balancer's namespace and is claimed together with the deployments the creating pass scaled to zero, in any order. The pass issues only the status update of that deployment |
| Reconcile.DeletionsExactly | provider/providers/ipvsdr/ipvsdr.go:358-364 | the cleanup calls are one delete per claimed deployment, in list order, by its namespace and name, with grace 30 and foreground propagation |
| Reconcile.CleanupDeletesEachClaimed | provider/providers/ipvsdr/ipvsdr.go:350-367 | cleanup: <br>– returns an error exactly when claiming fails, and then issues nothing; <br>– otherwise issues only the deletes (grace 30, foreground), one per claimed deployment, whatever the cluster answers |
| Reconcile.Cleanup | provider/providers/ipvsdr/ipvsdr.go:350-367 | the loop issues exactly the calls and the error of `CleanupOutcome` |
| Reconcile.SyncLoadBalancer | provider/providers/ipvsdr/ipvsdr.go:178-225 | in order: <br>– a validation failure returns its error; <br>– not found cleans up with the event's load balancer; <br>– another lookup error is returned; <br>– a UID mismatch returns nil with no call; <br>– a claim failure is returned; <br>– a deletion timestamp returns nil with no call; <br>– otherwise the outcome is the `sync` pass of the fresh load balancer over its claimed list |

## Left out

- `Init` and `Run` are informers, the work queue, worker goroutines and the stop channel. They are concurrency and plumbing.
- `OnSync` is left out. Its type test only gates enqueueing.
- `getValidVRID` is unused and random.
- `syncLoadBalancer`'s type assertion on the queue item is not modelled. The item is taken to be a load balancer.
- The deferred logging and timing are not modelled.
- `getDeploymentsForLoadBalancer` is an input (`claim`): a claimed list or an error per load balancer.
  - Adoption and release by the controller-ref manager, and the quorum re-read of the deletion timestamp, are done by code that is not part of this model.
- `validation.ValidateLoadBalancer` is an input (`invalid`).
  - `lbutil.CalculateReplicas` (`replicas`) and `lbutil.RandStringBytesRmndr(5)` (`suffix`) are inputs too. So are the deep copy's failure (`copyFails`) and the provider image.
- `syncStatus` is a single `SyncStatus` call, and its error is the pass's error. What it writes to the load balancer status is not part of this model.
- The client's Create, Update and Delete are recorded calls. Their success is an input, decided per call, with no cluster semantics.
- The label key constants and format strings of the networking API package are not part of this model. The values in `Descriptor` are stand-ins: distinct keys, and the `ns/name` and node-label formats. The owner reference's API version and kind are stand-ins of the same kind.
- Pod fields that `sync` never inspects are not in the object model: tolerations, resource limits, security-context details other than `privileged`, environment variables, volumes and mounts.
- Go nil-versus-empty distinctions are not modelled:
  - A nil `Spec.Replicas` would panic, which the model does not capture.
  - A nil label map on the copy would panic on write, which the model does not capture.
  - `reflect.DeepEqual` telling a nil slice or map from an empty one is not captured.
- Descriptor.GenerateDeployment: its own contract states only that container 0 and the affinity exist. `GeneratedIsSelfRecognising` states the other modelled fields: the name, the labels and pod-template labels, the owner reference's count, name, UID and controller and blockOwnerDeletion flags, the image, the replica count and the node affinity. The host network, grace period, anti-affinity, container name and pull policy, and the owner reference's API version and kind are built but stated by no lemma.
