/** Small failure-carrying wrappers used throughout the model. */
module Wrappers {
  datatype Option<+T> = None | Some(value: T)

  /** The outcome of a foreign call that either yields a value or an error message. */
  datatype Result<+T> = Success(value: T) | Failure(error: string)
}

/**
 * The Kubernetes objects the ipvsdr provider reads and writes, reduced to
 * the fields its reconcile logic merges or compares and the identifying fields
 * it builds; pod fields it builds but never reads (tolerations, resource
 * limits, environment variables, volumes) are not kept. Pointers in the
 * Go structs become plain values (`Option` where nil is observable), and a
 * deep copy is simply the value itself.
 */
module Objects {
  import opened Wrappers

  /** Go's `int32`, the type of `Spec.Replicas`. */
  newtype Int32 = x: int | -0x8000_0000 <= x < 0x8000_0000

  datatype OwnerReference = OwnerReference(
    apiVersion: string,
    kind: string,
    name: string,
    uid: string,
    controller: bool,
    blockOwnerDeletion: bool)

  datatype NodeSelectorRequirement = NodeSelectorRequirement(key: string, operator: string, values: seq<string>)

  /** A preferred scheduling term: a weight and a conjunction of requirements. */
  datatype PreferredSchedulingTerm = PreferredSchedulingTerm(weight: int, requirements: seq<NodeSelectorRequirement>)

  /**
   * Node affinity: the required node selector (a disjunction of terms, each a
   * conjunction of requirements; `None` is a nil selector) and the preferred
   * terms. The merge replaces and compares both parts as a whole.
   */
  datatype NodeAffinity = NodeAffinity(
    required: Option<seq<seq<NodeSelectorRequirement>>>,
    preferred: seq<PreferredSchedulingTerm>)

  datatype PodAffinityTerm = PodAffinityTerm(matchLabels: map<string, string>, topologyKey: string)

  datatype Affinity = Affinity(nodeAffinity: Option<NodeAffinity>, podAntiAffinity: seq<PodAffinityTerm>)

  datatype Container = Container(name: string, image: string, imagePullPolicy: string, privileged: bool)

  datatype PodTemplate = PodTemplate(
    labels: map<string, string>,
    hostNetwork: bool,
    terminationGracePeriodSeconds: int,
    affinity: Option<Affinity>,
    containers: seq<Container>)

  datatype Deployment = Deployment(
    name: string,
    namespace: string,
    labels: map<string, string>,
    ownerReferences: seq<OwnerReference>,
    replicas: Int32,
    template: PodTemplate)
  {
    /** The pod fields `ensureDeployment` dereferences: container 0 and the affinity struct. */
    predicate HasPodFields() {
      |template.containers| > 0 && template.affinity.Some?
    }

    function PodImage(): string
      requires |template.containers| > 0
    {
      template.containers[0].image
    }

    function PodNodeAffinity(): Option<NodeAffinity>
      requires template.affinity.Some?
    {
      template.affinity.value.nodeAffinity
    }
  }

  /** The logical load balancer: identity and the soft-delete marker. */
  datatype LoadBalancer = LoadBalancer(namespace: string, name: string, uid: string, deletionTimestamp: Option<string>)

  datatype PropagationPolicy = Orphan | Background | Foreground

  datatype DeleteOptions = DeleteOptions(gracePeriodSeconds: int, propagationPolicy: PropagationPolicy)

  /** One request issued to the cluster, in the order the controller issues them. */
  datatype Call =
    | UpdateDeployment(namespace: string, deployment: Deployment)
    | CreateDeployment(namespace: string, deployment: Deployment)
    | DeleteDeployment(namespace: string, name: string, options: DeleteOptions)
    | SyncStatus(lb: LoadBalancer, active: Deployment)

  /** The Go runtime panics a pass can hit. */
  datatype Panic = NilDeepCopy | ContainerIndexOutOfRange | NilAffinity

  datatype Failure =
    | Invalid(reason: string)
    | LookupFailed(reason: string)
    | ClaimFailed(reason: string)
    | Rejected(call: Call)
    | Crash(panic: Panic)

  /** What one reconcile step did: the calls it issued and the error it returned (None is Go's nil). */
  datatype Outcome = Outcome(calls: seq<Call>, err: Option<Failure>)
}
