/**
 * `syncLoadBalancer` and `cleanup`: the dispatch of one work item and the
 * removal of the provider's deployments once the load balancer is gone.
 *
 * Reads of the cluster arrive as inputs: the validation verdict, the result
 * of the lister lookup, and the claimed deployment list of a load balancer,
 * given as a function because the two paths claim for different objects
 * (the event's load balancer on cleanup, the fresh one on sync).
 */
module Reconcile {
  import opened Wrappers
  import opened Objects
  import opened Descriptor
  import opened Converge

  /** The lister lookup of the load balancer by namespace and name. */
  datatype Lookup = Found(current: LoadBalancer) | NotFound | LookupError(reason: string)

  /** Deletion of the provider's deployments: 30 seconds of grace, dependents first. */
  const CleanupOptions := DeleteOptions(30, Foreground)

  /** One delete per deployment, in list order, each in the deployment's own namespace. */
  function Deletions(ds: seq<Deployment>): seq<Call>
    decreases |ds|
  {
    if ds == [] then [] else [DeleteDeployment(ds[0].namespace, ds[0].name, CleanupOptions)] + Deletions(ds[1..])
  }

  /** What `cleanup` issues and returns; the errors of the deletes are dropped. */
  function CleanupOutcome(claimed: Result<seq<Deployment>>): Outcome {
    match claimed
    case Failure(e) => Outcome([], Some(ClaimFailed(e)))
    case Success(ds) => Outcome(Deletions(ds), None)
  }

  lemma {:induction false} DeletionsAppend(a: seq<Deployment>, b: seq<Deployment>)
    ensures Deletions(a + b) == Deletions(a) + Deletions(b)
    decreases |a|
  {
    if a == [] {
      assert a + b == b;
    } else {
      assert (a + b)[0] == a[0];
      assert (a + b)[1..] == a[1..] + b;
      DeletionsAppend(a[1..], b);
    }
  }

  lemma {:induction false} DeletionsExactly(ds: seq<Deployment>)
    ensures |Deletions(ds)| == |ds|
    ensures forall i :: 0 <= i < |ds| ==> Deletions(ds)[i] == DeleteDeployment(ds[i].namespace, ds[i].name, CleanupOptions)
    decreases |ds|
  {
    if ds != [] {
      DeletionsExactly(ds[1..]);
      forall i | 1 <= i < |ds|
        ensures Deletions(ds)[i] == DeleteDeployment(ds[i].namespace, ds[i].name, CleanupOptions)
      {
        assert Deletions(ds)[i] == Deletions(ds[1..])[i - 1];
        assert ds[1..][i - 1] == ds[i];
      }
    }
  }

  /**
   * `cleanup` returns an error only when claiming fails, and then issues
   * nothing; otherwise it deletes each claimed deployment exactly once, in
   * order, with a 30 second grace period and foreground propagation, and no
   * other call, whatever the cluster answers.
   */
  lemma {:induction false} CleanupDeletesEachClaimed(claimed: Result<seq<Deployment>>)
    ensures claimed.Failure? <==> CleanupOutcome(claimed).err.Some?
    ensures claimed.Failure? ==> CleanupOutcome(claimed) == Outcome([], Some(ClaimFailed(claimed.error)))
    ensures claimed.Success? ==>
      var calls := CleanupOutcome(claimed).calls;
      && |calls| == |claimed.value|
      && (forall i :: 0 <= i < |calls| ==>
            && calls[i].DeleteDeployment?
            && calls[i].namespace == claimed.value[i].namespace
            && calls[i].name == claimed.value[i].name
            && calls[i].options.gracePeriodSeconds == 30
            && calls[i].options.propagationPolicy == Foreground)
  {
    if claimed.Success? {
      DeletionsExactly(claimed.value);
    }
  }

  /** `cleanup` on the claimed deployments of the deleted load balancer. */
  method Cleanup(claimed: Result<seq<Deployment>>) returns (out: Outcome)
    ensures out == CleanupOutcome(claimed)
  {
    if claimed.Failure? {
      return Outcome([], Some(ClaimFailed(claimed.error)));
    }
    var ds := claimed.value;
    var calls: seq<Call> := [];
    for i := 0 to |ds|
      invariant calls == Deletions(ds[..i])
    {
      var d := ds[i];
      assert ds[..i + 1] == ds[..i] + [d];
      DeletionsAppend(ds[..i], [d]);
      // the delete's error is not inspected
      calls := calls + [DeleteDeployment(d.namespace, d.name, CleanupOptions)];
    }
    assert ds[..|ds|] == ds;
    out := Outcome(calls, None);
  }

  /**
   * `syncLoadBalancer` for the load balancer `lb` of a work item.
   * `invalid` is the verdict of the scheme validation, `lookup` the lister
   * lookup, `claim` the claimed deployments of a load balancer, and
   * `replicas` the computed replica count of the fresh load balancer.
   */
  method SyncLoadBalancer(lb: LoadBalancer, invalid: Option<string>, lookup: Lookup,
                          claim: LoadBalancer -> Result<seq<Deployment>>,
                          image: string, replicas: Int32, suffix: string,
                          copyFails: Deployment -> bool, fails: Call -> bool)
    returns (out: Outcome)
    ensures invalid.Some? ==> out == Outcome([], Some(Invalid(invalid.value)))
    ensures invalid.None? && lookup.NotFound? ==> out == CleanupOutcome(claim(lb))
    ensures invalid.None? && lookup.LookupError? ==> out == Outcome([], Some(LookupFailed(lookup.reason)))
    ensures invalid.None? && lookup.Found? && lookup.current.uid != lb.uid ==> out == Outcome([], None)
    ensures invalid.None? && lookup.Found? && lookup.current.uid == lb.uid ==>
      var nlb := lookup.current;
      match claim(nlb)
      case Failure(e) => out == Outcome([], Some(ClaimFailed(e)))
      case Success(ds) =>
        if nlb.deletionTimestamp.Some? then out == Outcome([], None)
        else out == SyncOutcome(Context(nlb, GenerateDeployment(nlb, image, replicas, suffix), copyFails, fails), ds)
  {
    if invalid.Some? {
      return Outcome([], Some(Invalid(invalid.value)));
    }
    match lookup
    case NotFound =>
      out := Cleanup(claim(lb));
    case LookupError(reason) =>
      out := Outcome([], Some(LookupFailed(reason)));
    case Found(nlb) =>
      if lb.uid != nlb.uid {
        return Outcome([], None);
      }
      var claimed := claim(nlb);
      if claimed.Failure? {
        return Outcome([], Some(ClaimFailed(claimed.error)));
      }
      if nlb.deletionTimestamp.Some? {
        return Outcome([], None);
      }
      out := Sync(nlb, claimed.value, image, replicas, suffix, copyFails, fails);
  }
}
