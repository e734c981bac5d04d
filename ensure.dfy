/**
 * `ensureDeployment`: converge an existing deployment towards the desired
 * one on four fields (labels, replicas, the image of container 0 and the
 * node affinity) and report whether any of them changed.
 */
module Ensure {
  import opened Wrappers
  import opened Objects

  /** The result of `ensureDeployment`; `CopyFailed` is its error return, `Crashed` a Go panic. */
  datatype EnsureResult =
    | Merged(merged: Deployment, changed: bool)
    | CopyFailed
    | Crashed(panic: Panic)

  /**
   * The deployment with the four merged fields blanked out: everything that
   * `ensureDeployment` must leave as it found it.
   */
  function Untouched(d: Deployment): Deployment
    requires d.HasPodFields()
  {
    var t := d.template;
    d.(labels := map[], replicas := 0,
       template := t.(containers := t.containers[0 := t.containers[0].(image := "")],
                      affinity := Some(t.affinity.value.(nodeAffinity := None))))
  }

  /** The merged copy: labels overlaid with the desired ones, three fields taken from desired. */
  function Merge(desired: Deployment, existing: Deployment): (m: Deployment)
    requires desired.HasPodFields() && existing.HasPodFields()
    ensures m.HasPodFields()
    ensures m.labels.Keys == existing.labels.Keys + desired.labels.Keys
    ensures forall k :: k in desired.labels ==> m.labels[k] == desired.labels[k]
    ensures forall k :: k in existing.labels && k !in desired.labels ==> m.labels[k] == existing.labels[k]
    ensures m.replicas == desired.replicas
    ensures m.PodImage() == desired.PodImage()
    ensures m.PodNodeAffinity() == desired.PodNodeAffinity()
    ensures Untouched(m) == Untouched(existing)
  {
    var t := existing.template;
    existing.(labels := existing.labels + desired.labels,
              replicas := desired.replicas,
              template := t.(containers := t.containers[0 := t.containers[0].(image := desired.PodImage())],
                             affinity := Some(t.affinity.value.(nodeAffinity := desired.PodNodeAffinity()))))
  }

  /** The `changed` flag: one of the four fields of the merged copy differs from the existing deployment. */
  predicate Changed(desired: Deployment, existing: Deployment)
    requires desired.HasPodFields() && existing.HasPodFields()
  {
    var m := Merge(desired, existing);
    || m.labels != existing.labels
    || m.replicas != existing.replicas
    || m.PodNodeAffinity() != existing.PodNodeAffinity()
    || m.PodImage() != existing.PodImage()
  }

  /** What `ensureDeployment` returns, given whether the deep copy of `existing` fails. */
  function Ensured(desired: Deployment, existing: Deployment, copyFailed: bool): EnsureResult {
    if copyFailed then CopyFailed
    else if |desired.template.containers| == 0 || |existing.template.containers| == 0 then Crashed(ContainerIndexOutOfRange)
    else if desired.template.affinity.None? || existing.template.affinity.None? then Crashed(NilAffinity)
    else Merged(Merge(desired, existing), Changed(desired, existing))
  }

  /** A deployment is determined by its untouched part and its four merged fields. */
  lemma {:induction false} UntouchedDetermines(a: Deployment, b: Deployment)
    requires a.HasPodFields() && b.HasPodFields()
    requires Untouched(a) == Untouched(b)
    requires a.labels == b.labels && a.replicas == b.replicas
    requires a.PodImage() == b.PodImage() && a.PodNodeAffinity() == b.PodNodeAffinity()
    ensures a == b
  {
    var ca, cb := a.template.containers, b.template.containers;
    var ua, ub := Untouched(a).template.containers, Untouched(b).template.containers;
    assert |ca| == |ua| == |ub| == |cb|;
    assert ca[0] == cb[0] by {
      assert ua[0] == ub[0];
    }
    forall j | 0 < j < |ca| ensures ca[j] == cb[j] {
      assert ua[j] == ub[j];
    }
    assert ca == cb;
    assert a.template.affinity.value.podAntiAffinity == b.template.affinity.value.podAntiAffinity by {
      assert Untouched(a).template.affinity == Untouched(b).template.affinity;
    }
    assert a.template == b.template;
  }

  /** No spurious update: `changed` holds exactly when the merged copy differs from the existing deployment. */
  lemma {:induction false} ChangedIffDiffers(desired: Deployment, existing: Deployment)
    requires desired.HasPodFields() && existing.HasPodFields()
    ensures Changed(desired, existing) <==> Merge(desired, existing) != existing
  {
    if !Changed(desired, existing) {
      UntouchedDetermines(Merge(desired, existing), existing);
    }
  }

  /** Merging a second time changes nothing, so the flag is false on a repeated pass. */
  lemma {:induction false} MergeIdempotent(desired: Deployment, existing: Deployment)
    requires desired.HasPodFields() && existing.HasPodFields()
    ensures Merge(desired, Merge(desired, existing)) == Merge(desired, existing)
    ensures !Changed(desired, Merge(desired, existing))
    ensures Ensured(desired, Merge(desired, existing), false) == Merged(Merge(desired, existing), false)
  {
    var m := Merge(desired, existing);
    var m2 := Merge(desired, m);
    assert m2.labels == m.labels;
    UntouchedDetermines(m2, m);
  }

  /**
   * `ensureDeployment` on a copy of `existing` (a value, so `existing` itself is never
   * modified); `copyFailed` is the outcome of the foreign deep copy.
   */
  method EnsureDeployment(desired: Deployment, existing: Deployment, copyFailed: bool) returns (r: EnsureResult)
    ensures r == Ensured(desired, existing, copyFailed)
  {
    if copyFailed {
      return CopyFailed;
    }
    var copy := existing;

    // ensure labels
    var labels := copy.labels;
    var pending := desired.labels.Keys;
    while pending != {}
      invariant pending <= desired.labels.Keys
      invariant labels.Keys == existing.labels.Keys + (desired.labels.Keys - pending)
      invariant forall k :: k in desired.labels && k !in pending ==> labels[k] == desired.labels[k]
      invariant forall k :: k in existing.labels && (k !in desired.labels || k in pending) ==> labels[k] == existing.labels[k]
      decreases pending
    {
      var k :| k in pending;
      labels := labels[k := desired.labels[k]];
      pending := pending - {k};
    }
    copy := copy.(labels := labels);

    // ensure replicas
    copy := copy.(replicas := desired.replicas);

    // ensure image
    if |copy.template.containers| == 0 || |desired.template.containers| == 0 {
      return Crashed(ContainerIndexOutOfRange);
    }
    var containers := copy.template.containers;
    copy := copy.(template := copy.template.(containers := containers[0 := containers[0].(image := desired.template.containers[0].image)]));

    // ensure node affinity
    if copy.template.affinity.None? || desired.template.affinity.None? {
      return Crashed(NilAffinity);
    }
    var affinity := copy.template.affinity.value;
    copy := copy.(template := copy.template.(affinity := Some(affinity.(nodeAffinity := desired.template.affinity.value.nodeAffinity))));

    // check if changed
    var nodeAffinityChanged := copy.template.affinity.value.nodeAffinity != existing.template.affinity.value.nodeAffinity;
    var imageChanged := copy.template.containers[0].image != existing.template.containers[0].image;
    var labelChanged := copy.labels != existing.labels;
    var replicasChanged := copy.replicas != existing.replicas;
    var changed := labelChanged || replicasChanged || nodeAffinityChanged || imageChanged;

    assert copy.labels == existing.labels + desired.labels;
    r := Merged(copy, changed);
  }
}
