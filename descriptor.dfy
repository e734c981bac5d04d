/**
 * The desired deployment of the ipvsdr provider and the labels that
 * identify it: `selector`, `filteredByLabel` and the modelled fields of
 * `generateDeployment`.
 */
module Descriptor {
  import opened Wrappers
  import opened Objects

  const ProviderNameSuffix := "-provider-ipvsdr"
  const ProviderName := "ipvsdr"

  // The next constants live in the networking API package, which is not part
  // of this model; the values are stand-ins and only their distinctness matters.
  const LabelKeyCreatedBy := "loadbalance.caicloud.io/created-by"
  const LabelKeyProvider := "loadbalance.caicloud.io/provider"
  const LoadBalancerAPIVersion := "net.caicloud.io/v1alpha1"
  const LoadBalancerKind := "LoadBalancer"

  const LabelHostname := "kubernetes.io/hostname"
  const NodeSelectorOpIn := "In"
  const PullAlways := "Always"

  function CreatedByValue(namespace: string, name: string): string {
    namespace + "/" + name
  }

  /** The node label that marks the nodes chosen for this load balancer. */
  function UniqueLabelKey(namespace: string, name: string): string {
    "loadbalance.caicloud.io/" + namespace + "." + name
  }

  /** Go's `strings.HasPrefix`. */
  predicate HasPrefix(s: string, prefix: string) {
    |prefix| <= |s| && s[..|prefix|] == prefix
  }

  /** The name test `sync` uses to recognise a deployment it generated. */
  predicate IsTargetName(lb: LoadBalancer, name: string) {
    HasPrefix(name, lb.name + ProviderNameSuffix)
  }

  /** Equality-based label selector matching (`labels.Set.AsSelector().Matches`). */
  predicate Matches(selector: map<string, string>, labels: map<string, string>) {
    forall k :: k in selector ==> k in labels && labels[k] == selector[k]
  }

  function Selector(lb: LoadBalancer): map<string, string> {
    map[LabelKeyCreatedBy := CreatedByValue(lb.namespace, lb.name), LabelKeyProvider := ProviderName]
  }

  /** True when an object's labels do not carry this provider's label, so its events are ignored. */
  predicate FilteredByLabel(labels: map<string, string>) {
    !Matches(map[LabelKeyProvider := ProviderName], labels)
  }

  lemma {:induction false} FilteredByLabelIff(labels: map<string, string>)
    ensures FilteredByLabel(labels) <==> LabelKeyProvider !in labels || labels[LabelKeyProvider] != ProviderName
  {
    if LabelKeyProvider in labels && labels[LabelKeyProvider] == ProviderName {
      assert Matches(map[LabelKeyProvider := ProviderName], labels);
    } else {
      assert !(LabelKeyProvider in labels && labels[LabelKeyProvider] == map[LabelKeyProvider := ProviderName][LabelKeyProvider]);
    }
  }

  /** Every object the claim selector of some load balancer lists passes this provider's filter. */
  lemma {:induction false} SelectedNotFiltered(lb: LoadBalancer, labels: map<string, string>)
    requires Matches(Selector(lb), labels)
    ensures !FilteredByLabel(labels)
  {
    assert LabelKeyProvider in Selector(lb);
    FilteredByLabelIff(labels);
  }

  function UniqueNodeAffinity(lb: LoadBalancer): NodeAffinity {
    NodeAffinity(Some([[NodeSelectorRequirement(UniqueLabelKey(lb.namespace, lb.name), NodeSelectorOpIn, ["true"])]]), [])
  }

  /**
   * The desired deployment. `image` is the provider's configured image,
   * `replicas` the load balancer's computed replica count and `suffix` the
   * random five-letter name suffix; all three come from outside this file.
   */
  function GenerateDeployment(lb: LoadBalancer, image: string, replicas: Int32, suffix: string): (d: Deployment)
    ensures d.HasPodFields()
  {
    var labels := Selector(lb);
    var antiAffinity := PodAffinityTerm(map[LabelKeyProvider := ProviderName], LabelHostname);
    Deployment(
      lb.name + ProviderNameSuffix + "-" + suffix,
      "",
      labels,
      [OwnerReference(LoadBalancerAPIVersion, LoadBalancerKind, lb.name, lb.uid, true, true)],
      replicas,
      PodTemplate(
        labels,
        true,
        30,
        Some(Affinity(Some(UniqueNodeAffinity(lb)), [antiAffinity])),
        [Container(ProviderName, image, PullAlways, true)]))
  }

  /**
   * A generated deployment is recognised again: its name is the provider
   * prefix, a dash and the suffix, so it passes the target test of `sync`;
   * its labels and its pods' labels are the selector, so the claim selector
   * lists it and the event filter keeps it and its pods; it is controlled by
   * the load balancer that generated it; its pods require the node label
   * unique to the load balancer.
   */
  lemma {:induction false} GeneratedIsSelfRecognising(lb: LoadBalancer, image: string, replicas: Int32, suffix: string)
    ensures var d := GenerateDeployment(lb, image, replicas, suffix);
      && d.name == lb.name + ProviderNameSuffix + "-" + suffix
      && IsTargetName(lb, d.name)
      && d.labels == Selector(lb)
      && d.template.labels == Selector(lb)
      && Matches(Selector(lb), d.labels)
      && !FilteredByLabel(d.labels)
      && !FilteredByLabel(d.template.labels)
      && d.PodImage() == image
      && d.replicas == replicas
      && d.PodNodeAffinity() == Some(NodeAffinity(Some([[NodeSelectorRequirement(UniqueLabelKey(lb.namespace, lb.name), NodeSelectorOpIn, ["true"])]]), []))
      && d.labels[LabelKeyCreatedBy] == CreatedByValue(lb.namespace, lb.name)
      && d.labels[LabelKeyProvider] == ProviderName
      && |d.ownerReferences| == 1
      && d.ownerReferences[0].name == lb.name
      && d.ownerReferences[0].uid == lb.uid
      && d.ownerReferences[0].controller && d.ownerReferences[0].blockOwnerDeletion
  {
    var d := GenerateDeployment(lb, image, replicas, suffix);
    var prefix := lb.name + ProviderNameSuffix;
    assert d.name == prefix + ("-" + suffix);
    assert d.name[..|prefix|] == prefix;
    SelectedNotFiltered(lb, d.labels);
    SelectedNotFiltered(lb, d.template.labels);
  }
}
