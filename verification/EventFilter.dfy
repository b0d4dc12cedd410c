/** The filter of node update events (pkg/controller/route/predicate.go). */
module EventFilter {
  import opened Cidr
  import opened Nodes
  import NodeUtils

  /** Update: whether the event is passed on; annotationMode says where instance ids come from. */
  predicate Update(annotationMode: bool, oldNode: Node, newNode: Node) {
    var ok1 := KCE1_INSTANCE_KEY in oldNode.annotations;
    var ok2 := KCE1_INSTANCE_KEY in newNode.annotations;
    var ok3 := KCE2_INSTANCE_KEY in oldNode.annotations;
    var ok4 := KCE2_INSTANCE_KEY in newNode.annotations;
    if annotationMode && !ok2 && !ok4 then false
    else if annotationMode && !ok1 && ok2 then true
    else if annotationMode && !ok3 && ok4 then true
    else
      || oldNode.uid != newNode.uid
      || oldNode.podCIDR != newNode.podCIDR
      || oldNode.providerID != newNode.providerID
      || oldNode.podCIDRs != newNode.podCIDRs
  }

  /** An instance annotation, once there, stays and keeps its value. */
  ghost predicate SetOnce(oldNode: Node, newNode: Node) {
    forall key :: key in {KCE1_INSTANCE_KEY, KCE2_INSTANCE_KEY} && key in oldNode.annotations ==>
      key in newNode.annotations && newNode.annotations[key] == oldNode.annotations[key]
  }

  /** The route the node asks for: what the pod CIDR scan yields, and the instance. */
  function Desired(node: Node): (PodRoute, string) {
    (PodRouteOf(node), InstanceId(node))
  }

  ghost predicate Harmless(oldNode: Node, newNode: Node) {
    InstanceId(newNode) == "" || Desired(oldNode) == Desired(newNode)
  }

  /** A dropped update changes nothing that the route depends on: in annotation mode, with instance ids
      only in annotations that are set once. */
  lemma FilterIsSound(oldNode: Node, newNode: Node)
    requires SetOnce(oldNode, newNode) && newNode.providerID == ""
    requires !Update(true, oldNode, newNode)
    ensures Harmless(oldNode, newNode)
  {
    hide Scan;
    assert KCE1_INSTANCE_KEY in {KCE1_INSTANCE_KEY, KCE2_INSTANCE_KEY};
    assert KCE2_INSTANCE_KEY in {KCE1_INSTANCE_KEY, KCE2_INSTANCE_KEY};
  }

  /** The entries that decide the two nodes' pod CIDR scans are both missing, or parse to the same. */
  predicate SameEntry(x: Node, y: Node) {
    match (DecidingEntry(PodCIDRList(x)), DecidingEntry(PodCIDRList(y)))
    case (None, None) => true
    case (Some(e), Some(f)) => ParseCIDR(e) == ParseCIDR(f)
    case _ => false
  }

  lemma SameEntryMeans(x: Node, y: Node)
    ensures SameEntry(x, y) <==> PodRouteOf(x) == PodRouteOf(y)
  {
    hide ParseCIDR, Scan, DecidingEntry;
    ScanByEntry(PodCIDRList(x));
    ScanByEntry(PodCIDRList(y));
  }

  /** Exactly when a dropped update is harmless, in either mode and without those provisos, case by case of
      the instance annotations that the two nodes carry. Which comparison matters depends on where each
      node's instance comes from; only if annotation mode dropped the event for want of annotations do the
      ProviderID and the pod CIDRs matter too, for otherwise they have been compared. */
  lemma DroppedIsHarmless(annotationMode: bool, oldNode: Node, newNode: Node)
    requires !Update(annotationMode, oldNode, newNode)
    ensures var (o, n) := (oldNode.annotations, newNode.annotations);
            && (KCE1_INSTANCE_KEY in n && KCE1_INSTANCE_KEY in o ==>
                  (Harmless(oldNode, newNode) <==>
                     n[KCE1_INSTANCE_KEY] == "" || n[KCE1_INSTANCE_KEY] == o[KCE1_INSTANCE_KEY]))
            && (KCE1_INSTANCE_KEY in n && KCE1_INSTANCE_KEY !in o ==>
                  && !annotationMode
                  && (Harmless(oldNode, newNode) <==>
                        || n[KCE1_INSTANCE_KEY] == ""
                        || n[KCE1_INSTANCE_KEY] == if KCE2_INSTANCE_KEY in o then o[KCE2_INSTANCE_KEY] else newNode.providerID))
            && (KCE1_INSTANCE_KEY !in n && KCE2_INSTANCE_KEY in n && KCE1_INSTANCE_KEY in o ==>
                  (Harmless(oldNode, newNode) <==>
                     n[KCE2_INSTANCE_KEY] == "" || n[KCE2_INSTANCE_KEY] == o[KCE1_INSTANCE_KEY]))
            && (KCE1_INSTANCE_KEY !in n && KCE2_INSTANCE_KEY in n && KCE1_INSTANCE_KEY !in o && KCE2_INSTANCE_KEY in o ==>
                  (Harmless(oldNode, newNode) <==>
                     n[KCE2_INSTANCE_KEY] == "" || n[KCE2_INSTANCE_KEY] == o[KCE2_INSTANCE_KEY]))
            && (KCE1_INSTANCE_KEY !in n && KCE2_INSTANCE_KEY in n && KCE1_INSTANCE_KEY !in o && KCE2_INSTANCE_KEY !in o ==>
                  && !annotationMode
                  && (Harmless(oldNode, newNode) <==>
                        n[KCE2_INSTANCE_KEY] == "" || n[KCE2_INSTANCE_KEY] == newNode.providerID))
    ensures var (o, n) := (oldNode.annotations, newNode.annotations);
            KCE1_INSTANCE_KEY !in n && KCE2_INSTANCE_KEY !in n ==>
              (Harmless(oldNode, newNode) <==>
                 || newNode.providerID == ""
                 || (&& (annotationMode ==> SameEntry(oldNode, newNode))
                     && newNode.providerID == if KCE1_INSTANCE_KEY in o then o[KCE1_INSTANCE_KEY]
                                              else if KCE2_INSTANCE_KEY in o then o[KCE2_INSTANCE_KEY]
                                              else if annotationMode then oldNode.providerID
                                              else newNode.providerID))
  {
    hide Scan, SameEntry;
    SameEntryMeans(oldNode, newNode);
  }

  /** The proviso is needed: an update that rewrites the instance annotation is dropped, although the
      node now asks for a route to another instance. */
  lemma RewrittenInstanceIsMissed(node: Node, before: string, after: string)
    requires KCE1_INSTANCE_KEY !in node.annotations && before != after && after != ""
    ensures var oldNode := node.(annotations := node.annotations[KCE2_INSTANCE_KEY := before]);
            var newNode := node.(annotations := node.annotations[KCE2_INSTANCE_KEY := after]);
            !Update(true, oldNode, newNode) && !Harmless(oldNode, newNode)
  {
    hide PodRouteOf;
    assert KCE1_INSTANCE_KEY[0] != KCE2_INSTANCE_KEY[0];
  }

  /** Updates of nothing but labels, conditions and the deletion mark are dropped, although they can
      decide whether the node takes a route; the periodic pass is what notices them. */
  lemma StatusChangesAreDropped(annotationMode: bool, node: Node, labels: map<string, string>,
                                conditions: seq<NodeUtils.NodeCondition>, deleting: bool)
    ensures !Update(annotationMode, node, node.(labels := labels, conditions := conditions, deleting := deleting))
  {
  }

  /** A node recreated under its name, which shows in its uid only, is passed on, unless annotation mode
      waits for its instance. */
  lemma RecreatedNodePasses(annotationMode: bool, oldNode: Node, newNode: Node)
    requires oldNode.uid != newNode.uid
    ensures Update(annotationMode, oldNode, newNode) <==>
              || !annotationMode
              || "appengine.sdns.ksyun.com/instance-uuid" in newNode.annotations
              || "kce.sdns.ksyun.com/instanceId" in newNode.annotations
  {
  }

  /** So is one whose ProviderID or pod CIDRs have changed. */
  lemma ChangedSpecPasses(annotationMode: bool, oldNode: Node, newNode: Node)
    requires oldNode.providerID != newNode.providerID || oldNode.podCIDR != newNode.podCIDR || oldNode.podCIDRs != newNode.podCIDRs
    ensures Update(annotationMode, oldNode, newNode) <==>
              || !annotationMode
              || "appengine.sdns.ksyun.com/instance-uuid" in newNode.annotations
              || "kce.sdns.ksyun.com/instanceId" in newNode.annotations
  {
  }
}
