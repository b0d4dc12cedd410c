/** Node conditions and labels (pkg/controller/helper/node_utils.go). */
module NodeUtils {
  import opened Wrappers

  const READY := "Ready"
  const NETWORK_UNAVAILABLE := "NetworkUnavailable"
  const TRUE := "True"
  const FALSE := "False"
  const UNKNOWN := "Unknown"
  const EXCLUDE_NODE := "service.ksyun.com/exclude-node"
  const EXCLUDE_NODE_DEPRECATED := "service.beta.kubernetes.io/exclude-node"

  /** A node condition; times are readings of one clock. */
  datatype NodeCondition = NodeCondition(
    kind: string, status: string, heartbeat: int, transition: int, reason: string, message: string)

  predicate HasExcludeLabel(labels: map<string, string>) {
    EXCLUDE_NODE_DEPRECATED in labels || EXCLUDE_NODE in labels
  }

  /** Condition k is the one of its kind with the latest heartbeat, the earliest in the list if several share it. */
  ghost predicate IsLatest(conds: seq<NodeCondition>, kind: string, k: nat) {
    && k < |conds|
    && conds[k].kind == kind
    && forall i :: 0 <= i < |conds| && conds[i].kind == kind ==>
         conds[i].heartbeat <= conds[k].heartbeat && (i < k ==> conds[i].heartbeat < conds[k].heartbeat)
  }

  /** The condition FindCondition points to, as its index in the list. */
  function Find(conds: seq<NodeCondition>, kind: string): (r: Option<nat>)
    ensures r.Some? ==> IsLatest(conds, kind, r.value)
    ensures r == None ==> forall i :: 0 <= i < |conds| ==> conds[i].kind != kind
  {
    if conds == [] then None
    else
      var last := |conds| - 1;
      var best := Find(conds[..last], kind);
      if conds[last].kind == kind && (best == None || conds[best.value].heartbeat < conds[last].heartbeat) then
        Some(last)
      else
        best
  }

  /** The latest condition of a kind is the only one IsLatest accepts. */
  lemma LatestIsFound(conds: seq<NodeCondition>, kind: string, k: nat)
    requires IsLatest(conds, kind, k)
    ensures Find(conds, kind) == Some(k)
  {
    var r := Find(conds, kind);
    assert r.Some? && IsLatest(conds, kind, r.value);
    assert conds[k].heartbeat <= conds[r.value].heartbeat <= conds[k].heartbeat;
  }

  method FindCondition(conds: seq<NodeCondition>, kind: string) returns (found: bool, k: nat)
    ensures (if found then Some(k) else None) == Find(conds, kind)
  {
    found, k := false, 0;
    for i := 0 to |conds|
      invariant (if found then Some(k) else None) == Find(conds[..i], kind)
    {
      assert conds[..i + 1][..i] == conds[..i];
      if conds[i].kind == kind {
        if !found || conds[k].heartbeat < conds[i].heartbeat {
          found, k := true, i;
        }
      }
    }
    assert conds[..|conds|] == conds;
  }
}
