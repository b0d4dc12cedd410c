/** Nodes, and what the route manager reads off them: whether they take a route, for which pod
    CIDR, and to which instance (pkg/controller/route/manager.go). */
module Nodes {
  import opened Wrappers
  import opened Cidr
  import opened NodeUtils
  import IpText
  import Decimal

  const KCE1_INSTANCE_KEY := "appengine.sdns.ksyun.com/instance-uuid"
  const KCE2_INSTANCE_KEY := "kce.sdns.ksyun.com/instanceId"

  datatype Node = Node(
    name: string,
    uid: string,
    labels: map<string, string>,
    annotations: map<string, string>,
    deleting: bool,
    podCIDR: string,
    podCIDRs: seq<string>,
    providerID: string,
    conditions: seq<NodeCondition>)

  // ---------- needSyncRoute, getNodeInstanceId ----------

  predicate ReadyUnknown(conds: seq<NodeCondition>) {
    var k := Find(conds, READY);
    k.Some? && conds[k.value].status == UNKNOWN
  }

  predicate NeedsSync(node: Node) {
    !HasExcludeLabel(node.labels) && !ReadyUnknown(node.conditions) && !node.deleting
  }

  /** In the words of the API: no exclude label, no deletion mark, and no latest Ready condition "Unknown". */
  lemma NeedsSyncMeans(node: Node)
    ensures NeedsSync(node) <==>
              && "service.ksyun.com/exclude-node" !in node.labels
              && "service.beta.kubernetes.io/exclude-node" !in node.labels
              && !node.deleting
              && forall k: nat :: IsLatest(node.conditions, "Ready", k) ==> node.conditions[k].status != "Unknown"
  {
    var r := Find(node.conditions, READY);
    forall k: nat | IsLatest(node.conditions, "Ready", k)
      ensures r == Some(k)
    {
      LatestIsFound(node.conditions, READY, k);
    }
  }

  method NeedSyncRoute(node: Node) returns (need: bool)
    ensures need == NeedsSync(node)
  {
    if HasExcludeLabel(node.labels) {
      return false;
    }
    var found, k := FindCondition(node.conditions, READY);
    if found && node.conditions[k].status == UNKNOWN {
      return false;
    }
    if node.deleting {
      return false;
    }
    return true;
  }

  function InstanceId(node: Node): string {
    if KCE1_INSTANCE_KEY in node.annotations then node.annotations[KCE1_INSTANCE_KEY]
    else if KCE2_INSTANCE_KEY in node.annotations then node.annotations[KCE2_INSTANCE_KEY]
    else node.providerID
  }

  /** The first of these that the node has is its instance: the two annotations in this order, and else the
      ProviderID. */
  lemma InstanceIdMeans(node: Node)
    ensures "appengine.sdns.ksyun.com/instance-uuid" in node.annotations ==>
              InstanceId(node) == node.annotations["appengine.sdns.ksyun.com/instance-uuid"]
    ensures "appengine.sdns.ksyun.com/instance-uuid" !in node.annotations && "kce.sdns.ksyun.com/instanceId" in node.annotations ==>
              InstanceId(node) == node.annotations["kce.sdns.ksyun.com/instanceId"]
    ensures "appengine.sdns.ksyun.com/instance-uuid" !in node.annotations && "kce.sdns.ksyun.com/instanceId" !in node.annotations ==>
              InstanceId(node) == node.providerID
  {
  }

  // ---------- getIPv4RouteForNode ----------

  /** The outcome of scanning a node's pod CIDRs: an error, nothing, or a network. */
  datatype PodRoute = BadCIDR | NoCIDR | Found(net: IPNet)

  function Scan(cidrs: seq<string>, sofar: PodRoute): (r: PodRoute)
    requires sofar.Found? ==> Valid(sofar.net)
    ensures r.Found? ==> Valid(r.net)
  {
    if cidrs == [] then sofar
    else if cidrs[0] == "" then Scan(cidrs[1..], sofar)
    else
      match ParseCIDR(cidrs[0])
      case None => BadCIDR
      case Some(net) => if IsV4(net) then Found(net) else Scan(cidrs[1..], Found(net))
  }

  function PodCIDRList(node: Node): seq<string> {
    node.podCIDRs + [node.podCIDR]
  }

  function PodRouteOf(node: Node): (r: PodRoute)
    ensures r.Found? ==> Valid(r.net)
  {
    Scan(PodCIDRList(node), NoCIDR)
  }

  method GetIPv4RouteForNode(node: Node) returns (r: PodRoute)
    ensures r == PodRouteOf(node)
  {
    var cidrs := node.podCIDRs + [node.podCIDR];
    r := NoCIDR;
    for i := 0 to |cidrs|
      invariant r.Found? ==> Valid(r.net)
      invariant Scan(cidrs, NoCIDR) == Scan(cidrs[i..], r)
    {
      assert cidrs[i..][1..] == cidrs[i + 1..];
      if cidrs[i] != "" {
        var net := ParseCIDR(cidrs[i]);
        if net == None {
          return BadCIDR;
        }
        r := Found(net.value);
        if IsV4(net.value) {
          break;
        }
      }
    }
  }

  /** An entry that ends the scan: an IPv4 network, or text that is not a CIDR at all. */
  predicate Decisive(s: string) {
    s != "" && (ParseCIDR(s) == None || IsV4(ParseCIDR(s).value))
  }

  /** The position of the first decisive entry, or the length of the list if there is none. */
  function FirstDecisive(cidrs: seq<string>): (d: nat)
    ensures d <= |cidrs|
    ensures d < |cidrs| ==> Decisive(cidrs[d])
    ensures forall j :: 0 <= j < d ==> !Decisive(cidrs[j])
  {
    if cidrs == [] || Decisive(cidrs[0]) then 0
    else
      assert forall j :: 0 < j < |cidrs| ==> cidrs[j] == cidrs[1..][j - 1];
      1 + FirstDecisive(cidrs[1..])
  }

  /** Entry i is the last one that is not empty. */
  ghost predicate LastNonEmpty(cidrs: seq<string>, i: nat) {
    i < |cidrs| && cidrs[i] != "" && forall j :: i < j < |cidrs| ==> cidrs[j] == ""
  }

  /** The scan stops at the first entry that is an IPv4 network, which it returns, or unparsable,
      which is its error; with neither in the list it returns the last non-empty entry's network. */
  lemma {:induction false} ScanMeaning(cidrs: seq<string>, sofar: PodRoute, i: nat)
    requires sofar.Found? ==> Valid(sofar.net)
    ensures var d := FirstDecisive(cidrs);
            d < |cidrs| ==>
              Scan(cidrs, sofar) == match ParseCIDR(cidrs[d]) case None => BadCIDR case Some(net) => Found(net)
    ensures FirstDecisive(cidrs) == |cidrs| && LastNonEmpty(cidrs, i) ==>
              ParseCIDR(cidrs[i]).Some? && Scan(cidrs, sofar) == Found(ParseCIDR(cidrs[i]).value)
    ensures (forall j :: 0 <= j < |cidrs| ==> cidrs[j] == "") ==> Scan(cidrs, sofar) == sofar
    ensures sofar != BadCIDR ==>
              var d := FirstDecisive(cidrs);
              Scan(cidrs, sofar) == BadCIDR <==> d < |cidrs| && ParseCIDR(cidrs[d]) == None
  {
    if cidrs != [] && !Decisive(cidrs[0]) {
      var rest := cidrs[1..];
      assert forall j :: 0 < j < |cidrs| ==> cidrs[j] == rest[j - 1];
      var sofar' := if cidrs[0] == "" then sofar else Found(ParseCIDR(cidrs[0]).value);
      ScanMeaning(rest, sofar', if i == 0 then 0 else i - 1);
    }
  }

  /** The entry that decides the scan: the first decisive one, else the last that is not empty. */
  function DecidingEntry(cidrs: seq<string>): (e: Option<string>)
    ensures e == None <==> forall i :: 0 <= i < |cidrs| ==> cidrs[i] == ""
  {
    var d := FirstDecisive(cidrs);
    if d < |cidrs| then Some(cidrs[d]) else LastEntry(cidrs)
  }

  function LastEntry(cidrs: seq<string>): (e: Option<string>)
    ensures e == None <==> forall i :: 0 <= i < |cidrs| ==> cidrs[i] == ""
  {
    if cidrs == [] then None
    else if cidrs[|cidrs| - 1] != "" then Some(cidrs[|cidrs| - 1])
    else LastEntry(cidrs[..|cidrs| - 1])
  }

  lemma {:induction false} LastEntryIsLast(cidrs: seq<string>) returns (i: nat)
    requires LastEntry(cidrs).Some?
    ensures LastNonEmpty(cidrs, i) && cidrs[i] == LastEntry(cidrs).value
  {
    if cidrs[|cidrs| - 1] != "" {
      i := |cidrs| - 1;
    } else {
      i := LastEntryIsLast(cidrs[..|cidrs| - 1]);
    }
  }

  /** What the deciding entry parses to is all that matters of a node's pod CIDRs. */
  lemma ScanByEntry(cidrs: seq<string>)
    ensures Scan(cidrs, NoCIDR) ==
            match DecidingEntry(cidrs)
            case None => NoCIDR
            case Some(e) => match ParseCIDR(e) case None => BadCIDR case Some(net) => Found(net)
  {
    hide ParseCIDR, Scan;
    if FirstDecisive(cidrs) == |cidrs| && LastEntry(cidrs).Some? {
      var i := LastEntryIsLast(cidrs);
      ScanMeaning(cidrs, NoCIDR, i);
    } else {
      ScanMeaning(cidrs, NoCIDR, 0);
    }
  }

  // ---------- The node's desired route ----------

  /** The node should get a route: it is to be synced, has a pod CIDR and an instance. */
  predicate Eligible(node: Node) {
    NeedsSync(node) && PodRouteOf(node).Found? && InstanceId(node) != ""
  }

  /** The destination the node's route must have; empty without a pod CIDR. */
  function PodText(node: Node): (s: string)
    ensures s == "" <==> !PodRouteOf(node).Found?
  {
    var pod := PodRouteOf(node);
    if pod.Found? then Text(pod.net) else ""
  }

  lemma FirstDecisiveIs(cidrs: seq<string>, i: nat)
    requires i < |cidrs| && Decisive(cidrs[i]) && forall j :: 0 <= j < i ==> !Decisive(cidrs[j])
    ensures FirstDecisive(cidrs) == i
  {
    hide Decisive;
  }

  /** The text is an IPv4 network's, which it parses to. */
  predicate IPv4Text(s: string) {
    s != "" && ParseCIDR(s).Some? && IsV4(ParseCIDR(s).value)
  }

  predicate Unparsable(s: string) {
    s != "" && ParseCIDR(s) == None
  }

  /** Of a node's podCIDRs the first that is an IPv4 network's text or does not parse decides: the answer is
      that network, or an error; whatever podCIDR says. */
  lemma PodCIDRsDecide(node: Node, i: nat)
    requires i < |node.podCIDRs|
    requires forall j :: 0 <= j < i ==> !IPv4Text(node.podCIDRs[j]) && !Unparsable(node.podCIDRs[j])
    ensures IPv4Text(node.podCIDRs[i]) ==> PodRouteOf(node) == Found(ParseCIDR(node.podCIDRs[i]).value)
    ensures Unparsable(node.podCIDRs[i]) ==> PodRouteOf(node) == BadCIDR
  {
    hide ParseCIDR;
    var cidrs := PodCIDRList(node);
    assert forall j :: 0 <= j <= i ==> cidrs[j] == node.podCIDRs[j];
    if IPv4Text(cidrs[i]) || Unparsable(cidrs[i]) {
      FirstDecisiveIs(cidrs, i);
      ScanMeaning(cidrs, NoCIDR, 0);
    }
  }

  /** If none of them does, podCIDR decides: as an IPv4 network or as an error likewise, and as an IPv6 network
      if it is one; if it is empty, the last podCIDR that is not empty stands. */
  lemma PodCIDRDecides(node: Node, i: nat)
    requires forall j :: 0 <= j < |node.podCIDRs| ==> !IPv4Text(node.podCIDRs[j]) && !Unparsable(node.podCIDRs[j])
    ensures node.podCIDR != "" ==>
              PodRouteOf(node) == match ParseCIDR(node.podCIDR) case None => BadCIDR case Some(net) => Found(net)
    ensures node.podCIDR == "" && LastNonEmpty(node.podCIDRs, i) ==>
              ParseCIDR(node.podCIDRs[i]).Some? && PodRouteOf(node) == Found(ParseCIDR(node.podCIDRs[i]).value)
    ensures node.podCIDR == "" && (forall j :: 0 <= j < |node.podCIDRs| ==> node.podCIDRs[j] == "") ==> PodRouteOf(node) == NoCIDR
  {
    hide ParseCIDR;
    var cidrs, n := PodCIDRList(node), |node.podCIDRs|;
    assert cidrs[n] == node.podCIDR && forall j :: 0 <= j < n ==> cidrs[j] == node.podCIDRs[j];
    if node.podCIDR != "" {
      assert LastNonEmpty(cidrs, n);
      if Decisive(cidrs[n]) {
        FirstDecisiveIs(cidrs, n);
      }
      ScanMeaning(cidrs, NoCIDR, n);
    } else if LastNonEmpty(node.podCIDRs, i) {
      assert LastNonEmpty(cidrs, i);
      ScanMeaning(cidrs, NoCIDR, i);
    } else {
      ScanMeaning(cidrs, NoCIDR, 0);
    }
  }

  /** A dual-stack node whose IPv6 pod CIDR comes first gets its route for the IPv4 one. */
  lemma DualStackNode(node: Node, a: string, b: seq<IpText.Byte>, ones: nat, n: IPNet)
    requires IpText.ParseIPv6(a) == Some(b) && '.' !in a && '/' !in a && ones <= 128
    requires Valid(n) && IsV4(n)
    requires node.podCIDRs == [a + "/" + Decimal.Format(ones), Text(n)]
    ensures PodRouteOf(node) == Found(n)
  {
    hide ParseCIDR, Text, IpText.ParseIPv6;
    ParseIPv6Network(a, b, ones);
    ParseText(n);
    assert |b| == 16 by { SixteenBytes(a); }
    PodCIDRsDecide(node, 1);
  }

  lemma SixteenBytes(a: string)
    ensures IpText.ParseIPv6(a).Some? ==> |IpText.ParseIPv6(a).value| == 16
  {
    hide IpText.ParseGroups;
  }

  /** A node whose only pod CIDR is the text of an IPv4 network gets its route for that network, at
      that text. */
  lemma PodCIDRIsUsed(node: Node, n: IPNet)
    requires Valid(n) && IsV4(n)
    requires node.podCIDRs == [] && node.podCIDR == Text(n)
    ensures PodRouteOf(node) == Found(n) && PodText(node) == Text(n)
  {
    hide ParseCIDR, Text;
    ParseText(n);
    ScanMeaning(PodCIDRList(node), NoCIDR, 0);
    assert Decisive(PodCIDRList(node)[0]);
  }
}
