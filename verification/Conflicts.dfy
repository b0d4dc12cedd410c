/** When a route conflicts with the nodes (pkg/controller/route/manager.go): the two-endpoint
    containment test and what it means for blocks of addresses. */
module Conflicts {
  import opened Wrappers
  import opened IpText
  import opened Cidr
  import opened Nodes

  /** What containsRoute returns: an error, or whether the route is inside or equal, and whether it
      is inside without being equal. */
  datatype Containment = Unparsable | Report(containsEqual: bool, realContains: bool)

  function Containing(outside: Option<IPNet>, insideRoute: string): Containment
    requires outside.Some? ==> Valid(outside.value)
  {
    if outside == None then Report(true, true)
    else
      match ParseCIDR(insideRoute)
      case None => Unparsable
      case Some(cidr) =>
        if Text(outside.value) == insideRoute then Report(true, false)
        else if !Contains(outside.value, cidr.ip) || !Contains(outside.value, LastAddress(cidr)) then
          Report(false, false)
        else
          Report(true, true)
  }

  method ContainsRoute(outside: Option<IPNet>, insideRoute: string) returns (r: Containment)
    requires outside.Some? ==> Valid(outside.value)
    ensures r == Containing(outside, insideRoute)
  {
    if outside == None {
      return Report(true, true);
    }
    var parsed := ParseCIDR(insideRoute);
    if parsed == None {
      return Unparsable;
    }
    var cidr := parsed.value;
    if Text(outside.value) == insideRoute {
      return Report(true, false);
    }
    var lastIP := FillLastIP(cidr.ip, Mask(cidr));
    if !Contains(outside.value, cidr.ip) || !Contains(outside.value, lastIP[..]) {
      return Report(false, false);
    }
    return Report(true, true);
  }

  /** The loop of containsRoute that fills lastIP. */
  method FillLastIP(ip: seq<Byte>, mask: seq<Byte>) returns (lastIP: array<Byte>)
    requires |ip| == |mask|
    ensures fresh(lastIP) && lastIP[..] == OrNot(ip, mask)
  {
    lastIP := new Byte[|ip|];
    for i := 0 to lastIP.Length
      invariant lastIP[..i] == OrNot(ip, mask)[..i]
    {
      lastIP[i] := ip[i] | !mask[i];
      assert lastIP[..i + 1] == lastIP[..i] + [lastIP[i]];
    }
    assert lastIP[..] == OrNot(ip, mask);
  }

  /** The route to dest owned by instance `owner` conflicts with this node. */
  predicate ConflictsWith(node: Node, dest: string, owner: string) {
    var pod := PodRouteOf(node);
    pod.Found? &&
    var c := Containing(Some(pod.net), dest);
    c.Report? && (c.realContains || (c.containsEqual && owner != InstanceId(node)))
  }

  predicate Conflict(nodes: seq<Node>, dest: string, owner: string) {
    exists i :: 0 <= i < |nodes| && ConflictsWith(nodes[i], dest, owner)
  }

  method ConflictWithNodes(dest: string, owner: string, nodes: seq<Node>) returns (b: bool)
    ensures b == Conflict(nodes, dest, owner)
  {
    hide ConflictsWith;
    for i := 0 to |nodes|
      invariant forall j :: 0 <= j < i ==> !ConflictsWith(nodes[j], dest, owner)
    {
      var conflict := ConflictWithNode(dest, owner, nodes[i]);
      if conflict {
        return true;
      }
    }
    return false;
  }

  /** One iteration of the loop over the nodes. */
  method ConflictWithNode(dest: string, owner: string, node: Node) returns (b: bool)
    ensures b == ConflictsWith(node, dest, owner)
  {
    var pod := GetIPv4RouteForNode(node);
    if !pod.Found? {
      return false;
    }
    var c := ContainsRoute(Some(pod.net), dest);
    if c.Unparsable? {
      return false;
    }
    return c.realContains || (c.containsEqual && owner != InstanceId(node));
  }

  // ---------- What the two-endpoint test decides ----------

  /** For any IPv4 route text, containment is reported exactly when the text is not the network's
      own and every address of the route is one of the network. */
  lemma EndpointTest(outside: IPNet, insideRoute: string)
    requires Valid(outside) && IsV4(outside)
    requires ParseCIDR(insideRoute).Some? && IsV4(ParseCIDR(insideRoute).value)
    ensures var c := Containing(Some(outside), insideRoute);
            && c.Report?
            && (c.realContains <==> insideRoute != Text(outside) && Subset(ParseCIDR(insideRoute).value, outside))
            && (c.containsEqual && !c.realContains <==> insideRoute == Text(outside))
  {
    var inner := ParseCIDR(insideRoute).value;
    EndpointsAreMembers(inner);
    if Member(outside, inner.ip) && Member(outside, LastAddress(inner)) {
      EndpointsSuffice(outside, inner);
    }
  }

  /** For canonical IPv4 texts the three verdicts are: proper subset, the same addresses, neither. */
  lemma EndpointTestCanonical(outside: IPNet, inner: IPNet)
    requires Valid(outside) && IsV4(outside) && Valid(inner) && IsV4(inner)
    ensures var c := Containing(Some(outside), Text(inner));
            && c.Report?
            && (c.realContains <==> Subset(inner, outside) && !Subset(outside, inner))
            && (c.containsEqual && !c.realContains <==> Subset(inner, outside) && Subset(outside, inner))
            && (!c.containsEqual <==> !Subset(inner, outside))
  {
    ParseText(inner);
    ParseText(outside);
    EndpointTest(outside, Text(inner));
    if Subset(inner, outside) && Subset(outside, inner) {
      SameBlock(inner, outside);
    }
  }

  /** One block is a proper part of another exactly when it has the longer prefix and they overlap. */
  lemma ProperSubsetByPrefix(outside: IPNet, inner: IPNet)
    requires Valid(outside) && Valid(inner)
    ensures Subset(inner, outside) && !Subset(outside, inner) <==> outside.ones < inner.ones && Overlap(outside, inner)
  {
    EndpointsAreMembers(inner);
    assert Member(inner, inner.ip);
    if Subset(inner, outside) {
      SubsetPrefix(outside, inner);
      if outside.ones == inner.ones {
        Laminar(inner, outside, inner.ip);
      }
    }
    if outside.ones < inner.ones && Overlap(outside, inner) {
      var a :| Member(outside, a) && Member(inner, a);
      Laminar(outside, inner, a);
      if Subset(outside, inner) {
        SubsetPrefix(inner, outside);
      }
    }
  }

  /** Every address of the route dest is an address of network p. */
  ghost predicate Inside(dest: string, p: IPNet) {
    ParseCIDR(dest).Some? && Subset(NetworkNumber(ParseCIDR(dest).value), NetworkNumber(p))
  }

  /** For networks of either family, a reported containment is a real one. */
  lemma ContainmentIsReal(outside: IPNet, insideRoute: string)
    requires Valid(outside)
    requires Containing(Some(outside), insideRoute) == Report(true, true)
    ensures Inside(insideRoute, outside)
  {
    var inner := ParseCIDR(insideRoute).value;
    ShortEnds(inner);
    EndpointsSuffice(NetworkNumber(outside), NetworkNumber(inner));
  }

  /** The ends of a block, in the form IPNet.Contains looks at, are the ends of its network number;
      a sixteen-byte block whose last address alone has a four-byte form is never reported inside. */
  lemma ShortEnds(n: IPNet)
    requires Valid(n)
    ensures var m := NetworkNumber(n);
            && m.ip == And(m.ip, Mask(m))
            && Short(n.ip) == m.ip
            && (|Short(LastAddress(n))| == |m.ip| ==> Short(LastAddress(n)) == LastAddress(m))
  {
    var m := NetworkNumber(n);
    var last := LastAddress(n);
    if |n.ip| == 16 && To4(n.ip).Some? {
      MappedPrefix(n);
      assert forall i :: 0 <= i < 4 ==> Mask(m)[i] == Mask(n)[i + 12];
      assert m.ip == And(m.ip, Mask(m)) by {
        forall i | 0 <= i < 4
          ensures m.ip[i] == And(m.ip, Mask(m))[i]
        {
          assert n.ip[i + 12] == And(n.ip, Mask(n))[i + 12];
        }
      }
      assert last[12..] == LastAddress(m);
    }
  }

  /** The mask of an IPv4-mapped network covers the mapping's twelve bytes. */
  lemma MappedPrefix(n: IPNet)
    requires Valid(n) && |n.ip| == 16 && To4(n.ip).Some?
    ensures n.ones >= 96
  {
    assert n.ip[11] == And(n.ip, Mask(n))[11];
    assert MaskByte(n.ones, 11) == 0xFF;
  }
}
