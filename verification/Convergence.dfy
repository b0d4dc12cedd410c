/** What passes over a fixed list of nodes lead to when nothing fails: two passes suffice, and then
    every address of a node's pod CIDR is routed to that node's instance. */
module Convergence {
  import opened Wrappers
  import opened IpText
  import opened Cidr
  import Decimal
  import opened Nodes
  import opened Conflicts
  import opened Routes
  import opened RouteController

  ghost predicate Owns(node: Node, owners: map<string, string>) {
    PodText(node) in owners && owners[PodText(node)] == InstanceId(node)
  }

  ghost predicate NoConflicts(nodes: seq<Node>, owners: map<string, string>) {
    forall d :: d in owners && d != DEFAULT_DEST ==> !Conflict(nodes, d, owners[d])
  }

  /** Every eligible node has its route and no visible route conflicts. */
  ghost predicate Converged(nodes: seq<Node>, owners: map<string, string>) {
    && (forall i :: 0 <= i < |nodes| && Eligible(nodes[i]) ==> Owns(nodes[i], owners))
    && NoConflicts(nodes, owners)
  }

  /** The route that each eligible node wants is visible and conflicts with no node. */
  ghost predicate Compatible(nodes: seq<Node>) {
    forall i :: 0 <= i < |nodes| && Eligible(nodes[i]) ==>
      PodText(nodes[i]) != DEFAULT_DEST && !Conflict(nodes, PodText(nodes[i]), InstanceId(nodes[i]))
  }

  ghost predicate IPv4Pods(nodes: seq<Node>) {
    forall i :: 0 <= i < |nodes| && PodRouteOf(nodes[i]).Found? ==> IsV4(PodRouteOf(nodes[i]).net)
  }

  // ---------- Conflicts in terms of blocks ----------

  /** A route at a node's own CIDR conflicts with that node exactly when it has another owner. */
  lemma OwnRoute(node: Node, owner: string)
    requires PodRouteOf(node).Found? && IsV4(PodRouteOf(node).net)
    ensures ConflictsWith(node, PodText(node), owner) <==> owner != InstanceId(node)
  {
    hide PodRouteOf, InstanceId, ParseCIDR, Text;
    ParseText(PodRouteOf(node).net);
  }

  /** A canonical IPv4 route conflicts with a node exactly when the node's block strictly encloses it
      or is the same block with a different instance. */
  lemma ConflictMeaning(node: Node, r: IPNet, owner: string)
    requires Valid(r) && IsV4(r)
    requires PodRouteOf(node).Found? && IsV4(PodRouteOf(node).net)
    ensures var pod := PodRouteOf(node).net;
            ConflictsWith(node, Text(r), owner) <==>
              || (Subset(r, pod) && !Subset(pod, r))
              || (Subset(r, pod) && Subset(pod, r) && owner != InstanceId(node))
  {
    hide PodRouteOf, InstanceId, ParseCIDR, Text, Subset, Containing;
    EndpointTestCanonical(PodRouteOf(node).net, r);
  }

  /** Pod CIDRs that are pairwise disjoint, none of them the default route, are compatible. */
  lemma DisjointIsCompatible(nodes: seq<Node>)
    requires IPv4Pods(nodes)
    requires forall i, j :: 0 <= i < j < |nodes| && PodRouteOf(nodes[i]).Found? && PodRouteOf(nodes[j]).Found? ==>
               !Overlap(PodRouteOf(nodes[i]).net, PodRouteOf(nodes[j]).net)
    requires forall i :: 0 <= i < |nodes| && Eligible(nodes[i]) ==> PodText(nodes[i]) != DEFAULT_DEST
    ensures Compatible(nodes)
  {
    hide PodRouteOf, InstanceId, Text, Subset, ConflictsWith, Overlap;
    forall i, j | 0 <= i < |nodes| && 0 <= j < |nodes| && Eligible(nodes[i])
      ensures !ConflictsWith(nodes[j], PodText(nodes[i]), InstanceId(nodes[i]))
    {
      var pod := PodRouteOf(nodes[i]).net;
      if i == j {
        OwnRoute(nodes[i], InstanceId(nodes[i]));
      } else if PodRouteOf(nodes[j]).Found? {
        ConflictMeaning(nodes[j], pod, InstanceId(nodes[i]));
        SubsetOverlaps(PodRouteOf(nodes[j]).net, pod);
      } else {
        NoPodNoConflict(nodes[j], PodText(nodes[i]), InstanceId(nodes[i]));
      }
    }
  }

  lemma SubsetOverlaps(outer: IPNet, inner: IPNet)
    ensures Subset(inner, outer) ==> Overlap(outer, inner) && Overlap(inner, outer)
  {
    EndpointsAreMembers(inner);
    assert Member(inner, inner.ip);
  }

  lemma NoPodNoConflict(node: Node, dest: string, owner: string)
    requires !PodRouteOf(node).Found?
    ensures !ConflictsWith(node, dest, owner)
  {
  }

  // ---------- Two passes ----------

  /** Every claim is some eligible node's. */
  lemma {:induction false} ClaimIsWanted(nodes: seq<Node>, d: string)
    requires d in Claims(nodes)
    ensures exists i :: 0 <= i < |nodes| && Eligible(nodes[i]) && PodText(nodes[i]) == d && InstanceId(nodes[i]) == Claims(nodes)[d]
  {
    hide Eligible, PodText, InstanceId;
    var init := nodes[..|nodes| - 1];
    if d in Claims(init) {
      ClaimIsWanted(init, d);
      var i :| 0 <= i < |init| && Eligible(init[i]) && PodText(init[i]) == d && InstanceId(init[i]) == Claims(init)[d];
      assert nodes[i] == init[i];
    } else {
      assert Eligible(nodes[|nodes| - 1]);
    }
  }

  /** Every eligible node's destination is claimed. */
  lemma {:induction false} WantedIsClaimed(nodes: seq<Node>, i: nat)
    requires i < |nodes| && Eligible(nodes[i])
    ensures PodText(nodes[i]) in Claims(nodes)
  {
    hide Eligible, PodText, InstanceId;
    if i < |nodes| - 1 {
      WantedIsClaimed(nodes[..|nodes| - 1], i);
    }
  }

  /** Every claim is some eligible node's, and every eligible node's destination is claimed. */
  lemma ClaimsMeaning(nodes: seq<Node>)
    ensures forall d :: d in Claims(nodes) ==>
              exists i :: 0 <= i < |nodes| && Eligible(nodes[i]) && PodText(nodes[i]) == d && InstanceId(nodes[i]) == Claims(nodes)[d]
    ensures forall i :: 0 <= i < |nodes| && Eligible(nodes[i]) ==> PodText(nodes[i]) in Claims(nodes)
  {
    hide *;
    forall d | d in Claims(nodes)
      ensures exists i :: 0 <= i < |nodes| && Eligible(nodes[i]) && PodText(nodes[i]) == d && InstanceId(nodes[i]) == Claims(nodes)[d]
    {
      ClaimIsWanted(nodes, d);
    }
    forall i | 0 <= i < |nodes| && Eligible(nodes[i])
      ensures PodText(nodes[i]) in Claims(nodes)
    {
      WantedIsClaimed(nodes, i);
    }
  }

  /** A route at an eligible node's destination that conflicts with no node belongs to that node. */
  lemma OnlyOwnerFits(nodes: seq<Node>, i: nat, owner: string)
    requires i < |nodes| && Eligible(nodes[i]) && IsV4(PodRouteOf(nodes[i]).net)
    requires !Conflict(nodes, PodText(nodes[i]), owner)
    ensures owner == InstanceId(nodes[i])
  {
    hide PodRouteOf, InstanceId, ConflictsWith, PodText;
    OwnRoute(nodes[i], owner);
  }

  /** After one pass no visible route conflicts. */
  lemma OnePassNoConflicts(nodes: seq<Node>, owners: map<string, string>)
    requires Compatible(nodes)
    ensures NoConflicts(nodes, OnePass(nodes, owners))
  {
    hide Eligible, PodText, InstanceId, Conflict;
    ClaimsMeaning(nodes);
  }

  /** Where a pass begins without conflicts it ends converged. */
  lemma PassFromNoConflicts(nodes: seq<Node>, owners: map<string, string>)
    requires Compatible(nodes) && IPv4Pods(nodes) && NoConflicts(nodes, owners)
    ensures Converged(nodes, OnePass(nodes, owners))
  {
    hide PodText, InstanceId, Conflict, PodRouteOf, Claims;
    OnePassNoConflicts(nodes, owners);
    ClaimsMeaning(nodes);
    var after := OnePass(nodes, owners);
    forall i | 0 <= i < |nodes| && Eligible(nodes[i])
      ensures Owns(nodes[i], after)
    {
      var d := PodText(nodes[i]);
      assert d in Claims(nodes);
      assert d in after;
      OnlyOwnerFits(nodes, i, after[d]);
    }
  }

  /** Two passes bring every table to a converged one exactly when the nodes are compatible. */
  lemma TwoPassConvergence(nodes: seq<Node>)
    requires IPv4Pods(nodes)
    ensures Compatible(nodes) <==>
              forall owners: map<string, string> :: Converged(nodes, OnePass(nodes, OnePass(nodes, owners)))
  {
    hide *;
    if Compatible(nodes) {
      forall owners: map<string, string>
        ensures Converged(nodes, OnePass(nodes, OnePass(nodes, owners)))
      {
        OnePassNoConflicts(nodes, owners);
        PassFromNoConflicts(nodes, OnePass(nodes, owners));
      }
    }
    if forall owners: map<string, string> :: Converged(nodes, OnePass(nodes, OnePass(nodes, owners))) {
      var taken := map[DEFAULT_DEST := ""];
      DefaultStays(nodes, "", taken);
      DefaultStays(nodes, "", OnePass(nodes, taken));
      var owners := OnePass(nodes, OnePass(nodes, taken));
      assert Converged(nodes, owners);
      ConvergedWithForeignDefault(nodes, owners);
    }
  }

  lemma DefaultStays(nodes: seq<Node>, owner: string, owners: map<string, string>)
    requires DEFAULT_DEST in owners && owners[DEFAULT_DEST] == owner
    ensures DEFAULT_DEST in OnePass(nodes, owners) && OnePass(nodes, owners)[DEFAULT_DEST] == owner
  {
    hide Conflict, Claims;
  }

  lemma ConvergedWithForeignDefault(nodes: seq<Node>, owners: map<string, string>)
    requires Converged(nodes, owners) && DEFAULT_DEST in owners && owners[DEFAULT_DEST] == ""
    ensures Compatible(nodes)
  {
    hide PodText, InstanceId, Conflict, PodRouteOf, NeedsSync;
    forall i | 0 <= i < |nodes| && Eligible(nodes[i])
      ensures PodText(nodes[i]) != DEFAULT_DEST && !Conflict(nodes, PodText(nodes[i]), InstanceId(nodes[i]))
    {
      assert Owns(nodes[i], owners);
    }
  }

  /** A converged table is left as it is. */
  lemma ConvergedIsStable(nodes: seq<Node>, owners: map<string, string>)
    requires Converged(nodes, owners)
    ensures OnePass(nodes, owners) == owners
  {
    hide Eligible, PodText, InstanceId, Conflict;
    ClaimsMeaning(nodes);
    assert Claims(nodes) - owners.Keys == map[];
  }

  /** After one pass, the eligible nodes without a route are exactly those whose destination had
      another owner before it; each of them is marked as having a route all the same. */
  lemma LeftWithoutRoute(nodes: seq<Node>, owners: map<string, string>, i: nat)
    requires Compatible(nodes) && IPv4Pods(nodes)
    requires i < |nodes| && Eligible(nodes[i])
    ensures var d := PodText(nodes[i]);
            && (d !in OnePass(nodes, owners) <==> d in owners && owners[d] != InstanceId(nodes[i]))
            && (d in OnePass(nodes, owners) ==> Owns(nodes[i], OnePass(nodes, owners)))
    ensures (nodes[i].name, true) in Marks(nodes)
  {
    hide PodText, InstanceId, Conflict, PodRouteOf, Claims, Marks;
    var d := PodText(nodes[i]);
    ClaimsMeaning(nodes);
    OnePassNoConflicts(nodes, owners);
    if d in OnePass(nodes, owners) {
      OnlyOwnerFits(nodes, i, OnePass(nodes, owners)[d]);
    }
    EveryEligibleMarked(nodes, i);
  }

  lemma {:induction false} EveryEligibleMarked(nodes: seq<Node>, i: nat)
    requires i < |nodes| && Eligible(nodes[i])
    ensures (nodes[i].name, true) in Marks(nodes)
  {
    hide Eligible;
    if i < |nodes| - 1 {
      EveryEligibleMarked(nodes[..|nodes| - 1], i);
    }
  }

  /** One pass is enough exactly when no eligible node's destination has another owner. */
  lemma OnePassSuffices(nodes: seq<Node>, owners: map<string, string>)
    requires Compatible(nodes) && IPv4Pods(nodes)
    ensures Converged(nodes, OnePass(nodes, owners)) <==>
              forall i :: 0 <= i < |nodes| && Eligible(nodes[i]) && PodText(nodes[i]) in owners ==> Owns(nodes[i], owners)
  {
    hide PodText, InstanceId, Conflict, PodRouteOf, OnePass, Eligible, IPv4Pods, Compatible;
    OnePassNoConflicts(nodes, owners);
    forall i | 0 <= i < |nodes| && Eligible(nodes[i])
      ensures Owns(nodes[i], OnePass(nodes, owners)) <==> (PodText(nodes[i]) in owners ==> Owns(nodes[i], owners))
    {
      LeftWithoutRoute(nodes, owners, i);
    }
  }

  // ---------- Delivery ----------

  /** The IPv4 route d matches address a. */
  ghost predicate Matches(d: string, a: seq<Byte>) {
    var net := ParseCIDR(d);
    net.Some? && IsV4(net.value) && Member(net.value, a)
  }

  /** Of the routes that match a, d has the longest prefix (section 5.1 of RFC 4632). */
  ghost predicate LongestMatch(owners: map<string, string>, a: seq<Byte>, d: string) {
    && d in owners && Matches(d, a)
    && forall e :: e in owners && Matches(e, a) ==> ParseCIDR(e).value.ones <= ParseCIDR(d).value.ones
  }

  const ZERO: Byte := 0

  lemma FormatZeros(b: seq<Byte>, rest: string)
    requires 0 < |b| <= 4 && b[0] == 0
    requires rest == if |b| == 1 then "" else "." + FormatOctets(b[1..])
    ensures FormatOctets(b) == "0" + rest
  {
    assert (b[0] as nat) == 0 && Decimal.Format(0) == "0";
  }

  lemma DefaultNet()
    ensures ParseCIDR(DEFAULT_DEST) == Some(IPNet([ZERO, ZERO, ZERO, ZERO], 0))
    ensures Valid(IPNet([ZERO, ZERO, ZERO, ZERO], 0)) && Text(IPNet([ZERO, ZERO, ZERO, ZERO], 0)) == DEFAULT_DEST
  {
    hide FormatOctets, ParseCIDR;
    var n := IPNet([ZERO, ZERO, ZERO, ZERO], 0);
    assert And(n.ip, Mask(n)) == n.ip;
    var b3, b2, b1 := n.ip[1..], n.ip[1..][1..], n.ip[1..][1..][1..];
    FormatZeros(b1, "");
    FormatZeros(b2, ".0");
    FormatZeros(b3, ".0.0");
    FormatZeros(n.ip, ".0.0.0");
    assert Decimal.Format(0) == "0";
    assert Text(n) == DEFAULT_DEST;
    ParseText(n);
  }

  /** A network with no prefix is the default one. */
  lemma NoPrefixIsDefault(n: IPNet)
    requires Valid(n) && IsV4(n) && n.ones == 0
    ensures Text(n) == DEFAULT_DEST
  {
    hide ParseCIDR, Text;
    DefaultNet();
    forall k | 0 <= k < 4
      ensures n.ip[k] == 0
    {
      assert n.ip[k] == And(n.ip, Mask(n))[k];
    }
    assert n == IPNet([ZERO, ZERO, ZERO, ZERO], 0);
  }

  /** In a converged table a route that matches an address of an eligible node's pod CIDR and is at
      least as specific as that CIDR is the node's own route. */
  lemma NoMoreSpecific(nodes: seq<Node>, owners: map<string, string>, i: nat, a: seq<Byte>, d: string)
    requires Converged(nodes, owners)
    requires i < |nodes| && Eligible(nodes[i]) && IsV4(PodRouteOf(nodes[i]).net) && PodText(nodes[i]) != DEFAULT_DEST
    requires Member(PodRouteOf(nodes[i]).net, a) && d in owners && Matches(d, a)
    requires ParseCIDR(d).value.ones >= PodRouteOf(nodes[i]).net.ones
    ensures d == PodText(nodes[i])
  {
    hide PodRouteOf, InstanceId, ParseCIDR, Member, Subset, Containing, Text, Contains;
    var pod, net := PodRouteOf(nodes[i]).net, ParseCIDR(d).value;
    Laminar(pod, net, a);
    EndpointTest(pod, d);
    if d != PodText(nodes[i]) {
      assert ConflictsWith(nodes[i], d, owners[d]);
      assert Conflict(nodes, d, owners[d]);
      DefaultNet();
      NoPrefixIsDefault(pod);
    }
  }

  /** In a converged table, longest-prefix match sends every address of an eligible node's pod CIDR to
      that node's instance. */
  lemma Delivery(nodes: seq<Node>, owners: map<string, string>, i: nat, a: seq<Byte>)
    requires Converged(nodes, owners)
    requires i < |nodes| && Eligible(nodes[i]) && IsV4(PodRouteOf(nodes[i]).net) && PodText(nodes[i]) != DEFAULT_DEST
    requires Member(PodRouteOf(nodes[i]).net, a)
    ensures LongestMatch(owners, a, PodText(nodes[i]))
    ensures forall d :: LongestMatch(owners, a, d) ==> owners[d] == InstanceId(nodes[i])
  {
    hide PodRouteOf, InstanceId, ParseCIDR, Member, Text;
    ParseText(PodRouteOf(nodes[i]).net);
    assert Owns(nodes[i], owners);
    forall e | e in owners && Matches(e, a)
      ensures ParseCIDR(e).value.ones <= PodRouteOf(nodes[i]).net.ones
      ensures ParseCIDR(e).value.ones == PodRouteOf(nodes[i]).net.ones ==> e == PodText(nodes[i])
    {
      if ParseCIDR(e).value.ones >= PodRouteOf(nodes[i]).net.ones {
        NoMoreSpecific(nodes, owners, i, a, e);
      }
    }
  }
}
