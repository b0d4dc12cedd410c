/** What a pass does to the table and whom it marks, as a function of the listing and of what each of its
    calls meets. */
module Passes {
  import opened Nodes
  import opened Conflicts
  import opened Routes
  import opened Faults

  // ---------- The deleting loop ----------

  datatype Swept = Swept(calls: nat, owners: map<string, string>)

  function DeleteStep(w: Weather, n: nat, nodes: seq<Node>, r: Route, b: Swept): Swept {
    if !Conflict(nodes, r.dest, r.instanceId) then b
    else
      var d := Deletion(w, n + b.calls, r.dest in b.owners);
      Swept(b.calls + d.calls, if d.deleted then b.owners - {r.dest} else b.owners)
  }

  /** The deleting loop from call n on: one deletion is tried for every listed route that conflicts. */
  function DeleteAll(w: Weather, n: nat, nodes: seq<Node>, routes: seq<Route>, owners: map<string, string>): Swept {
    if routes == [] then Swept(0, owners)
    else DeleteStep(w, n, nodes, routes[|routes| - 1], DeleteAll(w, n, nodes, routes[..|routes| - 1], owners))
  }

  lemma DeleteOneMore(w: Weather, n: nat, nodes: seq<Node>, routes: seq<Route>, i: nat, owners: map<string, string>)
    requires i < |routes|
    ensures DeleteAll(w, n, nodes, routes[..i + 1], owners) ==
            DeleteStep(w, n, nodes, routes[i], DeleteAll(w, n, nodes, routes[..i], owners))
  {
    hide DeleteStep;
    assert routes[..i + 1][..i] == routes[..i];
  }

  /** The call at which the deleting loop comes to route k. */
  function CallOf(w: Weather, n: nat, nodes: seq<Node>, routes: seq<Route>, owners: map<string, string>, k: nat): nat
    requires k <= |routes|
  {
    n + DeleteAll(w, n, nodes, routes[..k], owners).calls
  }

  ghost predicate Listing(routes: seq<Route>, owners: map<string, string>) {
    && (forall k :: 0 <= k < |routes| ==> routes[k].dest in owners)
    && (forall j, k :: 0 <= j < k < |routes| ==> routes[j].dest != routes[k].dest)
  }

  lemma StepDecides(w: Weather, n: nat, nodes: seq<Node>, r: Route, b: Swept)
    ensures var after, c := DeleteStep(w, n, nodes, r, b).owners, n + b.calls;
            && (r.dest in b.owners ==>
                  (r.dest !in after <==> Conflict(nodes, r.dest, r.instanceId) && !Refused(w, c) && !Refused(w, c + 1)))
            && (forall d :: d != r.dest ==> (d in after <==> d in b.owners))
            && (forall d :: d in after ==> d in b.owners && after[d] == b.owners[d])
  {
    hide Conflict, Refused, Lost;
  }

  lemma DeleteNone(w: Weather, n: nat, nodes: seq<Node>, owners: map<string, string>)
    ensures DeleteAll(w, n, nodes, [], owners) == Swept(0, owners)
  {
  }

  /** After the first m listed routes: a route among them is gone exactly if it conflicts and neither of the
      two calls of its own deletion was refused; every other destination is as before. */
  lemma {:induction false} OwnDeletionDecides(w: Weather, n: nat, nodes: seq<Node>, routes: seq<Route>,
                                              owners: map<string, string>, m: nat, k: nat)
    requires Listing(routes, owners) && k < |routes| && m <= |routes|
    ensures var after := DeleteAll(w, n, nodes, routes[..m], owners).owners;
            var c := CallOf(w, n, nodes, routes, owners, k);
            && (routes[k].dest !in after <==>
                  k < m && Conflict(nodes, routes[k].dest, routes[k].instanceId) && !Refused(w, c) && !Refused(w, c + 1))
            && (forall d :: d in after ==> d in owners && after[d] == owners[d])
    decreases m
  {
    hide DeleteAll, DeleteStep, Conflict, Refused;
    if m > 0 {
      OwnDeletionDecides(w, n, nodes, routes, owners, m - 1, k);
      DeleteOneMore(w, n, nodes, routes, m - 1, owners);
      StepDecides(w, n, nodes, routes[m - 1], DeleteAll(w, n, nodes, routes[..m - 1], owners));
    } else {
      assert routes[..0] == [];
      DeleteNone(w, n, nodes, owners);
    }
  }

  /** Destinations that are not listed stay. */
  lemma {:induction false} OnlyListedDeleted(w: Weather, n: nat, nodes: seq<Node>, routes: seq<Route>,
                                             owners: map<string, string>, d: string)
    requires d in owners && !Hit(routes, d)
    ensures d in DeleteAll(w, n, nodes, routes, owners).owners
  {
    hide Conflict;
    if routes != [] {
      var init := routes[..|routes| - 1];
      assert forall i :: 0 <= i < |init| ==> init[i] == routes[i];
      OnlyListedDeleted(w, n, nodes, init, owners, d);
    }
  }

  // ---------- The adding loop ----------

  datatype Filled = Filled(calls: nat, owners: map<string, string>, marks: seq<(string, bool)>)

  /** What adding the route of this node comes to, from call n on. */
  function EffortFor(w: Weather, n: nat, node: Node, routes: seq<Route>, there: bool): Effort {
    Adding(w, n, there, routes == [], Hit(routes, PodText(node)), InstanceId(node) != "")
  }

  function AddStep(w: Weather, n: nat, routes: seq<Route>, node: Node, b: Filled): Filled {
    if !Eligible(node) then b
    else
      var e := EffortFor(w, n + b.calls, node, routes, PodText(node) in b.owners);
      Filled(b.calls + e.calls,
             if e.added then b.owners[PodText(node) := InstanceId(node)] else b.owners,
             if e.failed then b.marks else b.marks + [(node.name, true)])
  }

  /** The adding loop from call n on: every eligible node is tried, and marked if no error is reported. */
  function AddAll(w: Weather, n: nat, nodes: seq<Node>, routes: seq<Route>, owners: map<string, string>): Filled {
    if nodes == [] then Filled(0, owners, [])
    else AddStep(w, n, routes, nodes[|nodes| - 1], AddAll(w, n, nodes[..|nodes| - 1], routes, owners))
  }

  lemma AddOneMore(w: Weather, n: nat, nodes: seq<Node>, j: nat, routes: seq<Route>, owners: map<string, string>)
    requires j < |nodes|
    ensures AddAll(w, n, nodes[..j + 1], routes, owners) ==
            AddStep(w, n, routes, nodes[j], AddAll(w, n, nodes[..j], routes, owners))
  {
    hide AddStep;
    assert nodes[..j + 1][..j] == nodes[..j];
  }

  lemma EffortAdds(w: Weather, n: nat, node: Node, routes: seq<Route>, there: bool)
    ensures EffortFor(w, n, node, routes, there).added ==> !there && !Hit(routes, PodText(node))
  {
    hide Adding, PodText, InstanceId;
    if InstanceId(node) != "" {
      AddingMeaning(w, n, there, routes == [], Hit(routes, PodText(node)));
    } else {
      NoInstance(w, n, there, routes == [], Hit(routes, PodText(node)));
    }
  }

  lemma StepMarks(w: Weather, n: nat, routes: seq<Route>, node: Node, b: Filled)
    ensures b.marks <= AddStep(w, n, routes, node, b).marks
  {
    hide EffortFor, Eligible, PodText, InstanceId;
  }

  lemma StepAdds(w: Weather, n: nat, routes: seq<Route>, node: Node, b: Filled)
    ensures var after := AddStep(w, n, routes, node, b);
            && (forall d :: d in b.owners ==> d in after.owners && after.owners[d] == b.owners[d])
            && (forall d :: d in after.owners && d !in b.owners ==>
                  Eligible(node) && d == PodText(node) && after.owners[d] == InstanceId(node) && !Hit(routes, d))
  {
    hide EffortFor, Eligible, PodText, InstanceId, Hit;
    EffortAdds(w, n + b.calls, node, routes, PodText(node) in b.owners);
  }

  lemma NoInstance(w: Weather, n: nat, there: bool, live: bool, hit: bool)
    ensures Adding(w, n, there, live, hit, false) == Effort(true, false, false, false, 0)
  {
  }

  /** The adding loop keeps what is there, adds no destination that is listed, and keeps its marks. */
  lemma {:induction false} AddKeeps(w: Weather, n: nat, nodes: seq<Node>, j: nat, routes: seq<Route>, owners: map<string, string>)
    requires j <= |nodes|
    ensures var b, after := AddAll(w, n, nodes[..j], routes, owners), AddAll(w, n, nodes, routes, owners);
            && b.marks <= after.marks
            && (forall d :: d in b.owners ==> d in after.owners && after.owners[d] == b.owners[d])
            && (forall d :: d in after.owners && Hit(routes, d) ==> d in b.owners)
    decreases |nodes| - j
  {
    hide AddStep, Hit;
    if j == |nodes| {
      assert nodes[..j] == nodes;
    } else {
      AddOneMore(w, n, nodes, j, routes, owners);
      StepMarks(w, n, routes, nodes[j], AddAll(w, n, nodes[..j], routes, owners));
      StepAdds(w, n, routes, nodes[j], AddAll(w, n, nodes[..j], routes, owners));
      AddKeeps(w, n, nodes, j + 1, routes, owners);
    }
  }

  lemma NodeStep(w: Weather, n: nat, routes: seq<Route>, node: Node, b: Filled)
    requires Eligible(node)
    ensures var e, after := EffortFor(w, n + b.calls, node, routes, PodText(node) in b.owners), AddStep(w, n, routes, node, b);
            && after.marks == b.marks + (if e.failed then [] else [(node.name, true)])
            && (!e.failed && !e.lookupFailed && !Hit(routes, PodText(node)) ==> PodText(node) in after.owners)
  {
    hide Adding, PodText, InstanceId, NeedsSync, PodRouteOf;
    AddingMeaning(w, n + b.calls, PodText(node) in b.owners, routes == [], Hit(routes, PodText(node)));
  }

  /** Every eligible node is tried, whatever became of those before it: it is marked if and only if its own
      attempt reports no error, and has a route in the end if that attempt found none listed and no
      failed lookup hid the answer. */
  lemma EachNodeIsTried(w: Weather, n: nat, nodes: seq<Node>, j: nat, routes: seq<Route>, owners: map<string, string>)
    requires j < |nodes| && Eligible(nodes[j])
    ensures var b, after := AddAll(w, n, nodes[..j], routes, owners), AddAll(w, n, nodes, routes, owners);
            var e := EffortFor(w, n + b.calls, nodes[j], routes, PodText(nodes[j]) in b.owners);
            && b.marks + (if e.failed then [] else [(nodes[j].name, true)]) <= after.marks
            && AddAll(w, n, nodes[..j + 1], routes, owners).marks == b.marks + (if e.failed then [] else [(nodes[j].name, true)])
            && (!e.failed && !e.lookupFailed && !Hit(routes, PodText(nodes[j])) ==> PodText(nodes[j]) in after.owners)
  {
    hide AddAll, AddStep, EffortFor, PodText, Eligible, Hit;
    AddOneMore(w, n, nodes, j, routes, owners);
    AddKeeps(w, n, nodes, j + 1, routes, owners);
    NodeStep(w, n, routes, nodes[j], AddAll(w, n, nodes[..j], routes, owners));
  }

  // ---------- The whole pass ----------

  function PassUnder(w: Weather, n: nat, nodes: seq<Node>, routes: seq<Route>, owners: map<string, string>): Filled {
    var d := DeleteAll(w, n, nodes, routes, owners);
    var a := AddAll(w, n + d.calls, nodes, routes, d.owners);
    Filled(d.calls + a.calls, a.owners, a.marks)
  }

  /** A listed route is gone after the pass exactly if it conflicts and neither call of its own deletion was
      refused: no other failure saves it, and nothing brings it back within the pass. */
  lemma ListedSurvives(w: Weather, n: nat, nodes: seq<Node>, routes: seq<Route>, owners: map<string, string>, k: nat)
    requires Listing(routes, owners) && k < |routes|
    ensures var c := CallOf(w, n, nodes, routes, owners, k);
            routes[k].dest !in PassUnder(w, n, nodes, routes, owners).owners <==>
              Conflict(nodes, routes[k].dest, routes[k].instanceId) && !Refused(w, c) && !Refused(w, c + 1)
  {
    hide Conflict, Refused, DeleteAll, AddAll;
    assert routes[..|routes|] == routes;
    OwnDeletionDecides(w, n, nodes, routes, owners, |routes|, k);
    var d := DeleteAll(w, n, nodes, routes, owners);
    AddKeeps(w, n + d.calls, nodes, 0, routes, d.owners);
    assert nodes[..0] == [];
    AddNone(w, n + d.calls, routes, d.owners);
    assert Hit(routes, routes[k].dest);
  }

  lemma AddNone(w: Weather, n: nat, routes: seq<Route>, owners: map<string, string>)
    ensures AddAll(w, n, [], routes, owners) == Filled(0, owners, [])
  {
  }
}
