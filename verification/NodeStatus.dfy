/** The node objects in the API server and the NetworkUnavailable condition that the controller
    writes to them (updateNetworkingCondition in pkg/controller/route/route_controller.go). */
module NodeStatus {
  import opened Wrappers
  import opened NodeUtils
  import opened Nodes
  import opened Faults

  function Status(routeCreated: bool): string {
    if routeCreated then FALSE else TRUE
  }

  /** The condition FindCondition points to already says what is asked for. */
  predicate AlreadySet(conds: seq<NodeCondition>, routeCreated: bool) {
    var k := Find(conds, NETWORK_UNAVAILABLE);
    k.Some? && conds[k.value].status == Status(routeCreated)
  }

  function NetworkCondition(routeCreated: bool, transition: int, heartbeat: int): NodeCondition {
    NodeCondition(NETWORK_UNAVAILABLE, Status(routeCreated), heartbeat, transition,
                  if routeCreated then "RouteCreated" else "NoRouteCreated",
                  if routeCreated then "RouteController created a route" else "RouteController failed to create a route")
  }

  /** The list after the status diff: the found condition rewritten, or a new one at the end. */
  function Patched(conds: seq<NodeCondition>, routeCreated: bool, transition: int, heartbeat: int): seq<NodeCondition> {
    var condition := NetworkCondition(routeCreated, transition, heartbeat);
    match Find(conds, NETWORK_UNAVAILABLE)
    case Some(k) => conds[k := condition]
    case None => conds + [condition]
  }

  /** No stored heartbeat of the network condition is ahead of the clock. */
  ghost predicate NotAhead(conds: seq<NodeCondition>, now: int) {
    forall i :: 0 <= i < |conds| && conds[i].kind == NETWORK_UNAVAILABLE ==> conds[i].heartbeat <= now
  }

  /** After the diff, with a clock not behind the stored heartbeats, the condition that is found is
      the written one, every other condition keeps its place and value, and asking again is a no-op. */
  lemma PatchedIsFound(conds: seq<NodeCondition>, routeCreated: bool, transition: int, heartbeat: int)
    requires NotAhead(conds, heartbeat)
    ensures var conds' := Patched(conds, routeCreated, transition, heartbeat);
            var k := Find(conds', NETWORK_UNAVAILABLE);
            && k.Some?
            && conds'[k.value] == NetworkCondition(routeCreated, transition, heartbeat)
            && AlreadySet(conds', routeCreated)
            && |conds| <= |conds'| <= |conds| + 1
            && (forall i :: 0 <= i < |conds| && i != k.value ==> conds'[i] == conds[i])
            && (k.value == |conds| <==> forall i :: 0 <= i < |conds| ==> conds[i].kind != NETWORK_UNAVAILABLE)
            && NotAhead(conds', heartbeat)
  {
    var conds' := Patched(conds, routeCreated, transition, heartbeat);
    var k := match Find(conds, NETWORK_UNAVAILABLE) case Some(k) => k case None => |conds|;
    assert IsLatest(conds', NETWORK_UNAVAILABLE, k);
    LatestIsFound(conds', NETWORK_UNAVAILABLE, k);
  }

  /** The latest condition of type NetworkUnavailable has this status. */
  ghost predicate HasStatus(conds: seq<NodeCondition>, status: string) {
    exists k: nat :: IsLatest(conds, "NetworkUnavailable", k) && conds[k].status == status
  }

  /** It has this status, reason and message. */
  ghost predicate Says(conds: seq<NodeCondition>, status: string, reason: string, message: string) {
    exists k: nat ::
      && IsLatest(conds, "NetworkUnavailable", k)
      && conds[k].status == status && conds[k].reason == reason && conds[k].message == message
  }

  /** What the diff writes, in the words of the API: the latest NetworkUnavailable condition is "False" for a
      created route and "True" for a missing one, with the matching reason and message. */
  lemma WhatIsWritten(conds: seq<NodeCondition>, routeCreated: bool, transition: int, heartbeat: int)
    requires NotAhead(conds, heartbeat)
    ensures var conds' := Patched(conds, routeCreated, transition, heartbeat);
            if routeCreated then Says(conds', "False", "RouteCreated", "RouteController created a route")
            else Says(conds', "True", "NoRouteCreated", "RouteController failed to create a route")
  {
    PatchedIsFound(conds, routeCreated, transition, heartbeat);
    var conds' := Patched(conds, routeCreated, transition, heartbeat);
    assert IsLatest(conds', "NetworkUnavailable", Find(conds', NETWORK_UNAVAILABLE).value);
  }

  /** The early exit is taken exactly if the latest NetworkUnavailable condition says so already. */
  lemma WhatIsSet(conds: seq<NodeCondition>, routeCreated: bool)
    ensures AlreadySet(conds, routeCreated) <==> HasStatus(conds, if routeCreated then "False" else "True")
  {
    if AlreadySet(conds, routeCreated) {
      assert IsLatest(conds, "NetworkUnavailable", Find(conds, NETWORK_UNAVAILABLE).value);
    }
    if k: nat :| IsLatest(conds, "NetworkUnavailable", k) && conds[k].status == if routeCreated then "False" else "True" {
      LatestIsFound(conds, "NetworkUnavailable", k);
    }
  }

  /** updateNetworkingCondition of this node, with its calls from n on: nothing if the given node object has
      the status; else patches until one is not answered with a version conflict, of which the last alone
      may take effect. */
  ghost predicate Updated(w: ServerWeather, n: nat, n': nat, nodes: map<string, Node>, nodes': map<string, Node>,
                          node: Node, routeCreated: bool) {
    if AlreadySet(node.conditions, routeCreated) then n' == n && nodes' == nodes
    else
      && n' == n + Tries(w, n, node.name in nodes, UPDATE_RETRIES)
      && if PatchTakes(w, n' - 1, node.name in nodes)
         then exists t, h :: PatchedAt(nodes, nodes', node.name, routeCreated, t, h)
         else nodes' == nodes
  }

  ghost predicate PatchedAt(nodes: map<string, Node>, nodes': map<string, Node>, name: string, routeCreated: bool, t: int, h: int) {
    && name in nodes && t <= h
    && nodes' == nodes[name := nodes[name].(conditions := Patched(nodes[name].conditions, routeCreated, t, h))]
  }

  /** Whether it ends with an error. */
  predicate UpdateFails(w: ServerWeather, n: nat, stored: bool) {
    PatchReply(w, n + Tries(w, n, stored, UPDATE_RETRIES) - 1, stored) != Applied
  }

  /** The API server's nodes. Patching a node's status replaces it atomically or fails; a failed
      patch other than a version conflict may have taken effect. */
  class ApiServer {
    const weather: ServerWeather
    var nodes: map<string, Node>
    var clock: int
    /** How many calls have been made. */
    var calls: nat
    /** The status updates the controller has asked for, oldest first. */
    ghost var requests: seq<(string, bool)>

    constructor (weather: ServerWeather, nodes: map<string, Node>)
      ensures this.weather == weather && this.nodes == nodes && calls == 0 && requests == []
    {
      this.weather, this.nodes, this.clock, this.calls, this.requests := weather, nodes, 0, 0, [];
    }

    method Now() returns (t: int)
      modifies `clock
      ensures old(clock) <= t == clock
    {
      var reading: int := *;
      clock := if reading < clock then clock else reading;
      t := clock;
    }

    /** Lists all nodes, in an order of the server's choosing. */
    method List() returns (failed: bool, items: seq<Node>)
      modifies `calls
      ensures calls == old(calls) + 1 && failed == GetFails(weather, old(calls))
      ensures weather.calm ==> !failed
      ensures !failed ==> forall n :: n in items <==> n in nodes.Values
    {
      items := [];
      failed := GetFails(weather, calls);
      calls := calls + 1;
      if failed {
        return;
      }
      var left := nodes.Keys;
      while left != {}
        invariant left <= nodes.Keys
        invariant forall n :: n in items <==> exists name :: name in nodes && name !in left && nodes[name] == n
      {
        var name :| name in left;
        items := items + [nodes[name]];
        left := left - {name};
      }
    }

    /** The diff of updateNetworkingCondition, on a copy of the node. */
    method Diff(nins: Node, routeCreated: bool) returns (nins': Node, ghost transition: int, ghost heartbeat: int)
      modifies `clock
      ensures old(clock) <= transition <= heartbeat == clock
      ensures nins' == nins.(conditions := Patched(nins.conditions, routeCreated, transition, heartbeat))
    {
      var found, k := FindCondition(nins.conditions, NETWORK_UNAVAILABLE);
      var condition := if found then nins.conditions[k] else NodeCondition("", "", 0, 0, "", "");
      condition := condition.(kind := NETWORK_UNAVAILABLE);
      var t := Now();
      condition := condition.(transition := t);
      var h := Now();
      condition := condition.(heartbeat := h);
      if routeCreated {
        condition := condition.(status := FALSE, reason := "RouteCreated",
                                message := "RouteController created a route");
      } else {
        condition := condition.(status := TRUE, reason := "NoRouteCreated",
                                message := "RouteController failed to create a route");
      }
      transition, heartbeat := t, h;
      nins' := nins.(conditions := if found then nins.conditions[k := condition] else nins.conditions + [condition]);
    }

    /** Reads one node. */
    method Get(name: string) returns (failed: bool, node: Option<Node>)
      modifies `calls
      ensures calls == old(calls) + 1 && failed == GetFails(weather, old(calls))
      ensures node == if !failed && name in nodes then Some(nodes[name]) else None
    {
      failed := GetFails(weather, calls);
      calls := calls + 1;
      node := if !failed && name in nodes then Some(nodes[name]) else None;
    }

    /** PatchM on the node's status: reads the stored node, applies the diff, and stores the result. */
    method PatchM(name: string, routeCreated: bool) returns (r: PatchResult, ghost at: Option<(int, int)>)
      modifies `nodes, `clock, `calls
      ensures calls == old(calls) + 1
      ensures r == PatchReply(weather, old(calls), name in old(nodes))
      ensures at.Some? <==> PatchTakes(weather, old(calls), name in old(nodes))
      ensures old(clock) <= clock
      ensures at == None ==> nodes == old(nodes) && r != Applied
      ensures at.Some? ==>
                && name in old(nodes) && r != VersionConflict
                && old(clock) <= at.value.0 <= at.value.1 <= clock
                && nodes == old(nodes)[name := old(nodes)[name].(conditions :=
                                Patched(old(nodes)[name].conditions, routeCreated, at.value.0, at.value.1))]
      ensures at.Some? ==> PatchedAt(old(nodes), nodes, name, routeCreated, at.value.0, at.value.1)
      ensures weather.calm && name in old(nodes) ==> r == Applied
    {
      at := None;
      var n := calls;
      var getFailed, target := Get(name);
      if target == None {
        return PatchFailed, None;
      }
      var ntarget, t, h := Diff(target.value, routeCreated);
      if !weather.calm && weather.faults(n).conflicts {
        return VersionConflict, None;
      }
      if !weather.calm && weather.faults(n).patchFails {
        return PatchFailed, None;
      }
      nodes := nodes[name := ntarget];
      return if !weather.calm && weather.faults(n).lost then PatchFailed else Applied, Some((t, h));
    }

    /** updateNetworkingCondition: does nothing if the given node object already has the status; else
        patches the stored node, again on a version conflict, three times at most. At most one patch
        takes effect, and only on this node's conditions. */
    method UpdateNetworkingCondition(node: Node, routeCreated: bool)
      returns (failed: bool, ghost at: Option<(int, int)>, ghost results: seq<PatchResult>)
      modifies `nodes, `clock, `calls, `requests
      ensures requests == old(requests) + [(node.name, routeCreated)]
      ensures old(clock) <= clock
      ensures Updated(weather, old(calls), calls, old(nodes), nodes, node, routeCreated)
      ensures failed == (!AlreadySet(node.conditions, routeCreated) && UpdateFails(weather, old(calls), node.name in old(nodes)))
      ensures calls == old(calls) + |results|
      ensures forall i :: 0 <= i < |results| ==> results[i] == PatchReply(weather, old(calls) + i, node.name in old(nodes))
      ensures AlreadySet(node.conditions, routeCreated) <==> results == []
      ensures results == [] <==> HasStatus(node.conditions, if routeCreated then "False" else "True")
      ensures results == [] ==> at == None && !failed
      ensures |results| <= UPDATE_RETRIES
      ensures forall i :: 0 <= i < |results| - 1 ==> results[i] == VersionConflict
      ensures results != [] ==>
                var last := results[|results| - 1];
                && (failed <==> last != Applied)
                && (last == Applied ==> at.Some?)
                && (last == VersionConflict ==> |results| == UPDATE_RETRIES)
      ensures at == None ==> nodes == old(nodes)
      ensures at.Some? ==>
                && node.name in old(nodes)
                && old(clock) <= at.value.0 <= at.value.1 <= clock
                && nodes == old(nodes)[node.name := old(nodes)[node.name].(conditions :=
                                Patched(old(nodes)[node.name].conditions, routeCreated, at.value.0, at.value.1))]
      ensures at.Some? && NotAhead(old(nodes)[node.name].conditions, at.value.1) ==>
                var conds := nodes[node.name].conditions;
                if routeCreated then Says(conds, "False", "RouteCreated", "RouteController created a route")
                else Says(conds, "True", "NoRouteCreated", "RouteController failed to create a route")
      ensures weather.calm && node.name in old(nodes) ==> !failed
    {
      hide PatchReply, PatchTakes, NotAhead, Patched, Tries, HasStatus, Says, UpdateFails;
      requests := requests + [(node.name, routeCreated)];
      WhatIsSet(node.conditions, routeCreated);
      var ok, k := FindCondition(node.conditions, NETWORK_UNAVAILABLE);
      if routeCreated && ok && node.conditions[k].status == FALSE {
        return false, None, [];
      }
      if !routeCreated && ok && node.conditions[k].status == TRUE {
        return false, None, [];
      }
      failed, at, results := PatchUntilTaken(node.name, routeCreated);
      if at.Some? && NotAhead(old(nodes)[node.name].conditions, at.value.1) {
        WhatIsWritten(old(nodes)[node.name].conditions, routeCreated, at.value.0, at.value.1);
      }
    }

    /** The retry loop of updateNetworkingCondition. */
    method PatchUntilTaken(name: string, routeCreated: bool)
      returns (failed: bool, ghost at: Option<(int, int)>, ghost results: seq<PatchResult>)
      modifies `nodes, `clock, `calls
      ensures old(clock) <= clock
      ensures calls == old(calls) + Tries(weather, old(calls), name in old(nodes), UPDATE_RETRIES)
      ensures failed == UpdateFails(weather, old(calls), name in old(nodes))
      ensures calls == old(calls) + |results| && 0 < |results| <= UPDATE_RETRIES
      ensures forall i :: 0 <= i < |results| ==> results[i] == PatchReply(weather, old(calls) + i, name in old(nodes))
      ensures forall i :: 0 <= i < |results| - 1 ==> results[i] == VersionConflict
      ensures results[|results| - 1] == VersionConflict ==> |results| == UPDATE_RETRIES
      ensures results[|results| - 1] == Applied ==> at.Some?
      ensures failed <==> results[|results| - 1] != Applied
      ensures at.Some? <==> PatchTakes(weather, calls - 1, name in old(nodes))
      ensures at == None ==> nodes == old(nodes)
      ensures at.Some? ==>
                && PatchedAt(old(nodes), nodes, name, routeCreated, at.value.0, at.value.1)
                && old(clock) <= at.value.0 <= at.value.1 <= clock
      ensures weather.calm && name in old(nodes) ==> !failed
    {
      hide PatchReply, PatchTakes, Patched, PatchedAt, Tries;
      at, results := None, [];
      ghost var n, stored := calls, name in nodes;
      if weather.calm {
        CalmPatch(weather, n, stored);
      }
      for i := 0 to UPDATE_RETRIES
        invariant at == None && nodes == old(nodes) && old(clock) <= clock
        invariant |results| == i && calls == n + i
        invariant forall k :: 0 <= k < i ==> results[k] == VersionConflict == PatchReply(weather, n + k, stored)
        invariant Tries(weather, n, stored, UPDATE_RETRIES) == i + Tries(weather, calls, stored, UPDATE_RETRIES - i)
        invariant i > 0 ==> !PatchTakes(weather, calls - 1, stored) && !(weather.calm && stored)
      {
        PatchMeaning(weather, calls, stored);
        UnfoldTries(weather, calls, stored, UPDATE_RETRIES - i);
        var r;
        r, at := PatchM(name, routeCreated);
        ghost var earlier := results;
        results := results + [r];
        assert forall k :: 0 <= k < i ==> results[k] == earlier[k];
        if r == Applied {
          return false, at, results;
        }
        if r != VersionConflict {
          return true, at, results;
        }
      }
      UnfoldTries(weather, calls, stored, 0);
      assert results[UPDATE_RETRIES - 1] == PatchReply(weather, n + (UPDATE_RETRIES - 1), stored);
      failed := true;
    }
  }
}
