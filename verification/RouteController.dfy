/** The reconciler: the periodic pass over all nodes and the per-node Reconcile step
    (pkg/controller/route/manager.go, pkg/controller/route/route_controller.go). */
module RouteController {
  import opened Wrappers
  import opened NodeUtils
  import opened Nodes
  import opened Conflicts
  import opened Routes
  import opened NodeStatus
  import opened Faults
  import opened Passes
  import opened Ksyun
  import Interleaving
  import opened Simulation

  /** The status updates of a pass in which nothing fails: one for each eligible node. */
  function Marks(nodes: seq<Node>): seq<(string, bool)> {
    if nodes == [] then []
    else
      var node := nodes[|nodes| - 1];
      Marks(nodes[..|nodes| - 1]) + if Eligible(node) then [(node.name, true)] else []
  }

  lemma MarksOneMore(nodes: seq<Node>, node: Node)
    ensures Marks(nodes + [node]) == Marks(nodes) + if Eligible(node) then [(node.name, true)] else []
  {
    hide Eligible;
    assert (nodes + [node])[..|nodes|] == nodes;
  }

  /** The cache has at most gained entries, each for one of the nodes and its pod CIDR. */
  ghost predicate CacheGrows(cache: map<string, Route>, cache': map<string, Route>, nodes: seq<Node>) {
    && (forall n :: n in cache ==> n in cache' && cache'[n] == cache[n])
    && (forall n :: n in cache' && n !in cache ==> exists i :: 0 <= i < |nodes| && CacheFits(nodes[i], n, cache'[n]))
  }

  predicate CacheFits(node: Node, name: string, r: Route) {
    node.name == name && PodRouteOf(node).Found? && r.dest == PodText(node)
  }

  lemma ListingLists(routes: seq<Route>, t: Table)
    requires forall i :: 0 <= i < |routes| ==>
               routes[i].dest in t && routes[i].dest != DEFAULT_DEST && routes[i] == ToRoute(t[routes[i].dest])
    requires forall i, j :: 0 <= i < j < |routes| ==> routes[i].dest != routes[j].dest
    requires forall d :: d in t && d != DEFAULT_DEST ==> ToRoute(t[d]) in routes
    requires WellKeyed(t)
    ensures Lists(routes, t)
  {
  }

  lemma OnePassIs(nodes: seq<Node>, t: Table)
    ensures OnePass(nodes, Owners(t)) == Kept(nodes, Owners(t)) + (Claims(nodes) - t.Keys)
  {
  }

  lemma HitIffListed(routes: seq<Route>, t: Table, cidr: string)
    requires Lists(routes, t)
    ensures Hit(routes, cidr) <==> cidr in t && cidr != DEFAULT_DEST
  {
  }

  /** The deleting loop, having started from t and reached the i-th listed route with t': only visible
      conflicting routes are gone, and, if exact, all of those among the first i. */
  ghost predicate Deleting(nodes: seq<Node>, routes: seq<Route>, t: Table, t': Table, i: nat, exact: bool) {
    && (forall d :: d in t' ==> d in t && t'[d] == t[d])
    && (forall k :: i <= k < |routes| ==> routes[k].dest in t')
    && (forall d :: d in t && d !in t' ==> d != DEFAULT_DEST && Conflict(nodes, d, Owner(t[d])))
    && (exact ==> forall k :: 0 <= k < i && k < |routes| && Conflict(nodes, routes[k].dest, routes[k].instanceId) ==>
                                routes[k].dest !in t')
  }

  lemma DeletingBegins(nodes: seq<Node>, routes: seq<Route>, t: Table, exact: bool)
    requires Lists(routes, t)
    ensures Deleting(nodes, routes, t, t, 0, exact)
  {
    hide Conflict;
  }

  lemma DeletingAt(nodes: seq<Node>, routes: seq<Route>, t: Table, t': Table, i: nat, exact: bool)
    requires Lists(routes, t) && Deleting(nodes, routes, t, t', i, exact) && i < |routes|
    ensures routes[i].dest in t' && routes[i] == ToRoute(t'[routes[i].dest])
  {
    hide Conflict;
  }

  /** One iteration of the deleting loop, and its write, if any. */
  lemma DeletingStep(nodes: seq<Node>, routes: seq<Route>, t: Table, ws: seq<Write>, t1: Table, t2: Table,
                     i: nat, exact: bool, deleted: bool)
    requires Lists(routes, t) && Deleting(nodes, routes, t, t1, i, exact) && i < |routes|
    requires t2 == if deleted then t1 - {routes[i].dest} else t1
    requires deleted ==> Conflict(nodes, routes[i].dest, routes[i].instanceId)
    requires exact && Conflict(nodes, routes[i].dest, routes[i].instanceId) ==> deleted
    requires AllLegal(nodes, t, ws) && Replay(t, ws) == t1
    ensures Deleting(nodes, routes, t, t2, i + 1, exact)
    ensures routes[i].dest in t1
    ensures var ws' := if deleted then ws + [Deleted(t1[routes[i].dest])] else ws;
            AllLegal(nodes, t, ws') && Replay(t, ws') == t2
  {
    hide Conflict, AllLegal, Replay;
    DeletingAt(nodes, routes, t, t1, i, exact);
    if deleted {
      LegalOneMore(nodes, t, ws, Deleted(t1[routes[i].dest]));
    }
  }

  /** Deleting exactly the listed routes that conflict leaves what a pass keeps. */
  lemma DeletingEnds(nodes: seq<Node>, routes: seq<Route>, t: Table, t': Table)
    requires Lists(routes, t) && Deleting(nodes, routes, t, t', |routes|, true)
    ensures Owners(t') == Kept(nodes, Owners(t))
  {
    hide Conflict;
  }

  /** The write, if any, of one iteration of the adding loop. */
  ghost function Addition(node: Node, t': Table, added: bool): seq<Write>
    requires added ==> PodText(node) in t'
  {
    if added then [Created(t'[PodText(node)])] else []
  }

  /** A route added for an eligible node is a legal write. */
  lemma LegalAddition(nodes: seq<Node>, j: nat, start: Table, ws: seq<Write>, t: Table, t': Table, added: bool)
    requires j < |nodes| && AllLegal(nodes, start, ws) && Replay(start, ws) == t
    requires if added then Eligible(nodes[j]) && Adds(t, t', InstanceId(nodes[j]), PodText(nodes[j])) else t' == t
    ensures added ==> PodText(nodes[j]) in t'
    ensures var ws' := ws + Addition(nodes[j], t', added);
            AllLegal(nodes, start, ws') && Replay(start, ws') == t'
  {
    hide Eligible, PodText, InstanceId, AllLegal, Replay;
    if added {
      var r := t'[PodText(nodes[j])];
      assert Wants(nodes[j], r);
      assert Legal(nodes, t, Created(r)) && Apply(t, Created(r)) == t';
      LegalOneMore(nodes, start, ws, Created(r));
    } else {
      assert ws + [] == ws;
    }
  }

  /** Where the loops of a pass begin: nothing written, claimed, marked or cached yet. */
  lemma PassBegins(nodes: seq<Node>, t: Table, kept: map<string, string>, listed: Table, cache: map<string, Route>)
    ensures AllLegal(nodes, t, []) && Replay(t, []) == t
    ensures kept + (Claims([]) - listed.Keys) == kept && Marks([]) == []
    ensures CacheGrows(cache, cache, nodes)
  {
  }

  lemma CacheStep(start: map<string, Route>, cache: map<string, Route>, cache': map<string, Route>, nodes: seq<Node>, j: nat)
    requires j < |nodes| && CacheGrows(start, cache, nodes)
    requires cache' == cache ||
             (nodes[j].name !in cache && nodes[j].name in cache' && CacheFits(nodes[j], nodes[j].name, cache'[nodes[j].name]) &&
              cache' == cache[nodes[j].name := cache'[nodes[j].name]])
    ensures CacheGrows(start, cache', nodes)
  {
    hide CacheFits;
  }

  /** One more node's share of a fault-free pass: the node's claim is added exactly when its
      destination was not in the listed table and no earlier node claimed it. */
  lemma ClaimStep(before: seq<Node>, node: Node, routes: seq<Route>, listed: Table, kept: map<string, string>,
                  t: Table, t': Table, added: bool)
    requires Lists(routes, listed)
    requires kept.Keys <= listed.Keys && (DEFAULT_DEST in listed ==> DEFAULT_DEST in kept)
    requires Owners(t) == kept + (Claims(before) - listed.Keys)
    requires added <==> Eligible(node) && !Hit(routes, PodText(node)) && PodText(node) !in t
    requires if added then Adds(t, t', InstanceId(node), PodText(node)) else t' == t
    ensures Owners(t') == kept + (Claims(before + [node]) - listed.Keys)
  {
    hide PodText, InstanceId, Eligible, Claims, Lists, Hit, Owners;
    ClaimsOneMore(before, node);
    HitIffListed(routes, listed, PodText(node));
    var cidr, instanceId, claims := PodText(node), InstanceId(node), Claims(before);
    if added {
      OwnersAfterAdds(t, t', instanceId, cidr);
    }
    if Eligible(node) {
      if cidr in listed {
        assert claims[cidr := instanceId] - listed.Keys == claims - listed.Keys;
      } else if cidr in claims {
        assert cidr in Owners(t);
      } else {
        assert claims[cidr := instanceId] - listed.Keys == (claims - listed.Keys)[cidr := instanceId];
      }
    }
  }

  // ---------- Following the calls ----------

  lemma CalmNotRefused(w: Weather, n: nat)
    requires n >= 0
    ensures w.calm ==> !Refused(w, n)
  {
  }

  lemma CalmAdding(w: Weather, n: nat, there: bool, live: bool, hit: bool)
    requires w.calm
    ensures var e := Adding(w, n, there, live, hit, true);
            && !e.failed && !e.lookupFailed && e.found
            && ((live ==> !hit) ==> (e.added <==> !hit && !there))
  {
    CalmCreation(w, n, there);
    CalmCreation(w, n + 1, false);
  }

  lemma SweepBegins(w: Weather, n: nat, nodes: seq<Node>, routes: seq<Route>, owners: map<string, string>)
    ensures DeleteAll(w, n, nodes, routes[..0], owners) == Swept(0, owners)
  {
    assert routes[..0] == [];
  }

  lemma SweepStep(w: Weather, n: nat, nodes: seq<Node>, routes: seq<Route>, i: nat, owners: map<string, string>,
                  t: Table, t': Table, m: nat, m': nat, deleted: bool)
    requires i < |routes| && n <= m && routes[i].dest in t
    requires DeleteAll(w, n, nodes, routes[..i], owners) == Swept(m - n, Owners(t))
    requires t' == if deleted then t - {routes[i].dest} else t
    requires if Conflict(nodes, routes[i].dest, routes[i].instanceId)
             then deleted == Deletion(w, m, true).deleted && m' == m + Deletion(w, m, true).calls
             else !deleted && m' == m
    ensures m' >= n && DeleteAll(w, n, nodes, routes[..i + 1], owners) == Swept(m' - n, Owners(t'))
  {
    hide Conflict, Deletion, DeleteAll;
    DeleteOneMore(w, n, nodes, routes, i, owners);
    assert Owners(t - {routes[i].dest}) == Owners(t) - {routes[i].dest};
  }

  lemma ListsIsListing(routes: seq<Route>, t: Table)
    requires Lists(routes, t)
    ensures Listing(routes, Owners(t))
  {
  }

  lemma SweepEnds(w: Weather, n: nat, nodes: seq<Node>, routes: seq<Route>, t: Table, t': Table)
    requires Lists(routes, t)
    requires Owners(t') == DeleteAll(w, n, nodes, routes[..|routes|], Owners(t)).owners
    ensures routes[..|routes|] == routes
    ensures forall k :: 0 <= k < |routes| ==>
              var c := CallOf(w, n, nodes, routes, Owners(t), k);
              routes[k].dest !in t' <==>
                Conflict(nodes, routes[k].dest, routes[k].instanceId) && !Refused(w, c) && !Refused(w, c + 1)
  {
    hide Conflict, Refused, DeleteAll, Lists, Listing, CallOf;
    ListsIsListing(routes, t);
    forall k | 0 <= k < |routes|
      ensures var c := CallOf(w, n, nodes, routes, Owners(t), k);
              routes[k].dest !in t' <==>
                Conflict(nodes, routes[k].dest, routes[k].instanceId) && !Refused(w, c) && !Refused(w, c + 1)
    {
      OwnDeletionDecides(w, n, nodes, routes, Owners(t), |routes|, k);
    }
  }

  lemma FillStep(w: Weather, n: nat, nodes: seq<Node>, j: nat, routes: seq<Route>, owners: map<string, string>,
                 t: Table, t': Table, m: nat, m': nat, added: bool, marked: bool,
                 marks: seq<(string, bool)>, marks': seq<(string, bool)>)
    requires j < |nodes| && n <= m
    requires AddAll(w, n, nodes[..j], routes, owners) == Filled(m - n, Owners(t), marks)
    requires if added then Eligible(nodes[j]) && Adds(t, t', InstanceId(nodes[j]), PodText(nodes[j])) else t' == t
    requires if Eligible(nodes[j])
             then var e := EffortFor(w, m, nodes[j], routes, PodText(nodes[j]) in t);
                  marked == !e.failed && added == e.added && m' == m + e.calls
             else !marked && m' == m
    requires marks' == if marked then marks + [(nodes[j].name, true)] else marks
    ensures m' >= n && AddAll(w, n, nodes[..j + 1], routes, owners) == Filled(m' - n, Owners(t'), marks')
  {
    hide EffortFor, AddAll, Eligible, PodText, InstanceId;
    AddOneMore(w, n, nodes, j, routes, owners);
    if added {
      OwnersAfterAdds(t, t', InstanceId(nodes[j]), PodText(nodes[j]));
    }
  }

  lemma PassEndsUnder(w: Weather, n: nat, nodes: seq<Node>, routes: seq<Route>, t: Table, t': Table)
    requires Lists(routes, t)
    requires Owners(t') == PassUnder(w, n, nodes, routes, Owners(t)).owners
    ensures forall k :: 0 <= k < |routes| ==>
              var c := CallOf(w, n, nodes, routes, Owners(t), k);
              routes[k].dest !in t' <==>
                Conflict(nodes, routes[k].dest, routes[k].instanceId) && !Refused(w, c) && !Refused(w, c + 1)
  {
    hide Conflict, Refused, PassUnder, Lists, Listing, CallOf;
    ListsIsListing(routes, t);
    forall k | 0 <= k < |routes|
      ensures var c := CallOf(w, n, nodes, routes, Owners(t), k);
              routes[k].dest !in t' <==>
                Conflict(nodes, routes[k].dest, routes[k].instanceId) && !Refused(w, c) && !Refused(w, c + 1)
    {
      ListedSurvives(w, n, nodes, routes, Owners(t), k);
    }
  }

  lemma PassIs(w: Weather, n: nat, nodes: seq<Node>, routes: seq<Route>, owners: map<string, string>)
    ensures PassUnder(w, n, nodes, routes, owners) ==
            var d := DeleteAll(w, n, nodes, routes, owners);
            var a := AddAll(w, n + d.calls, nodes, routes, d.owners);
            Filled(d.calls + a.calls, a.owners, a.marks)
  {
    hide DeleteAll, AddAll;
  }

  class ReconcileRoute {
    const cloud: Cloud
    const api: ApiServer
    var nodeCache: map<string, Route>

    constructor (cloud: Cloud, api: ApiServer)
      ensures this.cloud == cloud && this.api == api && nodeCache == map[]
    {
      this.cloud, this.api, this.nodeCache := cloud, api, map[];
    }

    /** findRoute: in the cached list if there is one, else live. */
    method FindRoute(cidr: string, cached: seq<Route>) returns (failed: bool, route: Option<Route>)
      modifies cloud`calls
      ensures failed <==> cidr == "" || (cached == [] && Refused(cloud.weather, old(cloud.calls)))
      ensures cloud.calls == old(cloud.calls) + if cidr != "" && cached == [] then 1 else 0
      ensures cidr == "" ==> failed
      ensures cidr != "" && cached != [] ==> !failed && (route.Some? <==> Hit(cached, cidr))
      ensures cidr != "" && cached == [] && !failed ==>
                route == if cidr in cloud.table then Some(ToRoute(cloud.table[cidr])) else None
      ensures route.Some? ==> FoundIn(cached, cloud.table, cidr, route.value)
      ensures !failed && route == None ==> forall r :: !FoundIn(cached, cloud.table, cidr, r)
      ensures cloud.weather.calm && cidr != "" ==> !failed
    {
      if cidr == "" {
        return true, None;
      }
      if |cached| != 0 {
        for i := 0 to |cached|
          invariant forall j :: 0 <= j < i ==> cached[j].dest != cidr
        {
          if cached[i].dest == cidr {
            return false, Some(cached[i]);
          }
        }
        return false, None;
      }
      failed, route := cloud.FindRoute(cidr);
    }

    /** addRouteForNode: looks the destination up and creates the route if it is not found. A failed
        lookup is not an error, nor is a listing that is out of date noticed; but for these success means
        that the route exists. */
    method AddRouteForNode(cidr: string, node: Node, cached: seq<Route>) returns (failed: bool, ghost lookupFailed: bool)
      requires cloud.Valid() && cidr != ""
      modifies `nodeCache, cloud`table, cloud`nextId, cloud`log, cloud`calls, cloud`polls
      ensures cloud.Valid()
      ensures cloud.table == old(cloud.table) || Adds(old(cloud.table), cloud.table, InstanceId(node), cidr)
      ensures cloud.log == if cloud.table == old(cloud.table) then old(cloud.log)
                           else old(cloud.log) + [Created(cloud.table[cidr])]
      ensures InstanceId(node) == "" ==> failed && cloud.table == old(cloud.table) && nodeCache == old(nodeCache)
      ensures Hit(cached, cidr) && InstanceId(node) != "" ==> !failed && cloud.table == old(cloud.table)
      ensures lookupFailed ==>
                cached == [] && !failed && cloud.table == old(cloud.table) && nodeCache == old(nodeCache)
      ensures !failed ==>
                (cidr in cloud.table <==> cidr in old(cloud.table) || (!lookupFailed && !Hit(cached, cidr)))
      ensures cloud.weather.calm ==> !lookupFailed
      ensures cloud.weather.calm && InstanceId(node) != "" ==>
                && !failed
                && (if Hit(cached, cidr) || cidr in old(cloud.table) then cloud.table == old(cloud.table)
                    else Adds(old(cloud.table), cloud.table, InstanceId(node), cidr))
      ensures nodeCache == old(nodeCache) ||
              (node.name !in old(nodeCache) && node.name in nodeCache && nodeCache[node.name].dest == cidr &&
               nodeCache == old(nodeCache)[node.name := nodeCache[node.name]])
      ensures cloud.weather.calm && InstanceId(node) != "" ==> node.name in nodeCache
      ensures InstanceId(node) != "" ==>
                AddOutcome(old(cloud.table), cloud.table, old(nodeCache), nodeCache, node.name, InstanceId(node), cidr, cached, failed)
      ensures var e := Adding(cloud.weather, old(cloud.calls), cidr in old(cloud.table), cached == [], Hit(cached, cidr), InstanceId(node) != "");
              && failed == e.failed && lookupFailed == e.lookupFailed && cloud.calls == old(cloud.calls) + e.calls
              && (if e.added then Adds(old(cloud.table), cloud.table, InstanceId(node), cidr) else cloud.table == old(cloud.table))
              && (node.name in nodeCache <==> node.name in old(nodeCache) || e.found)
      ensures InstanceId(node) != "" ==>
                && (lookupFailed <==> cached == [] && Refused(cloud.weather, old(cloud.calls)))
                && (!failed ==> Hit(cached, cidr) || lookupFailed || cidr in cloud.table)
    {
      hide InstanceId, Creation, Refused;
      AddingMeaning(cloud.weather, cloud.calls, cidr in cloud.table, cached == [], Hit(cached, cidr));
      lookupFailed := false;
      var instanceId := InstanceId(node);
      if |instanceId| == 0 {
        return true, false;
      }
      failed := false;
      var findFailed, route := FindRoute(cidr, cached);
      if findFailed {
        return false, true;
      }
      if route == None || route.value.dest != cidr {
        ghost var replies;
        failed, route, replies := cloud.CreateRouteForInstance(instanceId, cidr);
      }
      if route.Some? && node.name !in nodeCache {
        nodeCache := nodeCache[node.name := route.value];
      }
    }

    /** One iteration of the first loop of syncRoutes; an error is only logged. */
    method DeleteIfConflicting(route: Route, nodes: seq<Node>) returns (ghost deleted: bool)
      requires cloud.Valid() && route.dest in cloud.table && route == ToRoute(cloud.table[route.dest])
      modifies cloud`table, cloud`log, cloud`calls
      ensures cloud.Valid()
      ensures cloud.table == if deleted then old(cloud.table) - {route.dest} else old(cloud.table)
      ensures cloud.log == if deleted then old(cloud.log) + [Deleted(old(cloud.table)[route.dest])] else old(cloud.log)
      ensures deleted ==> Conflict(nodes, route.dest, route.instanceId)
      ensures cloud.weather.calm && Conflict(nodes, route.dest, route.instanceId) ==> deleted
      ensures if Conflict(nodes, route.dest, route.instanceId)
              then var r := Deletion(cloud.weather, old(cloud.calls), true);
                   deleted == r.deleted && cloud.calls == old(cloud.calls) + r.calls
              else !deleted && cloud.calls == old(cloud.calls)
    {
      hide Conflict;
      deleted := false;
      var conflict := ConflictWithNodes(route.dest, route.instanceId, nodes);
      if conflict {
        var failed := cloud.DeleteRouteForInstance(route.dest);
        deleted := cloud.table != old(cloud.table);
      }
    }

    /** The first loop of syncRoutes: deletes the listed routes that conflict. */
    method DeleteConflicts(routes: seq<Route>, nodes: seq<Node>) returns (ghost ws: seq<Write>)
      requires cloud.Valid() && Lists(routes, cloud.table)
      modifies cloud`table, cloud`log, cloud`calls
      ensures cloud.Valid()
      ensures cloud.log == old(cloud.log) + ws
      ensures AllLegal(nodes, old(cloud.table), ws) && Replay(old(cloud.table), ws) == cloud.table
      ensures Becomes(Config(Interleaving.SyncDeleting(nodes, routes, 0), old(cloud.table), nodeCache),
                      Config(Interleaving.SyncDeleting(nodes, routes, |routes|), cloud.table, nodeCache))
      ensures cloud.weather.calm ==> Owners(cloud.table) == Kept(nodes, Owners(old(cloud.table)))
      ensures var d := DeleteAll(cloud.weather, old(cloud.calls), nodes, routes, Owners(old(cloud.table)));
              Owners(cloud.table) == d.owners && cloud.calls == old(cloud.calls) + d.calls
      ensures forall k :: 0 <= k < |routes| ==>
                var c := CallOf(cloud.weather, old(cloud.calls), nodes, routes, Owners(old(cloud.table)), k);
                routes[k].dest !in cloud.table <==>
                  Conflict(nodes, routes[k].dest, routes[k].instanceId) && !Refused(cloud.weather, c) && !Refused(cloud.weather, c + 1)
    {
      hide *;
      ghost var t, n := cloud.table, cloud.calls;
      ghost var owners := Owners(t);
      SweepBegins(cloud.weather, n, nodes, routes, owners);
      ws := [];
      PassBegins(nodes, t, map[], t, nodeCache);
      DeletingBegins(nodes, routes, t, cloud.weather.calm);
      ghost var c := Config(Interleaving.SyncDeleting(nodes, routes, 0), t, nodeCache);
      BecomesItself(c);
      for i := 0 to |routes|
        invariant cloud.Valid()
        invariant cloud.log == old(cloud.log) + ws
        invariant AllLegal(nodes, t, ws) && Replay(t, ws) == cloud.table
        invariant Deleting(nodes, routes, t, cloud.table, i, cloud.weather.calm)
        invariant Becomes(c, Config(Interleaving.SyncDeleting(nodes, routes, i), cloud.table, nodeCache))
        invariant cloud.calls >= n
        invariant DeleteAll(cloud.weather, n, nodes, routes[..i], owners) == Swept(cloud.calls - n, Owners(cloud.table))
      {
        ghost var before, m := cloud.table, cloud.calls;
        DeletingAt(nodes, routes, t, before, i, cloud.weather.calm);
        var deleted := DeleteIfConflicting(routes[i], nodes);
        DeletingStep(nodes, routes, t, ws, before, cloud.table, i, cloud.weather.calm, deleted);
        ws := if deleted then ws + [Deleted(before[routes[i].dest])] else ws;
        SweepStep(cloud.weather, n, nodes, routes, i, owners, before, cloud.table, m, cloud.calls, deleted);
        DeletionBecomes(nodes, routes, i, before, cloud.table, nodeCache, deleted);
        BecomesThen(c, Config(Interleaving.SyncDeleting(nodes, routes, i), before, nodeCache),
                    Config(Interleaving.SyncDeleting(nodes, routes, i + 1), cloud.table, nodeCache));
      }
      if cloud.weather.calm {
        DeletingEnds(nodes, routes, t, cloud.table);
      }
      SweepEnds(cloud.weather, n, nodes, routes, t, cloud.table);
    }

    /** One iteration of the second loop of syncRoutes: adds the node's route if the listing made
        before the deletions lacks it, and marks the node. A node is marked only if its destination was
        in the listing or is in the table, unless the listing was empty and the live lookup failed. */
    method AddMissing(node: Node, routes: seq<Route>) returns (ghost added: bool, ghost marked: bool)
      requires cloud.Valid()
      modifies `nodeCache, cloud`table, cloud`nextId, cloud`log, cloud`calls, cloud`polls, api`nodes, api`clock, api`calls, api`requests
      ensures cloud.Valid()
      ensures if added then Eligible(node) && Adds(old(cloud.table), cloud.table, InstanceId(node), PodText(node))
              else cloud.table == old(cloud.table)
      ensures added ==> PodText(node) in cloud.table
      ensures cloud.log == old(cloud.log) + Addition(node, cloud.table, added)
      ensures nodeCache == old(nodeCache) ||
              (node.name !in old(nodeCache) && node.name in nodeCache && CacheFits(node, node.name, nodeCache[node.name]) &&
               nodeCache == old(nodeCache)[node.name := nodeCache[node.name]])
      ensures api.requests == old(api.requests) + if marked then [(node.name, true)] else []
      ensures if Eligible(node)
              then AddOutcome(old(cloud.table), cloud.table, old(nodeCache), nodeCache, node.name, InstanceId(node), PodText(node), routes, !marked)
              else cloud.table == old(cloud.table) && nodeCache == old(nodeCache)
      ensures marked ==> Eligible(node)
      ensures Eligible(node) && Hit(routes, PodText(node)) ==> marked
      ensures marked && routes != [] && !Hit(routes, PodText(node)) ==> PodText(node) in cloud.table
      ensures cloud.weather.calm ==>
                && (added <==> Eligible(node) && !Hit(routes, PodText(node)) && PodText(node) !in old(cloud.table))
                && (marked <==> Eligible(node))
      ensures if Eligible(node)
              then var e := EffortFor(cloud.weather, old(cloud.calls), node, routes, PodText(node) in old(cloud.table));
                   marked == !e.failed && added == e.added && cloud.calls == old(cloud.calls) + e.calls
              else cloud.calls == old(cloud.calls)
      ensures if marked then Updated(api.weather, old(api.calls), api.calls, old(api.nodes), api.nodes, node, true)
              else api.calls == old(api.calls) && api.nodes == old(api.nodes)
    {
      hide PodText, InstanceId, NeedsSync, PodRouteOf, Adding, AddOutcome, Updated, Refused;
      NoInstance(cloud.weather, cloud.calls, PodText(node) in cloud.table, routes == [], Hit(routes, PodText(node)));
      if cloud.weather.calm && InstanceId(node) != "" {
        CalmAdding(cloud.weather, cloud.calls, PodText(node) in cloud.table, routes == [], Hit(routes, PodText(node)));
      }
      added, marked := false, false;
      var need := NeedSyncRoute(node);
      if !need {
        return;
      }
      var pod := GetIPv4RouteForNode(node);
      if !pod.Found? {
        return;
      }
      var failed, _ := AddRouteForNode(PodText(node), node, routes);
      added := cloud.table != old(cloud.table);
      if failed {
        return;
      }
      marked := true;
      var _, _, _ := api.UpdateNetworkingCondition(node, true);
    }

    /** syncRoutes: lists, deletes the listed routes that conflict, and adds what the listing lacks. */
    method SyncRoutes(nodes: seq<Node>) returns (failed: bool, ghost ws: seq<Write>, ghost listed: seq<Route>)
      requires cloud.Valid()
      modifies `nodeCache, cloud`table, cloud`nextId, cloud`log, cloud`calls, cloud`polls, api`nodes, api`clock, api`calls, api`requests
      ensures cloud.Valid()
      ensures cloud.log == old(cloud.log) + ws
      ensures AllLegal(nodes, old(cloud.table), ws) && Replay(old(cloud.table), ws) == cloud.table
      ensures CacheGrows(old(nodeCache), nodeCache, nodes)
      ensures failed ==> ws == [] && cloud.table == old(cloud.table) && nodeCache == old(nodeCache)
      ensures Becomes(Config(Interleaving.SyncListing(nodes), old(cloud.table), old(nodeCache)),
                      Config(Interleaving.SyncIdle, cloud.table, nodeCache))
      ensures failed == Refused(cloud.weather, old(cloud.calls))
      ensures failed ==> cloud.calls == old(cloud.calls) + 1 && api.requests == old(api.requests)
      ensures !failed ==>
                && Lists(listed, old(cloud.table))
                && var p := PassUnder(cloud.weather, old(cloud.calls) + 1, nodes, listed, Owners(old(cloud.table)));
                   Owners(cloud.table) == p.owners && api.requests == old(api.requests) + p.marks &&
                   cloud.calls == old(cloud.calls) + 1 + p.calls
      ensures !failed ==> forall k :: 0 <= k < |listed| ==>
                var c := CallOf(cloud.weather, old(cloud.calls) + 1, nodes, listed, Owners(old(cloud.table)), k);
                listed[k].dest !in cloud.table <==>
                  Conflict(nodes, listed[k].dest, listed[k].instanceId) && !Refused(cloud.weather, c) && !Refused(cloud.weather, c + 1)
      ensures cloud.weather.calm ==>
                && !failed
                && Owners(cloud.table) == OnePass(nodes, Owners(old(cloud.table)))
                && api.requests == old(api.requests) + Marks(nodes)
    {
      hide *;
      ghost var t, n := cloud.table, cloud.calls + 1;
      PassBegins(nodes, t, map[], t, nodeCache);
      ws := [];
      var routes;
      failed, routes := cloud.ListRoutes();
      listed := routes;
      CalmNotRefused(cloud.weather, cloud.calls - 1);
      if failed {
        ListingFails(nodes, t, nodeCache);
        return;
      }
      ListingLists(routes, t);
      ws := DeleteConflicts(routes, nodes);
      ghost var deletions, between, cache := ws, cloud.table, nodeCache;
      ws := AddAllMissing(nodes, routes, t);
      WholePass(nodes, routes, t, between, cloud.table, cache, nodeCache);
      LegalConcat(nodes, t, deletions, ws);
      ws := deletions + ws;
      PassIs(cloud.weather, n, nodes, routes, Owners(t));
      PassEndsUnder(cloud.weather, n, nodes, routes, t, cloud.table);
    }

    /** The second loop of syncRoutes. */
    method AddAllMissing(nodes: seq<Node>, routes: seq<Route>, ghost listed: Table) returns (ghost ws: seq<Write>)
      requires cloud.Valid() && Lists(routes, listed)
      requires cloud.weather.calm ==> Owners(cloud.table) == Kept(nodes, Owners(listed))
      modifies `nodeCache, cloud`table, cloud`nextId, cloud`log, cloud`calls, cloud`polls, api`nodes, api`clock, api`calls, api`requests
      ensures cloud.Valid()
      ensures cloud.log == old(cloud.log) + ws
      ensures AllLegal(nodes, old(cloud.table), ws) && Replay(old(cloud.table), ws) == cloud.table
      ensures CacheGrows(old(nodeCache), nodeCache, nodes)
      ensures Becomes(Config(Interleaving.SyncAdding(nodes, routes, 0), old(cloud.table), old(nodeCache)),
                      Config(Interleaving.SyncAdding(nodes, routes, |nodes|), cloud.table, nodeCache))
      ensures var a := AddAll(cloud.weather, old(cloud.calls), nodes, routes, Owners(old(cloud.table)));
              Owners(cloud.table) == a.owners && api.requests == old(api.requests) + a.marks &&
              cloud.calls == old(cloud.calls) + a.calls
      ensures cloud.weather.calm ==>
                && Owners(cloud.table) == OnePass(nodes, Owners(listed))
                && api.requests == old(api.requests) + Marks(nodes)
    {
      hide *;
      ghost var t, kept, n, owners := cloud.table, Kept(nodes, Owners(listed)), cloud.calls, Owners(cloud.table);
      ghost var marks: seq<(string, bool)> := [];
      AddNone(cloud.weather, n, routes, owners);
      ws := [];
      assert nodes[..0] == [];
      PassBegins(nodes, t, kept, listed, nodeCache);
      ghost var c := Config(Interleaving.SyncAdding(nodes, routes, 0), t, nodeCache);
      BecomesItself(c);
      for j := 0 to |nodes|
        invariant cloud.Valid()
        invariant cloud.log == old(cloud.log) + ws
        invariant AllLegal(nodes, t, ws) && Replay(t, ws) == cloud.table
        invariant CacheGrows(old(nodeCache), nodeCache, nodes)
        invariant Becomes(c, Config(Interleaving.SyncAdding(nodes, routes, j), cloud.table, nodeCache))
        invariant cloud.calls >= n && api.requests == old(api.requests) + marks
        invariant AddAll(cloud.weather, n, nodes[..j], routes, owners) == Filled(cloud.calls - n, Owners(cloud.table), marks)
        invariant cloud.weather.calm ==>
                    && Owners(cloud.table) == kept + (Claims(nodes[..j]) - listed.Keys)
                    && api.requests == old(api.requests) + Marks(nodes[..j])
      {
        ghost var before, cache, m, earlier := cloud.table, nodeCache, cloud.calls, marks;
        var added, marked := AddMissing(nodes[j], routes);
        marks := if marked then marks + [(nodes[j].name, true)] else marks;
        FillStep(cloud.weather, n, nodes, j, routes, owners, before, cloud.table, m, cloud.calls, added, marked, earlier, marks);
        LegalAddition(nodes, j, t, ws, before, cloud.table, added);
        ws := ws + Addition(nodes[j], cloud.table, added);
        assert nodes[..j + 1] == nodes[..j] + [nodes[j]];
        CacheStep(old(nodeCache), cache, nodeCache, nodes, j);
        AdditionBecomes(nodes, routes, j, before, cloud.table, cache, nodeCache, !marked);
        BecomesThen(c, Config(Interleaving.SyncAdding(nodes, routes, j), before, cache),
                    Config(Interleaving.SyncAdding(nodes, routes, j + 1), cloud.table, nodeCache));
        if cloud.weather.calm {
          ClaimStep(nodes[..j], nodes[j], routes, listed, kept, before, cloud.table, added);
          MarksOneMore(nodes[..j], nodes[j]);
        }
      }
      assert nodes[..|nodes|] == nodes;
      OnePassIs(nodes, listed);
    }

    /** NodeList: the nodes without an exclude label. */
    method NodeList() returns (failed: bool, nodes: seq<Node>)
      modifies api`calls
      ensures failed == GetFails(api.weather, old(api.calls)) && api.calls == old(api.calls) + 1
      ensures api.weather.calm ==> !failed
      ensures !failed ==> forall n :: n in nodes <==> n in api.nodes.Values && !HasExcludeLabel(n.labels)
    {
      var items;
      failed, items := api.List();
      nodes := [];
      if failed {
        return;
      }
      for i := 0 to |items|
        invariant forall n :: n in nodes <==> n in items[..i] && !HasExcludeLabel(n.labels)
      {
        if HasExcludeLabel(items[i].labels) {
          continue;
        }
        nodes := nodes + [items[i]];
      }
    }

    /** reconcileForCluster: one pass over the nodes listed now. */
    method ReconcileForCluster() returns (ghost nodes: seq<Node>, ghost ws: seq<Write>, ghost listed: seq<Route>)
      requires cloud.Valid()
      modifies `nodeCache, cloud`table, cloud`nextId, cloud`log, cloud`calls, cloud`polls, api`nodes, api`clock, api`calls, api`requests
      ensures cloud.Valid() && cloud.log == old(cloud.log) + ws
      ensures forall n :: n in nodes ==> n in old(api.nodes.Values) && !HasExcludeLabel(n.labels)
      ensures AllLegal(nodes, old(cloud.table), ws) && Replay(old(cloud.table), ws) == cloud.table
      ensures CacheGrows(old(nodeCache), nodeCache, nodes)
      ensures cloud.weather.calm && api.weather.calm ==>
                && (forall n :: n in old(api.nodes.Values) && !HasExcludeLabel(n.labels) ==> n in nodes)
                && Owners(cloud.table) == OnePass(nodes, Owners(old(cloud.table)))
      ensures if GetFails(api.weather, old(api.calls))
              then nodes == [] && cloud.table == old(cloud.table) && cloud.calls == old(cloud.calls) && api.requests == old(api.requests)
              else forall n :: n in old(api.nodes.Values) && !HasExcludeLabel(n.labels) ==> n in nodes
      ensures !GetFails(api.weather, old(api.calls)) ==>
                if Refused(cloud.weather, old(cloud.calls)) then cloud.table == old(cloud.table) && api.requests == old(api.requests)
                else
                  && Lists(listed, old(cloud.table))
                  && var p := PassUnder(cloud.weather, old(cloud.calls) + 1, nodes, listed, Owners(old(cloud.table)));
                     Owners(cloud.table) == p.owners && api.requests == old(api.requests) + p.marks
      ensures ClusterLeads(old(api.nodes), old(cloud.table), cloud.table, old(nodeCache), nodeCache)
    {
      hide *;
      PassBegins([], cloud.table, map[], cloud.table, nodeCache);
      var failed, items := NodeList();
      if failed {
        NoPass(api.nodes, cloud.table, nodeCache);
        return [], [], [];
      }
      nodes := items;
      var syncFailed;
      ghost var stored, t, cache := api.nodes, cloud.table, nodeCache;
      syncFailed, ws, listed := SyncRoutes(items);
      PassFromIdle(items, stored, t, cloud.table, cache, nodeCache);
    }

    // ---------- The per-node step ----------

    /** syncCloudRoute: one node, with a live lookup; the node is marked once, as routed if no error is
        reported for the route. */
    method SyncCloudRoute(node: Node) returns (failed: bool, ghost routed: bool, ghost lookupFailed: bool)
      requires cloud.Valid()
      modifies `nodeCache, cloud`table, cloud`nextId, cloud`log, cloud`calls, cloud`polls, api`nodes, api`clock, api`calls, api`requests
      ensures cloud.Valid()
      ensures cloud.table == old(cloud.table) ||
              (Eligible(node) && Adds(old(cloud.table), cloud.table, InstanceId(node), PodText(node)))
      ensures cloud.log == if cloud.table == old(cloud.table) then old(cloud.log)
                           else old(cloud.log) + [Created(cloud.table[PodText(node)])]
      ensures CacheGrows(old(nodeCache), nodeCache, [node])
      ensures if Eligible(node)
              then AddOutcome(old(cloud.table), cloud.table, old(nodeCache), nodeCache, node.name, InstanceId(node), PodText(node), [], !routed)
              else cloud.table == old(cloud.table) && nodeCache == old(nodeCache)
      ensures routed ==> Eligible(node) && (PodText(node) in cloud.table <==> PodText(node) in old(cloud.table) || !lookupFailed)
      ensures api.requests == old(api.requests) + if NeedsSync(node) then [(node.name, routed)] else []
      ensures Eligible(node) ==> api.requests == old(api.requests) + [(node.name, routed)]
      ensures Eligible(node) && !routed ==> failed
      ensures cloud.weather.calm && Eligible(node) ==>
                PodText(node) in cloud.table && node.name in nodeCache
      ensures !NeedsSync(node) ==> !failed && api.requests == old(api.requests)
      ensures NeedsSync(node) && PodText(node) == "" ==> (failed <==> PodRouteOf(node).BadCIDR?)
      ensures NeedsSync(node) && PodText(node) != "" && InstanceId(node) == "" ==> failed
      ensures cloud.weather.calm && Eligible(node) ==> routed && !lookupFailed
      ensures Eligible(node) ==>
                var e := EffortFor(cloud.weather, old(cloud.calls), node, [], PodText(node) in old(cloud.table));
                && routed == !e.failed && lookupFailed == e.lookupFailed && cloud.calls == old(cloud.calls) + e.calls
                && (lookupFailed <==> Refused(cloud.weather, old(cloud.calls)))
                && (routed ==> PodText(node) in cloud.table || lookupFailed)
                && (PodText(node) in cloud.table <==> PodText(node) in old(cloud.table) || e.added)
      ensures !Eligible(node) ==> cloud.calls == old(cloud.calls)
      ensures if NeedsSync(node) then Updated(api.weather, old(api.calls), api.calls, old(api.nodes), api.nodes, node, routed)
              else api.calls == old(api.calls) && api.nodes == old(api.nodes)
      ensures routed ==>
                failed == (!AlreadySet(node.conditions, true) && UpdateFails(api.weather, old(api.calls), node.name in old(api.nodes)))
      ensures api.weather.calm && routed && node.name in old(api.nodes) ==> !failed
    {
      hide PodText, InstanceId, NeedsSync, PodRouteOf, Adding, AddOutcome, Updated, Refused, AlreadySet, UpdateFails;
      NoInstance(cloud.weather, cloud.calls, PodText(node) in cloud.table, true, false);
      if cloud.weather.calm && InstanceId(node) != "" {
        CalmAdding(cloud.weather, cloud.calls, PodText(node) in cloud.table, true, false);
      }
      routed, lookupFailed := false, false;
      var need := NeedSyncRoute(node);
      if !need {
        return false, false, false;
      }
      var pod := GetIPv4RouteForNode(node);
      if !pod.Found? {
        var _, _, _ := api.UpdateNetworkingCondition(node, false);
        return pod.BadCIDR?, false, false;
      }
      ghost var cache := nodeCache;
      failed, lookupFailed := AddRouteForNode(PodText(node), node, []);
      routed := !failed;
      CacheStep(cache, cache, nodeCache, [node], 0);
      if failed {
        var _, _, _ := api.UpdateNetworkingCondition(node, false);
      } else {
        ghost var at, results;
        failed, at, results := api.UpdateNetworkingCondition(node, true);
      }
    }

    /** Reconcile. For a node that is gone it deletes the cached destination and drops the cache entry,
        or, if the deletion failed, keeps the entry and asks to be called again. For a node that
        exists it never reports an error. */
    method Reconcile(name: string) returns (failed: bool)
      requires cloud.Valid()
      modifies `nodeCache, cloud`table, cloud`nextId, cloud`log, cloud`calls, cloud`polls, api`nodes, api`clock, api`calls, api`requests
      ensures cloud.Valid()
      ensures name !in old(api.nodes) && name in old(nodeCache) ==>
                && DeleteOutcome(old(cloud.table), cloud.table, old(nodeCache)[name].dest, failed)
                && nodeCache == (if failed then old(nodeCache) else old(nodeCache) - {name})
                && (!failed ==> old(nodeCache)[name].dest !in cloud.table)
      ensures name !in old(api.nodes) && name !in old(nodeCache) ==>
                cloud.table == old(cloud.table) && nodeCache == old(nodeCache)
      ensures name in old(api.nodes) ==>
                var node := old(api.nodes)[name];
                && (cloud.table == old(cloud.table) ||
                    (Eligible(node) && Adds(old(cloud.table), cloud.table, InstanceId(node), PodText(node))))
                && CacheGrows(old(nodeCache), nodeCache, [node])
                && (cloud.weather.calm && api.weather.calm && Eligible(node) ==>
                      && PodText(node) in cloud.table && node.name in nodeCache
                      && api.requests == old(api.requests) + [(node.name, true)])
      ensures name in old(api.nodes) && failed ==> cloud.table == old(cloud.table) && nodeCache == old(nodeCache)
      ensures cloud.weather.calm && api.weather.calm ==> !failed
      ensures GetFails(api.weather, old(api.calls)) ==>
                && failed && cloud.table == old(cloud.table) && cloud.calls == old(cloud.calls)
                && nodeCache == old(nodeCache) && api.nodes == old(api.nodes) && api.requests == old(api.requests)
      ensures !GetFails(api.weather, old(api.calls)) && name !in old(api.nodes) && name in old(nodeCache) ==>
                var dest := old(nodeCache)[name].dest;
                var r := Deletion(cloud.weather, old(cloud.calls), dest in old(cloud.table));
                && failed == r.failed && cloud.calls == old(cloud.calls) + r.calls
                && cloud.table == (if r.deleted then old(cloud.table) - {dest} else old(cloud.table))
      ensures !GetFails(api.weather, old(api.calls)) && name !in old(api.nodes) && name !in old(nodeCache) ==>
                !failed && cloud.calls == old(cloud.calls)
      ensures !GetFails(api.weather, old(api.calls)) && name in old(api.nodes) ==>
                var node := old(api.nodes)[name];
                && !failed
                && (Eligible(node) ==>
                      var e := EffortFor(cloud.weather, old(cloud.calls), node, [], PodText(node) in old(cloud.table));
                      && api.requests == old(api.requests) + [(node.name, !e.failed)]
                      && cloud.calls == old(cloud.calls) + e.calls
                      && (PodText(node) in cloud.table <==> PodText(node) in old(cloud.table) || e.added))
                && (NeedsSync(node) ==>
                      var routed := Eligible(node) &&
                        !EffortFor(cloud.weather, old(cloud.calls), node, [], PodText(node) in old(cloud.table)).failed;
                      Updated(api.weather, old(api.calls) + 1, api.calls, old(api.nodes), api.nodes, node, routed))
      ensures ReconcileLeads(old(api.nodes), old(cloud.table), cloud.table, old(nodeCache), nodeCache)
    {
      hide Eligible, PodText, InstanceId, NeedsSync, Interleaving.Step, Leads, ReconcileLeads, AddOutcome, EffortFor,
           Updated, Deletion, UpdateFails, AlreadySet;
      ghost var stored, t, cache := api.nodes, cloud.table, nodeCache;
      var getFailed, found := api.Get(name);
      if getFailed {
        failed := true;
        ReconcileNothing(stored, t, cache);
        if name !in api.nodes && name in nodeCache {
          assert DeleteOutcome(cloud.table, cloud.table, nodeCache[name].dest, true);
        }
        return;
      }
      if found == None {
        if name in nodeCache {
          failed := cloud.DeleteRouteForInstance(nodeCache[name].dest);
          ReconcileRemoves(stored, name, t, cloud.table, cache, failed);
          if !failed {
            nodeCache := nodeCache - {name};
          }
          return;
        }
        ReconcileNothing(stored, t, cache);
        return false;
      }
      var _, routed, _ := SyncCloudRoute(found.value);
      ReconcileAdds(stored, name, t, cloud.table, cache, nodeCache, !routed);
      return false;
    }
  }
}
