/** The route table in the cloud and what one operation, or one pass, does to it. */
module Routes {
  import opened Wrappers
  import opened Nodes
  import opened Conflicts

  /** The default route, which the listing hides. */
  const DEFAULT_DEST := "0.0.0.0/0"

  /** A route as the cloud keeps it; its next hops are gateway ids. */
  datatype CloudRoute = CloudRoute(id: nat, dest: string, hops: seq<string>)

  /** A route as the controller sees it (pkg/model/route.go). */
  datatype Route = Route(dest: string, instanceId: string, routeId: nat)

  /** The table holds one route per destination. */
  type Table = map<string, CloudRoute>

  function Owner(r: CloudRoute): string {
    if |r.hops| != 0 then r.hops[0] else ""
  }

  function ToRoute(r: CloudRoute): Route {
    Route(r.dest, Owner(r), r.id)
  }

  /** The instance that each destination is routed to. */
  function Owners(t: Table): (owners: map<string, string>)
    ensures owners.Keys == t.Keys
  {
    map d | d in t :: Owner(t[d])
  }

  ghost predicate WellKeyed(t: Table) {
    && (forall d :: d in t ==> t[d].dest == d)
    && (forall d, e :: d in t && e in t && t[d].id == t[e].id ==> d == e)
  }

  lemma OwnersAfterAdds(t: Table, t': Table, instanceId: string, cidr: string)
    requires Adds(t, t', instanceId, cidr)
    ensures Owners(t') == Owners(t)[cidr := instanceId]
  {
  }

  // ---------- Outcomes of the operations under faults ----------

  /** A route from cidr to the instance has been added, and nothing else changed. */
  ghost predicate Adds(t: Table, t': Table, instanceId: string, cidr: string) {
    && cidr !in t
    && cidr in t'
    && t'[cidr].dest == cidr
    && t'[cidr].hops == [instanceId]
    && t' == t[cidr := t'[cidr]]
  }

  /** Deleting the route at cidr: without an error it is gone; with one it may be. */
  ghost predicate DeleteOutcome(t: Table, t': Table, cidr: string, failed: bool) {
    && (t' == t || t' == t - {cidr})
    && (!failed ==> t' == t - {cidr})
  }

  /** Creating a route with retries: at most one route is added, an error leaves the table as it was
      or with only that route added, and without an error there is a route at cidr. */
  ghost predicate CreateOutcome(t: Table, t': Table, instanceId: string, cidr: string, failed: bool, route: Option<Route>) {
    && (t' == t || Adds(t, t', instanceId, cidr))
    && (!failed ==> cidr in t')
    && (route.Some? ==> !failed && cidr in t' && route.value == ToRoute(t'[cidr]))
  }

  /** A route list contains a route to cidr. */
  predicate Hit(cached: seq<Route>, cidr: string) {
    exists i :: 0 <= i < |cached| && cached[i].dest == cidr
  }

  /** The listing holds the visible routes of the table. */
  ghost predicate Lists(routes: seq<Route>, t: Table) {
    && (forall i :: 0 <= i < |routes| ==>
          routes[i].dest in t && routes[i].dest != DEFAULT_DEST && routes[i] == ToRoute(t[routes[i].dest]))
    && (forall i, j :: 0 <= i < j < |routes| ==> routes[i].dest != routes[j].dest)
    && (forall d :: d in t && d != DEFAULT_DEST ==> Hit(routes, d))
  }

  function SetIfAbsent(cache: map<string, Route>, name: string, route: Route): map<string, Route> {
    if name in cache then cache else cache[name := route]
  }

  /** What looking cidr up may find: in the listing, or live if the listing is empty. */
  ghost predicate FoundIn(listed: seq<Route>, t: Table, cidr: string, r: Route) {
    if listed != [] then r in listed && r.dest == cidr else cidr in t && r == ToRoute(t[cidr])
  }

  function AfterCreate(cache: map<string, Route>, name: string, route: Option<Route>): map<string, Route> {
    match route
    case None => cache
    case Some(r) => SetIfAbsent(cache, name, r)
  }

  /** Adding a node's route, and its cache entry: a live lookup fails, nothing happens and no error is
      reported; or the route is found, and cached; or it is not found, and is created with CreateOutcome,
      whose error is the one reported, and cached. */
  ghost predicate AddOutcome(t: Table, t': Table, cache: map<string, Route>, cache': map<string, Route>,
                             name: string, instanceId: string, cidr: string, listed: seq<Route>, failed: bool) {
    || (!failed && listed == [] && t' == t && cache' == cache)
    || (!failed && t' == t && exists r :: FoundIn(listed, t, cidr, r) && cache' == SetIfAbsent(cache, name, r))
    || ((forall r :: !FoundIn(listed, t, cidr, r)) &&
        exists route ::
          CreateOutcome(t, t', instanceId, cidr, failed, route) && cache' == AfterCreate(cache, name, route))
  }

  /** Adding reports no error, and the route is not there. */
  ghost predicate AddedInVain(t: Table, name: string, instanceId: string, cidr: string, listed: seq<Route>) {
    exists t', cache, cache' ::
      AddOutcome(t, t', cache, cache', name, instanceId, cidr, listed, false) && cidr !in t'
  }

  /** Exactly when no error may be reported without there being a route: it is missing beforehand, and the
      listing is empty, so that a live lookup may fail, or has the destination although the table does not. */
  lemma NilErrorWithoutRoute(t: Table, name: string, instanceId: string, cidr: string, listed: seq<Route>)
    ensures AddedInVain(t, name, instanceId, cidr, listed) <==> cidr !in t && (listed == [] || Hit(listed, cidr))
  {
    if cidr !in t && listed == [] {
      assert AddOutcome(t, t, map[], map[], name, instanceId, cidr, listed, false);
    } else if cidr !in t && Hit(listed, cidr) {
      var i :| 0 <= i < |listed| && listed[i].dest == cidr;
      assert FoundIn(listed, t, cidr, listed[i]);
      assert AddOutcome(t, t, map[], SetIfAbsent(map[], name, listed[i]), name, instanceId, cidr, listed, false);
    }
  }

  // ---------- Writes ----------

  /** A change to the table that took effect. */
  datatype Write = Deleted(route: CloudRoute) | Created(route: CloudRoute)

  function Apply(t: Table, w: Write): Table {
    match w
    case Deleted(r) => t - {r.dest}
    case Created(r) => t[r.dest := r]
  }

  /** The table after the writes, oldest first. */
  function Replay(t: Table, ws: seq<Write>): Table {
    if ws == [] then t else Apply(Replay(t, ws[..|ws| - 1]), ws[|ws| - 1])
  }

  /** What a pass over these nodes may write: it deletes a visible conflicting route, and creates a
      missing route from an eligible node's pod CIDR to that node's instance. */
  ghost predicate Legal(nodes: seq<Node>, t: Table, w: Write) {
    match w
    case Deleted(r) =>
      r.dest in t && t[r.dest] == r && r.dest != DEFAULT_DEST && Conflict(nodes, r.dest, Owner(r))
    case Created(r) =>
      r.dest !in t && exists i :: 0 <= i < |nodes| && Wants(nodes[i], r)
  }

  predicate Wants(node: Node, r: CloudRoute) {
    Eligible(node) && r.dest == PodText(node) && r.hops == [InstanceId(node)]
  }

  ghost predicate AllLegal(nodes: seq<Node>, t: Table, ws: seq<Write>) {
    ws == [] ||
    var init := ws[..|ws| - 1];
    AllLegal(nodes, t, init) && Legal(nodes, Replay(t, init), ws[|ws| - 1])
  }

  lemma LegalOneMore(nodes: seq<Node>, t: Table, ws: seq<Write>, w: Write)
    requires AllLegal(nodes, t, ws) && Legal(nodes, Replay(t, ws), w)
    ensures AllLegal(nodes, t, ws + [w]) && Replay(t, ws + [w]) == Apply(Replay(t, ws), w)
  {
    hide Legal;
    assert (ws + [w])[..|ws|] == ws;
  }

  /** Writes from one pass followed by those of the next. */
  lemma {:induction false} LegalConcat(nodes: seq<Node>, t: Table, ws: seq<Write>, ws': seq<Write>)
    requires AllLegal(nodes, t, ws) && AllLegal(nodes, Replay(t, ws), ws')
    ensures AllLegal(nodes, t, ws + ws') && Replay(t, ws + ws') == Replay(Replay(t, ws), ws')
  {
    hide Legal;
    if ws' == [] {
      assert ws + ws' == ws;
    } else {
      var init := ws'[..|ws'| - 1];
      LegalConcat(nodes, t, ws, init);
      assert (ws + ws')[..|ws + ws'| - 1] == ws + init;
    }
  }

  // ---------- One pass without faults ----------

  /** The routes the eligible nodes ask for; the first of several nodes with one pod CIDR wins. */
  function Claims(nodes: seq<Node>): map<string, string> {
    if nodes == [] then map[]
    else
      var node := nodes[|nodes| - 1];
      var before := Claims(nodes[..|nodes| - 1]);
      if Eligible(node) && PodText(node) !in before then before[PodText(node) := InstanceId(node)] else before
  }

  lemma ClaimsOneMore(nodes: seq<Node>, node: Node)
    ensures Claims(nodes + [node]) ==
            var before := Claims(nodes);
            if Eligible(node) && PodText(node) !in before then before[PodText(node) := InstanceId(node)] else before
  {
    hide PodText, InstanceId, Eligible;
    assert (nodes + [node])[..|nodes|] == nodes;
  }

  /** The routes a pass leaves in place: the default one and those that do not conflict. */
  function Kept(nodes: seq<Node>, owners: map<string, string>): (kept: map<string, string>)
    ensures kept.Keys <= owners.Keys
    ensures DEFAULT_DEST in owners ==> DEFAULT_DEST in kept
  {
    map d | d in owners && (d == DEFAULT_DEST || !Conflict(nodes, d, owners[d])) :: owners[d]
  }

  /** A pass keeps the routes that do not conflict and adds the claimed ones whose destination was
      not in the table when the pass began. */
  function OnePass(nodes: seq<Node>, owners: map<string, string>): map<string, string> {
    Kept(nodes, owners) + (Claims(nodes) - owners.Keys)
  }
}
