/** The controller's two activities running side by side: the periodic pass, which works from snapshots
    of the nodes and of the routes, and the Reconcile worker. Each create or delete of a route is one
    step, since routeLock makes it so; any of them may fail or take effect without saying so. Between
    steps the nodes may change in any way. */
module Interleaving {
  import opened Wrappers
  import opened Cidr
  import opened NodeUtils
  import opened Nodes
  import opened Conflicts
  import opened Routes

  /** Where the pass is. It holds the nodes and routes that it listed. */
  datatype SyncPc =
    | SyncIdle
    | SyncListing(nodes: seq<Node>)
    | SyncDeleting(nodes: seq<Node>, routes: seq<Route>, i: nat)
    | SyncAdding(nodes: seq<Node>, routes: seq<Route>, j: nat)
    | SyncCreating(nodes: seq<Node>, routes: seq<Route>, j: nat)
    | SyncCaching(nodes: seq<Node>, routes: seq<Route>, j: nat, route: Route)

  /** Where the worker is. It holds the node that it read, or the name of one that it did not find. */
  datatype WorkerPc =
    | Idle
    | Missing(name: string)
    | Finding(node: Node)
    | Creating(node: Node)
    | Caching(node: Node, route: Route)
    | Removing(name: string, dest: string)
    | Forgetting(name: string)

  /** `seen` remembers every node object that has existed. */
  datatype State = State(
    table: Table,
    cache: map<string, Route>,
    nodes: map<string, Node>,
    sync: SyncPc,
    worker: WorkerPc,
    seen: set<Node>)

  // ---------- Steps of the pass ----------

  /** NodeList: the nodes without an exclude label. */
  ghost predicate ListNodes(s: State, s': State) {
    && s.sync == SyncIdle
    && s'.sync.SyncListing? && s' == s.(sync := s'.sync)
    && forall n :: n in s'.sync.nodes <==> n in s.nodes.Values && !HasExcludeLabel(n.labels)
  }

  ghost predicate ListRoutes(s: State, s': State) {
    && s.sync.SyncListing?
    && (|| s' == s.(sync := SyncIdle)
        || (s'.sync.SyncDeleting? && Lists(s'.sync.routes, s.table) &&
            s' == s.(sync := SyncDeleting(s.sync.nodes, s'.sync.routes, 0))))
  }

  ghost predicate DeleteOne(s: State, s': State) {
    && s.sync.SyncDeleting? && s.sync.i < |s.sync.routes|
    && s' == s.(sync := s.sync.(i := s.sync.i + 1), table := s'.table)
    && var r := s.sync.routes[s.sync.i];
       if Conflict(s.sync.nodes, r.dest, r.instanceId)
       then exists failed :: DeleteOutcome(s.table, s'.table, r.dest, failed)
       else s'.table == s.table
  }

  ghost predicate EndDeleting(s: State, s': State) {
    && s.sync.SyncDeleting? && s.sync.i == |s.sync.routes|
    && s' == s.(sync := SyncAdding(s.sync.nodes, s.sync.routes, 0))
  }

  ghost predicate LookUpOne(s: State, s': State) {
    && s.sync.SyncAdding? && s.sync.j < |s.sync.nodes|
    && s' == s.(sync := s'.sync)
    && AfterLookup(s, s.sync.nodes, s.sync.routes, s.sync.j, s'.sync)
  }

  ghost predicate CreateOne(s: State, s': State) {
    && s.sync.SyncCreating? && s.sync.j < |s.sync.nodes|
    && s' == s.(sync := s'.sync, table := s'.table)
    && var node := s.sync.nodes[s.sync.j];
       exists failed, route ::
         && CreateOutcome(s.table, s'.table, InstanceId(node), PodText(node), failed, route)
         && s'.sync == AfterSyncCreate(s.sync.nodes, s.sync.routes, s.sync.j, route)
  }

  ghost predicate CacheOne(s: State, s': State) {
    && s.sync.SyncCaching? && s.sync.j < |s.sync.nodes|
    && s' == s.(sync := SyncAdding(s.sync.nodes, s.sync.routes, s.sync.j + 1),
                cache := SetIfAbsent(s.cache, s.sync.nodes[s.sync.j].name, s.sync.route))
  }

  ghost predicate EndPass(s: State, s': State) {
    s.sync.SyncAdding? && s.sync.j == |s.sync.nodes| && s' == s.(sync := SyncIdle)
  }

  ghost predicate SyncStep(s: State, s': State) {
    || ListNodes(s, s') || ListRoutes(s, s') || DeleteOne(s, s') || EndDeleting(s, s')
    || LookUpOne(s, s') || CreateOne(s, s') || CacheOne(s, s') || EndPass(s, s')
  }

  /** findRoute for node j of a pass: in the listing, or live if the listing is empty. */
  ghost predicate AfterLookup(s: State, nodes: seq<Node>, routes: seq<Route>, j: nat, next: SyncPc)
    requires j < |nodes|
  {
    var node := nodes[j];
    if !Eligible(node) then next == SyncAdding(nodes, routes, j + 1)
    else if routes != [] then
      if Hit(routes, PodText(node)) then
        next.SyncCaching? && next.route.dest == PodText(node) && next == SyncCaching(nodes, routes, j, next.route)
      else next == SyncCreating(nodes, routes, j)
    else
      || next == SyncAdding(nodes, routes, j + 1)
      || next == if PodText(node) in s.table then SyncCaching(nodes, routes, j, ToRoute(s.table[PodText(node)]))
                 else SyncCreating(nodes, routes, j)
  }

  function AfterSyncCreate(nodes: seq<Node>, routes: seq<Route>, j: nat, route: Option<Route>): SyncPc {
    match route
    case None => SyncAdding(nodes, routes, j + 1)
    case Some(r) => SyncCaching(nodes, routes, j, r)
  }

  function AfterWorkerCreate(node: Node, route: Option<Route>): WorkerPc {
    match route
    case None => Idle
    case Some(r) => Caching(node, r)
  }

  // ---------- Steps of the worker ----------

  ghost predicate WorkerGet(s: State, s': State) {
    s.worker == Idle && s' == s.(worker := s'.worker) && AfterGet(s, s'.worker)
  }

  /** The worker reads the cache for a node that was gone when it read the nodes. */
  ghost predicate WorkerLook(s: State, s': State) {
    && s.worker.Missing?
    && s' == s.(worker := if s.worker.name in s.cache then Removing(s.worker.name, s.cache[s.worker.name].dest) else Idle)
  }

  ghost predicate WorkerFind(s: State, s': State) {
    && s.worker.Finding? && s' == s.(worker := s'.worker)
    && var d := PodText(s.worker.node);
       || s'.worker == Idle
       || s'.worker == if d in s.table then Caching(s.worker.node, ToRoute(s.table[d])) else Creating(s.worker.node)
  }

  ghost predicate WorkerCreate(s: State, s': State) {
    && s.worker.Creating? && s' == s.(worker := s'.worker, table := s'.table)
    && var node := s.worker.node;
       exists failed, route ::
         && CreateOutcome(s.table, s'.table, InstanceId(node), PodText(node), failed, route)
         && s'.worker == AfterWorkerCreate(node, route)
  }

  ghost predicate WorkerCache(s: State, s': State) {
    && s.worker.Caching?
    && s' == s.(worker := Idle, cache := SetIfAbsent(s.cache, s.worker.node.name, s.worker.route))
  }

  ghost predicate WorkerRemove(s: State, s': State) {
    && s.worker.Removing? && s' == s.(worker := s'.worker, table := s'.table)
    && exists failed ::
         && DeleteOutcome(s.table, s'.table, s.worker.dest, failed)
         && s'.worker == if failed then Idle else Forgetting(s.worker.name)
  }

  ghost predicate WorkerForget(s: State, s': State) {
    s.worker.Forgetting? && s' == s.(worker := Idle, cache := s.cache - {s.worker.name})
  }

  ghost predicate WorkerStep(s: State, s': State) {
    || WorkerGet(s, s') || WorkerLook(s, s') || WorkerFind(s, s') || WorkerCreate(s, s')
    || WorkerCache(s, s') || WorkerRemove(s, s') || WorkerForget(s, s')
  }

  /** What the worker does after reading the requested node. */
  ghost predicate AfterGet(s: State, next: WorkerPc) {
    match next
    case Finding(node) => node in s.nodes.Values && Eligible(node)
    case Missing(name) => name !in s.nodes
    case _ => next == Idle
  }

  /** Nodes come, go and change. */
  ghost predicate NodesStep(s: State, s': State) {
    s' == s.(nodes := s'.nodes, seen := s.seen + s'.nodes.Values)
  }

  ghost predicate Step(s: State, s': State) {
    SyncStep(s, s') || WorkerStep(s, s') || NodesStep(s, s')
  }

  // ---------- Steps without faults ----------

  /** If the step is one of the pass, its call works: the listing and the lookups answer, and what is to
      be deleted or created is gone or there afterwards. */
  ghost predicate PassWorks(s: State, s': State) {
    match s.sync
    case SyncListing(_) => s'.sync != SyncIdle
    case SyncDeleting(nodes, routes, i) =>
      i < |routes| && s'.sync != s.sync && Conflict(nodes, routes[i].dest, routes[i].instanceId) ==>
        routes[i].dest !in s'.table
    case SyncAdding(nodes, routes, j) =>
      j < |nodes| && Eligible(nodes[j]) ==> s'.sync != SyncAdding(nodes, routes, j + 1)
    case SyncCreating(nodes, routes, j) =>
      j < |nodes| && s'.sync != s.sync ==> PodText(nodes[j]) in s'.table
    case _ => true
  }

  /** The same for the worker; and what either creates is found and what it deletes reported as such. */
  ghost predicate Faultless(s: State, s': State) {
    && PassWorks(s, s')
    && (s.sync.SyncCreating? && s'.sync != s.sync ==> s'.sync.SyncCaching?)
    && match s.worker
       case Finding(_) => s'.worker != Idle
       case Creating(_) => s'.worker == s.worker || s'.worker.Caching?
       case Removing(_, _) => s'.worker == s.worker || s'.worker.Forgetting?
       case _ => true
  }

  ghost predicate Init(s: State) {
    && (forall d :: d in s.table ==> s.table[d].dest == d)
    && s.cache == map[]
    && s.sync == SyncIdle && s.worker == Idle
    && s.seen == s.nodes.Values
  }

  ghost predicate Run(run: seq<State>) {
    && run != [] && Init(run[0])
    && forall k :: 0 <= k < |run| - 1 ==> Step(run[k], run[k + 1])
  }

  // ---------- The inductive invariant ----------

  /** Some node that has existed under this name had this pod CIDR. */
  ghost predicate Known(seen: set<Node>, name: string, dest: string) {
    exists n :: n in seen && n.name == name && PodText(n) == dest && dest != ""
  }

  ghost predicate SyncInv(s: State) {
    && (!s.sync.SyncIdle? ==> forall n :: n in s.sync.nodes ==> n in s.seen && !HasExcludeLabel(n.labels))
    && (s.sync.SyncDeleting? ==> s.sync.i <= |s.sync.routes|)
    && (s.sync.SyncCreating? ==> s.sync.j < |s.sync.nodes| && Eligible(s.sync.nodes[s.sync.j]))
    && (s.sync.SyncCaching? ==>
          && s.sync.j < |s.sync.nodes|
          && PodText(s.sync.nodes[s.sync.j]) == s.sync.route.dest != "")
  }

  ghost predicate WorkerInv(s: State) {
    match s.worker
    case Idle => true
    case Missing(_) => true
    case Finding(node) => node in s.seen && Eligible(node)
    case Creating(node) => node in s.seen && Eligible(node)
    case Caching(node, route) => node in s.seen && PodText(node) == route.dest != ""
    case Removing(name, dest) => Known(s.seen, name, dest)
    case Forgetting(name) => true
  }

  ghost predicate TableInv(s: State) {
    forall d :: d in s.table ==> s.table[d].dest == d
  }

  ghost predicate CacheInv(s: State) {
    forall name :: name in s.cache ==> Known(s.seen, name, s.cache[name].dest)
  }

  /** Every cached destination is a pod CIDR that the node has had, and so is whatever the activities
      are about to cache, create or remove. */
  ghost predicate Inv(s: State) {
    TableInv(s) && CacheInv(s) && SyncInv(s) && WorkerInv(s) && s.nodes.Values <= s.seen
  }

  lemma EligibleHasText(node: Node)
    requires Eligible(node)
    ensures PodText(node) != "" && PodRouteOf(node).Found?
  {
    hide PodRouteOf;
  }

  lemma CreatedWellKeyed(t: Table, t': Table, instanceId: string, cidr: string, failed: bool, route: Option<Route>)
    requires forall d :: d in t ==> t[d].dest == d
    requires CreateOutcome(t, t', instanceId, cidr, failed, route)
    ensures forall d :: d in t' ==> t'[d].dest == d
    ensures route.Some? ==> route.value.dest == cidr
  {
  }

  lemma CacheGains(s: State, s': State, node: Node, route: Route)
    requires CacheInv(s) && node in s.seen && PodText(node) == route.dest != ""
    requires s'.cache == SetIfAbsent(s.cache, node.name, route) && s'.seen == s.seen
    ensures CacheInv(s')
  {
    hide PodText;
    assert Known(s.seen, node.name, route.dest);
  }

  lemma SyncKeepsSyncInv(s: State, s': State)
    requires TableInv(s) && SyncInv(s) && s.nodes.Values <= s.seen
    requires ListNodes(s, s') || ListRoutes(s, s') || DeleteOne(s, s') || EndDeleting(s, s') || LookUpOne(s, s') || EndPass(s, s')
    ensures SyncInv(s')
  {
    hide Eligible, PodText, InstanceId, Conflict, Lists, DeleteOutcome;
    if LookUpOne(s, s') && Eligible(s.sync.nodes[s.sync.j]) {
      EligibleHasText(s.sync.nodes[s.sync.j]);
    }
  }

  lemma LookupAdds(s: State, s': State)
    requires LookUpOne(s, s')
    ensures s'.sync.SyncAdding? || s'.sync.SyncCreating? || s'.sync.SyncCaching?
  {
    hide Eligible, PodText, Hit;
  }

  lemma CreateOneKeepsInv(s: State, s': State)
    requires TableInv(s) && SyncInv(s) && CreateOne(s, s')
    ensures TableInv(s') && SyncInv(s')
  {
    hide Eligible, PodText, InstanceId, CreateOutcome;
    var node := s.sync.nodes[s.sync.j];
    var failed, route :| CreateOutcome(s.table, s'.table, InstanceId(node), PodText(node), failed, route) &&
                         s'.sync == AfterSyncCreate(s.sync.nodes, s.sync.routes, s.sync.j, route);
    CreatedWellKeyed(s.table, s'.table, InstanceId(node), PodText(node), failed, route);
    EligibleHasText(node);
  }

  lemma CacheOneKeepsInv(s: State, s': State)
    requires CacheInv(s) && SyncInv(s) && CacheOne(s, s')
    ensures CacheInv(s') && SyncInv(s')
  {
    hide Eligible, PodText, CacheInv, SetIfAbsent;
    var node := s.sync.nodes[s.sync.j];
    assert node in s.sync.nodes;
    CacheGains(s, s', node, s.sync.route);
  }

  lemma WorkerKeepsWorkerInv(s: State, s': State)
    requires TableInv(s) && CacheInv(s) && WorkerInv(s) && s.nodes.Values <= s.seen
    requires WorkerGet(s, s') || WorkerLook(s, s') || WorkerFind(s, s') || WorkerRemove(s, s') || WorkerForget(s, s') || WorkerCache(s, s')
    ensures WorkerInv(s')
  {
    hide Eligible, PodText, Known, DeleteOutcome;
    if WorkerFind(s, s') {
      EligibleHasText(s.worker.node);
    }
  }

  lemma WorkerCreateKeepsInv(s: State, s': State)
    requires TableInv(s) && WorkerInv(s) && WorkerCreate(s, s')
    ensures TableInv(s') && WorkerInv(s')
  {
    hide Eligible, PodText, InstanceId, CreateOutcome;
    var node := s.worker.node;
    var failed, route :| CreateOutcome(s.table, s'.table, InstanceId(node), PodText(node), failed, route) &&
                         s'.worker == AfterWorkerCreate(node, route);
    CreatedWellKeyed(s.table, s'.table, InstanceId(node), PodText(node), failed, route);
    EligibleHasText(node);
  }

  lemma WorkerCacheKeepsInv(s: State, s': State)
    requires CacheInv(s) && WorkerInv(s) && WorkerCache(s, s')
    ensures CacheInv(s')
  {
    hide Eligible, PodText, CacheInv, SetIfAbsent;
    CacheGains(s, s', s.worker.node, s.worker.route);
  }

  /** The parts of the invariant that a step leaves alone survive it, as nodes seen stay seen. */
  lemma InvFrame(s: State, s': State)
    requires s.seen <= s'.seen
    ensures SyncInv(s) && s'.sync == s.sync ==> SyncInv(s')
    ensures WorkerInv(s) && s'.worker == s.worker ==> WorkerInv(s')
    ensures CacheInv(s) && (forall n :: n in s'.cache ==> n in s.cache && s'.cache[n] == s.cache[n]) ==> CacheInv(s')
    ensures TableInv(s) && (forall d :: d in s'.table ==> d in s.table && s'.table[d] == s.table[d]) ==> TableInv(s')
  {
    hide Eligible, PodText;
  }

  lemma SyncKeepsInv(s: State, s': State)
    requires Inv(s) && SyncStep(s, s')
    ensures Inv(s')
  {
    hide SyncInv, WorkerInv, CacheInv, TableInv, Conflict, AfterLookup, Lists, PodText, InstanceId, CreateOutcome;
    InvFrame(s, s');
    if CreateOne(s, s') {
      CreateOneKeepsInv(s, s');
    } else if CacheOne(s, s') {
      CacheOneKeepsInv(s, s');
    } else {
      SyncKeepsSyncInv(s, s');
    }
  }

  lemma WorkerKeepsInv(s: State, s': State)
    requires Inv(s) && WorkerStep(s, s')
    ensures Inv(s')
  {
    hide SyncInv, WorkerInv, CacheInv, TableInv, AfterGet, PodText, InstanceId, CreateOutcome;
    InvFrame(s, s');
    if WorkerCreate(s, s') {
      WorkerCreateKeepsInv(s, s');
    } else {
      WorkerKeepsWorkerInv(s, s');
      if WorkerCache(s, s') {
        WorkerCacheKeepsInv(s, s');
      }
    }
  }

  lemma StepKeepsInv(s: State, s': State)
    requires Inv(s) && Step(s, s')
    ensures Inv(s')
  {
    hide SyncInv, WorkerInv, CacheInv, TableInv, SyncStep, WorkerStep;
    if SyncStep(s, s') {
      SyncKeepsInv(s, s');
    } else if WorkerStep(s, s') {
      WorkerKeepsInv(s, s');
    } else {
      InvFrame(s, s');
    }
  }

  lemma {:induction false} InvHolds(run: seq<State>, k: nat)
    requires Run(run) && k < |run|
    ensures Inv(run[k])
  {
    hide Step;
    if k > 0 {
      InvHolds(run, k - 1);
      StepKeepsInv(run[k - 1], run[k]);
    }
  }

  // ---------- What is still remembered ----------

  /** The node objects that are stored, or held by the pass or the worker. */
  function Held(s: State): (held: set<Node>)
    ensures s.nodes.Values <= held
  {
    s.nodes.Values + (if s.sync.SyncIdle? then {} else set n | n in s.sync.nodes) + WorkerNodes(s.worker)
  }

  function WorkerNodes(pc: WorkerPc): set<Node> {
    match pc
    case Finding(node) => {node}
    case Creating(node) => {node}
    case Caching(node, _) => {node}
    case _ => {}
  }

  // ---------- What the controller never touches ----------

  /** The route d is the node's pod CIDR or inside it. */
  ghost predicate Within(d: string, node: Node) {
    PodRouteOf(node).Found? && (d == PodText(node) || Inside(d, PodRouteOf(node).net))
  }

  lemma ConflictMeansWithin(node: Node, d: string, owner: string)
    requires ConflictsWith(node, d, owner)
    ensures Within(d, node)
  {
    hide PodRouteOf, InstanceId, Text, Inside, Contains, ParseCIDR;
    var net := PodRouteOf(node).net;
    if Containing(Some(net), d) == Report(true, true) {
      ContainmentIsReal(net, d);
    }
  }

  /** A step removes a route only if it lies within a pod CIDR that some node has had, and adds one only
      if an eligible node that has existed wants exactly it; every other route stays as it is. */
  ghost predicate Frame(s: State, s': State) {
    && (forall d :: d in s.table && d !in s'.table ==> exists n :: n in s.seen && Within(d, n))
    && (forall d :: d in s'.table && d !in s.table ==> exists n :: n in s.seen && Wants(n, s'.table[d]))
    && (forall d :: d in s.table && d in s'.table ==> s'.table[d] == s.table[d])
  }

  lemma DeleteOneFrame(s: State, s': State)
    requires SyncInv(s) && DeleteOne(s, s')
    ensures Frame(s, s')
  {
    hide Eligible, PodText, InstanceId, ConflictsWith, Within;
    var nodes, r := s.sync.nodes, s.sync.routes[s.sync.i];
    if Conflict(nodes, r.dest, r.instanceId) {
      var k :| 0 <= k < |nodes| && ConflictsWith(nodes[k], r.dest, r.instanceId);
      ConflictMeansWithin(nodes[k], r.dest, r.instanceId);
      assert nodes[k] in nodes;
    }
  }

  lemma CreateFrame(s: State, s': State, node: Node, failed: bool, route: Option<Route>)
    requires node in s.seen && Eligible(node)
    requires CreateOutcome(s.table, s'.table, InstanceId(node), PodText(node), failed, route)
    ensures Frame(s, s')
  {
    hide Eligible, PodText, InstanceId, Within;
    if s'.table != s.table {
      assert Wants(node, s'.table[PodText(node)]);
    }
  }

  lemma RemoveFrame(s: State, s': State)
    requires WorkerInv(s) && WorkerRemove(s, s')
    ensures Frame(s, s')
  {
    hide Eligible, PodRouteOf, Text, Inside;
    var n :| n in s.seen && n.name == s.worker.name && PodText(n) == s.worker.dest && s.worker.dest != "";
    assert Within(s.worker.dest, n);
  }

  lemma StepFrame(s: State, s': State)
    requires Inv(s) && Step(s, s')
    ensures Frame(s, s')
  {
    hide Frame, Eligible, PodText, InstanceId, CreateOutcome, Conflict, AfterLookup, AfterGet, Known, SetIfAbsent, Lists;
    if DeleteOne(s, s') {
      DeleteOneFrame(s, s');
    } else if CreateOne(s, s') {
      var node := s.sync.nodes[s.sync.j];
      assert node in s.sync.nodes;
      var failed, route :| CreateOutcome(s.table, s'.table, InstanceId(node), PodText(node), failed, route);
      CreateFrame(s, s', node, failed, route);
    } else if WorkerCreate(s, s') {
      var node := s.worker.node;
      var failed, route :| CreateOutcome(s.table, s'.table, InstanceId(node), PodText(node), failed, route);
      CreateFrame(s, s', node, failed, route);
    } else if WorkerRemove(s, s') {
      RemoveFrame(s, s');
    } else {
      assert s'.table == s.table;
      SameTableFrame(s, s');
    }
  }

  /** In every run, whatever fails and however the activities interleave: a route outside all pod CIDRs
      that nodes have had is never removed or altered, and every route added is some node's own. */
  lemma WholeRunFrame(run: seq<State>, k: nat)
    requires Run(run) && k + 1 < |run|
    ensures Frame(run[k], run[k + 1])
  {
    hide Frame, Inv, Step;
    InvHolds(run, k);
    StepFrame(run[k], run[k + 1]);
  }

  lemma SameTableFrame(s: State, s': State)
    requires s'.table == s.table
    ensures Frame(s, s')
  {
  }
}
