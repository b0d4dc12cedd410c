/** Paths of the state machine, and how the outcomes of the program's operations make them up: used to
    show that whatever the methods of RouteController do, the machine can do. */
module Simulation {
  import opened Wrappers
  import opened NodeUtils
  import opened Nodes
  import opened Conflicts
  import opened Routes
  import opened Interleaving

  /** Whose steps a path is made of: any, or only those of the call of one activity that is under way. */
  datatype Activity = Everything | ThePass | TheWorker

  ghost predicate Takes(a: Activity, s: State, s': State) {
    match a
    case Everything => Step(s, s')
    case ThePass => PassStep(s, s')
    case TheWorker => s.worker != Idle && WorkerStep(s, s')
  }

  /** A step of the pass under way, not one that begins another. */
  ghost predicate PassStep(s: State, s': State) {
    s.sync != SyncIdle && SyncStep(s, s')
  }

  ghost predicate Path(a: Activity, s: State, s': State, n: nat)
    decreases n
  {
    if n == 0 then s' == s else exists m :: Takes(a, s, m) && Path(a, m, s', n - 1)
  }

  /** Such steps can take the machine from s to s'. */
  ghost predicate Leads(a: Activity, s: State, s': State) {
    exists n :: Path(a, s, s', n)
  }

  lemma Stay(a: Activity, s: State)
    ensures Leads(a, s, s)
  {
    assert Path(a, s, s, 0);
  }

  lemma StepLeads(a: Activity, s: State, s': State)
    requires Takes(a, s, s')
    ensures Leads(a, s, s')
  {
    hide Takes;
    assert Path(a, s', s', 0);
    assert Path(a, s, s', 1);
  }

  lemma {:induction false} PathsJoin(a: Activity, s: State, m: State, s': State, i: nat, j: nat)
    requires Path(a, s, m, i) && Path(a, m, s', j)
    ensures Path(a, s, s', i + j)
    decreases i
  {
    hide Takes;
    if i > 0 {
      var q :| Takes(a, s, q) && Path(a, q, m, i - 1);
      PathsJoin(a, q, m, s', i - 1, j);
    }
  }

  lemma LeadsOn(a: Activity, s: State, m: State, s': State)
    requires Leads(a, s, m) && Leads(a, m, s')
    ensures Leads(a, s, s')
  {
    hide Path;
    var i :| Path(a, s, m, i);
    var j :| Path(a, m, s', j);
    PathsJoin(a, s, m, s', i, j);
  }

  lemma ThenLeads(a: Activity, s: State, m: State, s': State)
    requires Takes(a, s, m) && Leads(a, m, s')
    ensures Leads(a, s, s')
  {
    hide Takes, Leads;
    StepLeads(a, s, m);
    LeadsOn(a, s, m, s');
  }

  /** A path leads a run on to a longer one. */
  lemma {:induction false} RunGoesOn(run: seq<State>, s': State, n: nat) returns (run': seq<State>)
    requires Run(run) && Path(Everything, run[|run| - 1], s', n)
    ensures Run(run') && run <= run' && run'[|run'| - 1] == s'
    decreases n
  {
    hide Step, Init;
    if n == 0 {
      run' := run;
    } else {
      var m :| Step(run[|run| - 1], m) && Path(Everything, m, s', n - 1);
      var longer := run + [m];
      forall k | 0 <= k < |longer| - 1
        ensures Step(longer[k], longer[k + 1])
      {
        assert k < |run| - 1 ==> longer[k] == run[k] && longer[k + 1] == run[k + 1];
      }
      run' := RunGoesOn(longer, s', n - 1);
    }
  }

  // ---------- The pass ----------

  /** What the pass reads and writes of the state. */
  datatype Config = Config(sync: SyncPc, table: Table, cache: map<string, Route>)

  function At(s: State, c: Config): State {
    s.(sync := c.sync, table := c.table, cache := c.cache)
  }

  /** Whatever the nodes are and whatever the worker is about to do, the machine can go from c to c'. */
  ghost predicate Becomes(c: Config, c': Config) {
    forall s: State :: Leads(Everything, At(s, c), At(s, c'))
  }

  lemma BecomesItself(c: Config)
    ensures Becomes(c, c)
  {
    hide Leads;
    forall s: State
      ensures Leads(Everything, At(s, c), At(s, c))
    {
      Stay(Everything, At(s, c));
    }
  }

  lemma BecomesThen(c: Config, m: Config, c': Config)
    requires Becomes(c, m) && Becomes(m, c')
    ensures Becomes(c, c')
  {
    hide Leads;
    forall s: State
      ensures Leads(Everything, At(s, c), At(s, c'))
    {
      LeadsOn(Everything, At(s, c), At(s, m), At(s, c'));
    }
  }

  lemma StepBecomes(c: Config, c': Config)
    requires forall s: State :: SyncStep(At(s, c), At(s, c'))
    ensures Becomes(c, c')
  {
    hide SyncStep, WorkerStep, NodesStep, Leads, At;
    forall s: State
      ensures Leads(Everything, At(s, c), At(s, c'))
    {
      StepLeads(Everything, At(s, c), At(s, c'));
    }
  }

  lemma ListingFails(nodes: seq<Node>, t: Table, cache: map<string, Route>)
    ensures Becomes(Config(SyncListing(nodes), t, cache), Config(SyncIdle, t, cache))
  {
    var c, c' := Config(SyncListing(nodes), t, cache), Config(SyncIdle, t, cache);
    assert forall s: State :: ListRoutes(At(s, c), At(s, c'));
    StepBecomes(c, c');
  }

  lemma ListingWorks(nodes: seq<Node>, routes: seq<Route>, t: Table, cache: map<string, Route>)
    requires Lists(routes, t)
    ensures Becomes(Config(SyncListing(nodes), t, cache), Config(SyncDeleting(nodes, routes, 0), t, cache))
  {
    hide Lists;
    var c, c' := Config(SyncListing(nodes), t, cache), Config(SyncDeleting(nodes, routes, 0), t, cache);
    assert forall s: State :: ListRoutes(At(s, c), At(s, c'));
    StepBecomes(c, c');
  }

  lemma DeletionBecomes(nodes: seq<Node>, routes: seq<Route>, i: nat, t: Table, t': Table, cache: map<string, Route>, deleted: bool)
    requires i < |routes|
    requires t' == if deleted then t - {routes[i].dest} else t
    requires deleted ==> Conflict(nodes, routes[i].dest, routes[i].instanceId)
    ensures Becomes(Config(SyncDeleting(nodes, routes, i), t, cache), Config(SyncDeleting(nodes, routes, i + 1), t', cache))
  {
    hide Conflict;
    var c, c' := Config(SyncDeleting(nodes, routes, i), t, cache), Config(SyncDeleting(nodes, routes, i + 1), t', cache);
    assert DeleteOutcome(t, t', routes[i].dest, true);
    assert forall s: State :: DeleteOne(At(s, c), At(s, c'));
    StepBecomes(c, c');
  }

  lemma DeletingEndsThere(nodes: seq<Node>, routes: seq<Route>, t: Table, cache: map<string, Route>)
    ensures Becomes(Config(SyncDeleting(nodes, routes, |routes|), t, cache), Config(SyncAdding(nodes, routes, 0), t, cache))
  {
    var c, c' := Config(SyncDeleting(nodes, routes, |routes|), t, cache), Config(SyncAdding(nodes, routes, 0), t, cache);
    assert forall s: State :: EndDeleting(At(s, c), At(s, c'));
    StepBecomes(c, c');
  }

  lemma PassEnds(nodes: seq<Node>, routes: seq<Route>, t: Table, cache: map<string, Route>)
    ensures Becomes(Config(SyncAdding(nodes, routes, |nodes|), t, cache), Config(SyncIdle, t, cache))
  {
    var c, c' := Config(SyncAdding(nodes, routes, |nodes|), t, cache), Config(SyncIdle, t, cache);
    assert forall s: State :: EndPass(At(s, c), At(s, c'));
    StepBecomes(c, c');
  }

  /** The lookup of node j goes to `next`. */
  ghost predicate Lookup(t: Table, nodes: seq<Node>, routes: seq<Route>, j: nat, next: SyncPc)
    requires j < |nodes|
  {
    forall s: State :: s.table == t ==> AfterLookup(s, nodes, routes, j, next)
  }

  lemma LookupBecomes(nodes: seq<Node>, routes: seq<Route>, j: nat, t: Table, cache: map<string, Route>, next: SyncPc)
    requires j < |nodes| && Lookup(t, nodes, routes, j, next)
    ensures Becomes(Config(SyncAdding(nodes, routes, j), t, cache), Config(next, t, cache))
  {
    hide AfterLookup;
    var c, c' := Config(SyncAdding(nodes, routes, j), t, cache), Config(next, t, cache);
    assert forall s: State :: LookUpOne(At(s, c), At(s, c'));
    StepBecomes(c, c');
  }

  lemma CachingBecomes(nodes: seq<Node>, routes: seq<Route>, j: nat, t: Table, cache: map<string, Route>, r: Route)
    requires j < |nodes|
    ensures Becomes(Config(SyncCaching(nodes, routes, j, r), t, cache),
                    Config(SyncAdding(nodes, routes, j + 1), t, SetIfAbsent(cache, nodes[j].name, r)))
  {
    hide SetIfAbsent;
    var c := Config(SyncCaching(nodes, routes, j, r), t, cache);
    var c' := Config(SyncAdding(nodes, routes, j + 1), t, SetIfAbsent(cache, nodes[j].name, r));
    assert forall s: State :: CacheOne(At(s, c), At(s, c'));
    StepBecomes(c, c');
  }

  lemma CreationBecomes(nodes: seq<Node>, routes: seq<Route>, j: nat, t: Table, t': Table, cache: map<string, Route>,
                        failed: bool, route: Option<Route>)
    requires j < |nodes| && CreateOutcome(t, t', InstanceId(nodes[j]), PodText(nodes[j]), failed, route)
    ensures Becomes(Config(SyncCreating(nodes, routes, j), t, cache),
                    Config(SyncAdding(nodes, routes, j + 1), t', AfterCreate(cache, nodes[j].name, route)))
  {
    hide InstanceId, PodText, CreateOutcome, SetIfAbsent, Becomes;
    var c, c' := Config(SyncCreating(nodes, routes, j), t, cache), Config(AfterSyncCreate(nodes, routes, j, route), t', cache);
    assert forall s: State :: CreateOne(At(s, c), At(s, c'));
    StepBecomes(c, c');
    if route.Some? {
      CachingBecomes(nodes, routes, j, t', cache, route.value);
      BecomesThen(c, c', Config(SyncAdding(nodes, routes, j + 1), t', AfterCreate(cache, nodes[j].name, route)));
    }
  }

  /** One iteration of the adding loop. */
  lemma AdditionBecomes(nodes: seq<Node>, routes: seq<Route>, j: nat, t: Table, t': Table,
                        cache: map<string, Route>, cache': map<string, Route>, failed: bool)
    requires j < |nodes|
    requires if Eligible(nodes[j])
             then AddOutcome(t, t', cache, cache', nodes[j].name, InstanceId(nodes[j]), PodText(nodes[j]), routes, failed)
             else t' == t && cache' == cache
    ensures Becomes(Config(SyncAdding(nodes, routes, j), t, cache), Config(SyncAdding(nodes, routes, j + 1), t', cache'))
  {
    hide Eligible, InstanceId, PodText, CreateOutcome, SetIfAbsent, Becomes, AfterCreate;
    var name, instanceId, cidr := nodes[j].name, InstanceId(nodes[j]), PodText(nodes[j]);
    var c, c' := Config(SyncAdding(nodes, routes, j), t, cache), Config(SyncAdding(nodes, routes, j + 1), t', cache');
    if !Eligible(nodes[j]) || (routes == [] && t' == t && cache' == cache) {
      LookupBecomes(nodes, routes, j, t, cache, SyncAdding(nodes, routes, j + 1));
    } else if r :| t' == t && FoundIn(routes, t, cidr, r) && cache' == SetIfAbsent(cache, name, r) {
      var m := SyncCaching(nodes, routes, j, r);
      LookupFinds(nodes, routes, j, t, r);
      LookupBecomes(nodes, routes, j, t, cache, m);
      CachingBecomes(nodes, routes, j, t, cache, r);
      BecomesThen(c, Config(m, t, cache), c');
    } else {
      var m := SyncCreating(nodes, routes, j);
      var route :| CreateOutcome(t, t', instanceId, cidr, failed, route) && cache' == AfterCreate(cache, name, route);
      LookupMisses(nodes, routes, j, t);
      LookupBecomes(nodes, routes, j, t, cache, m);
      CreationBecomes(nodes, routes, j, t, t', cache, failed, route);
      BecomesThen(c, Config(m, t, cache), c');
    }
  }

  lemma LookupFinds(nodes: seq<Node>, routes: seq<Route>, j: nat, t: Table, r: Route)
    requires j < |nodes| && Eligible(nodes[j]) && FoundIn(routes, t, PodText(nodes[j]), r)
    ensures Lookup(t, nodes, routes, j, SyncCaching(nodes, routes, j, r))
  {
    hide Eligible, PodText;
  }

  lemma LookupMisses(nodes: seq<Node>, routes: seq<Route>, j: nat, t: Table)
    requires j < |nodes| && Eligible(nodes[j])
    requires forall r :: !FoundIn(routes, t, PodText(nodes[j]), r)
    ensures Lookup(t, nodes, routes, j, SyncCreating(nodes, routes, j))
  {
    hide Eligible, PodText;
    var cidr := PodText(nodes[j]);
    if routes != [] {
      forall i | 0 <= i < |routes|
        ensures routes[i].dest != cidr
      {
        assert !FoundIn(routes, t, cidr, routes[i]);
      }
    } else {
      var found := if cidr in t then ToRoute(t[cidr]) else Route("", "", 0);
      assert !FoundIn(routes, t, cidr, found);
    }
  }

  // ---------- The worker ----------

  /** Reconcile's removal of a node that is gone. */
  lemma RemovalLeads(s: State, name: string, t': Table, failed: bool)
    requires s.worker == Idle && name !in s.nodes && name in s.cache
    requires DeleteOutcome(s.table, t', s.cache[name].dest, failed)
    ensures Leads(Everything, s, s.(table := t', cache := if failed then s.cache else s.cache - {name}))
  {
    hide Leads, DeleteOutcome;
    var s0 := s.(worker := Missing(name));
    assert WorkerGet(s, s0);
    StepLeads(Everything, s, s0);
    var s1 := s.(worker := Removing(name, s.cache[name].dest));
    assert WorkerLook(s0, s1);
    StepLeads(Everything, s0, s1);
    LeadsOn(Everything, s, s0, s1);
    var s2 := s1.(table := t', worker := if failed then Idle else Forgetting(name));
    assert WorkerRemove(s1, s2);
    StepLeads(Everything, s1, s2);
    LeadsOn(Everything, s, s1, s2);
    if !failed {
      var s3 := s2.(worker := Idle, cache := s.cache - {name});
      assert WorkerForget(s2, s3);
      StepLeads(Everything, s2, s3);
      LeadsOn(Everything, s, s2, s3);
    }
  }

  /** Reconcile's addition for a node that is there. */
  lemma AdditionLeads(s: State, node: Node, t': Table, cache': map<string, Route>, failed: bool)
    requires s.worker == Idle && node in s.nodes.Values && Eligible(node)
    requires AddOutcome(s.table, t', s.cache, cache', node.name, InstanceId(node), PodText(node), [], failed)
    ensures Leads(Everything, s, s.(table := t', cache := cache'))
  {
    hide Eligible, InstanceId, PodText, CreateOutcome, SetIfAbsent, Leads, AfterCreate;
    var name, instanceId, cidr := node.name, InstanceId(node), PodText(node);
    if t' == s.table && cache' == s.cache {
      Stay(Everything, s);
    } else {
      var s1 := s.(worker := Finding(node));
      assert WorkerGet(s, s1);
      StepLeads(Everything, s, s1);
      if r :| t' == s.table && FoundIn([], s.table, cidr, r) && cache' == SetIfAbsent(s.cache, name, r) {
        var s2 := s1.(worker := Caching(node, r));
        assert WorkerFind(s1, s2);
        StepLeads(Everything, s1, s2);
        LeadsOn(Everything, s, s1, s2);
        CachingLeads(s2);
        LeadsOn(Everything, s, s2, s.(table := t', cache := cache'));
      } else {
        var route :| CreateOutcome(s.table, t', instanceId, cidr, failed, route) && cache' == AfterCreate(s.cache, name, route);
        var s2 := s1.(worker := Creating(node));
        NothingFound(s.table, cidr);
        assert WorkerFind(s1, s2);
        StepLeads(Everything, s1, s2);
        LeadsOn(Everything, s, s1, s2);
        CreatingLeads(s2, t', failed, route);
        LeadsOn(Everything, s, s2, s.(table := t', cache := cache'));
      }
    }
  }

  lemma NothingFound(t: Table, cidr: string)
    requires forall r :: !FoundIn([], t, cidr, r)
    ensures cidr !in t
  {
    var found := if cidr in t then ToRoute(t[cidr]) else Route("", "", 0);
    assert !FoundIn([], t, cidr, found);
  }

  lemma CachingLeads(s: State)
    requires s.worker.Caching?
    ensures Leads(Everything, s, s.(worker := Idle, cache := SetIfAbsent(s.cache, s.worker.node.name, s.worker.route)))
  {
    hide Leads, SetIfAbsent;
    var s' := s.(worker := Idle, cache := SetIfAbsent(s.cache, s.worker.node.name, s.worker.route));
    assert WorkerCache(s, s');
    StepLeads(Everything, s, s');
  }

  lemma CreatingLeads(s: State, t': Table, failed: bool, route: Option<Route>)
    requires s.worker.Creating?
    requires CreateOutcome(s.table, t', InstanceId(s.worker.node), PodText(s.worker.node), failed, route)
    ensures Leads(Everything, s, s.(worker := Idle, table := t', cache := AfterCreate(s.cache, s.worker.node.name, route)))
  {
    hide Leads, SetIfAbsent, CreateOutcome, InstanceId, PodText;
    var s1 := s.(table := t', worker := AfterWorkerCreate(s.worker.node, route));
    assert WorkerCreate(s, s1);
    StepLeads(Everything, s, s1);
    if route.Some? {
      CachingLeads(s1);
      LeadsOn(Everything, s, s1, s.(worker := Idle, table := t', cache := AfterCreate(s.cache, s.worker.node.name, route)));
    }
  }

  // ---------- Whole calls ----------

  lemma WholePass(nodes: seq<Node>, routes: seq<Route>, t: Table, t1: Table, t2: Table,
                  cache: map<string, Route>, cache': map<string, Route>)
    requires Lists(routes, t)
    requires Becomes(Config(SyncDeleting(nodes, routes, 0), t, cache),
                     Config(SyncDeleting(nodes, routes, |routes|), t1, cache))
    requires Becomes(Config(SyncAdding(nodes, routes, 0), t1, cache),
                     Config(SyncAdding(nodes, routes, |nodes|), t2, cache'))
    ensures Becomes(Config(SyncListing(nodes), t, cache), Config(SyncIdle, t2, cache'))
  {
    hide *;
    var c0, c1 := Config(SyncListing(nodes), t, cache), Config(SyncDeleting(nodes, routes, 0), t, cache);
    var c2, c3 := Config(SyncDeleting(nodes, routes, |routes|), t1, cache), Config(SyncAdding(nodes, routes, 0), t1, cache);
    var c4, c5 := Config(SyncAdding(nodes, routes, |nodes|), t2, cache'), Config(SyncIdle, t2, cache');
    ListingWorks(nodes, routes, t, cache);
    BecomesThen(c0, c1, c2);
    DeletingEndsThere(nodes, routes, t1, cache);
    BecomesThen(c0, c2, c3);
    BecomesThen(c0, c3, c4);
    PassEnds(nodes, routes, t2, cache');
    BecomesThen(c0, c4, c5);
  }

  /** From every state in which the pass is idle and that has these nodes, table and cache, the machine
      can go to the same state with the new table and cache. */
  ghost predicate ClusterLeads(nodes: map<string, Node>, t: Table, t': Table, cache: map<string, Route>, cache': map<string, Route>) {
    forall s: State :: s.sync == SyncIdle && s.nodes == nodes && s.table == t && s.cache == cache ==>
      Leads(Everything, s, s.(table := t', cache := cache'))
  }

  lemma NoPass(nodes: map<string, Node>, t: Table, cache: map<string, Route>)
    ensures ClusterLeads(nodes, t, t, cache, cache)
  {
    hide Leads;
    forall s: State | s.table == t && s.cache == cache
      ensures Leads(Everything, s, s.(table := t, cache := cache))
    {
      Stay(Everything, s);
    }
  }

  lemma PassFromIdle(listed: seq<Node>, nodes: map<string, Node>, t: Table, t': Table, cache: map<string, Route>, cache': map<string, Route>)
    requires forall n :: n in listed <==> n in nodes.Values && !HasExcludeLabel(n.labels)
    requires Becomes(Config(SyncListing(listed), t, cache), Config(SyncIdle, t', cache'))
    ensures ClusterLeads(nodes, t, t', cache, cache')
  {
    hide Leads;
    forall s: State | s.sync == SyncIdle && s.nodes == nodes && s.table == t && s.cache == cache
      ensures Leads(Everything, s, s.(table := t', cache := cache'))
    {
      var m := At(s, Config(SyncListing(listed), t, cache));
      assert ListNodes(s, m);
      StepLeads(Everything, s, m);
      LeadsOn(Everything, s, m, At(s, Config(SyncIdle, t', cache')));
    }
  }

  /** The same for the worker. */
  ghost predicate ReconcileLeads(nodes: map<string, Node>, t: Table, t': Table, cache: map<string, Route>, cache': map<string, Route>) {
    forall s: State :: s.worker == Idle && s.nodes == nodes && s.table == t && s.cache == cache ==>
      Leads(Everything, s, s.(table := t', cache := cache'))
  }

  lemma ReconcileNothing(nodes: map<string, Node>, t: Table, cache: map<string, Route>)
    ensures ReconcileLeads(nodes, t, t, cache, cache)
  {
    hide Leads;
    forall s: State | s.table == t && s.cache == cache
      ensures Leads(Everything, s, s.(table := t, cache := cache))
    {
      Stay(Everything, s);
    }
  }

  lemma ReconcileRemoves(nodes: map<string, Node>, name: string, t: Table, t': Table, cache: map<string, Route>, failed: bool)
    requires name !in nodes && name in cache && DeleteOutcome(t, t', cache[name].dest, failed)
    ensures ReconcileLeads(nodes, t, t', cache, if failed then cache else cache - {name})
  {
    hide Leads, DeleteOutcome;
    forall s: State | s.worker == Idle && s.nodes == nodes && s.table == t && s.cache == cache
      ensures Leads(Everything, s, s.(table := t', cache := if failed then cache else cache - {name}))
    {
      RemovalLeads(s, name, t', failed);
    }
  }

  lemma ReconcileAdds(nodes: map<string, Node>, name: string, t: Table, t': Table,
                      cache: map<string, Route>, cache': map<string, Route>, failed: bool)
    requires name in nodes
    requires if Eligible(nodes[name])
             then AddOutcome(t, t', cache, cache', nodes[name].name, InstanceId(nodes[name]), PodText(nodes[name]), [], failed)
             else t' == t && cache' == cache
    ensures ReconcileLeads(nodes, t, t', cache, cache')
  {
    hide Leads, Eligible, InstanceId, PodText, AddOutcome;
    forall s: State | s.worker == Idle && s.nodes == nodes && s.table == t && s.cache == cache
      ensures Leads(Everything, s, s.(table := t', cache := cache'))
    {
      if Eligible(nodes[name]) {
        AdditionLeads(s, nodes[name], t', cache', failed);
      } else {
        Stay(Everything, s);
      }
    }
  }
}
