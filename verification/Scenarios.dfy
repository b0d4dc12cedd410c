/** Runs in which nothing fails and yet what one might claim of every run does not hold, one for every
    node that is ever given a route. */
module Scenarios {
  import opened Wrappers
  import opened Cidr
  import opened NodeUtils
  import opened Nodes
  import opened Conflicts
  import opened Routes
  import opened Convergence
  import opened Interleaving

  // ---------- Building a run ----------

  ghost predicate Moves(s: State, s': State) {
    Step(s, s') && Faultless(s, s')
  }

  ghost predicate FaultlessRun(run: seq<State>) {
    Run(run) && forall k :: 0 <= k < |run| - 1 ==> Moves(run[k], run[k + 1])
  }

  /** No node but x is ever seen, and no cached node is gone. */
  ghost predicate OnlyStored(run: seq<State>, x: Node) {
    forall k :: 0 <= k < |run| ==> run[k].seen == {x} && run[k].cache.Keys <= run[k].nodes.Keys
  }

  /** The worker never reads that a node is gone and removes nothing. */
  ghost predicate NoRemoval(run: seq<State>) {
    forall k :: 0 <= k < |run| ==> !run[k].worker.Missing? && !run[k].worker.Removing?
  }

  lemma RunBegins(s: State) returns (run: seq<State>)
    requires Init(s)
    ensures FaultlessRun(run) && run == [s]
  {
    run := [s];
  }

  lemma RunExtends(run: seq<State>, s: State, x: Node) returns (run': seq<State>)
    requires FaultlessRun(run) && Moves(run[|run| - 1], s)
    ensures FaultlessRun(run') && run' == run + [s] && run'[|run'| - 1] == s
    ensures OnlyStored(run, x) && s.seen == {x} && s.cache.Keys <= s.nodes.Keys ==> OnlyStored(run', x)
    ensures NoRemoval(run) && !s.worker.Missing? && !s.worker.Removing? ==> NoRemoval(run')
  {
    hide Step, Init, Faultless;
    run' := run + [s];
    forall k | 0 <= k < |run'| - 1
      ensures Step(run'[k], run'[k + 1]) && Moves(run'[k], run'[k + 1])
    {
      assert k < |run| - 1 ==> run'[k] == run[k] && run'[k + 1] == run[k + 1];
    }
  }

  /** A state in which x is the only node there has been. */
  function StateOf(x: Node, present: bool, routed: bool, cached: bool, sync: SyncPc, worker: WorkerPc): State {
    var r := CloudRoute(0, PodText(x), [InstanceId(x)]);
    State(if routed then map[PodText(x) := r] else map[],
          if cached then map[x.name := ToRoute(r)] else map[],
          if present then map[x.name := x] else map[],
          sync, worker, {x})
  }

  lemma StoredAtStart(x: Node)
    ensures Init(StateOf(x, true, false, false, SyncIdle, Idle))
    ensures OnlyStored([StateOf(x, true, false, false, SyncIdle, Idle)], x)
  {
    hide PodText, InstanceId;
    var nodes := map[x.name := x];
    assert nodes[x.name] == x && nodes.Values == {x};
  }

  /** Creating the route of x, and deleting it. */
  lemma FreshRoute(x: Node)
    requires Eligible(x)
    ensures var r := CloudRoute(0, PodText(x), [InstanceId(x)]);
            && CreateOutcome(map[], map[PodText(x) := r], InstanceId(x), PodText(x), false, Some(ToRoute(r)))
            && DeleteOutcome(map[PodText(x) := r], map[], PodText(x), false)
  {
    hide Eligible, PodText, InstanceId;
  }

  function RouteOf(x: Node): Route {
    ToRoute(CloudRoute(0, PodText(x), [InstanceId(x)]))
  }

  /** A pass lists the nodes. */
  lemma PassListsNode(x: Node, routed: bool, cached: bool)
    requires Eligible(x)
    ensures Moves(StateOf(x, true, routed, cached, SyncIdle, Idle), StateOf(x, true, routed, cached, SyncListing([x]), Idle))
  {
    hide PodText, InstanceId, WorkerStep;
    var nodes := map[x.name := x];
    assert x.name in nodes && nodes[x.name] == x;
    assert ListNodes(StateOf(x, true, routed, cached, SyncIdle, Idle), StateOf(x, true, routed, cached, SyncListing([x]), Idle));
  }

  /** A pass that has listed x, and no route, goes on to create the route of x. */
  lemma PassGoesOn(x: Node, present: bool, cached: bool, worker: WorkerPc)
    requires worker == Idle || worker.Forgetting?
    ensures Moves(StateOf(x, present, false, cached, SyncListing([x]), worker),
                  StateOf(x, present, false, cached, SyncDeleting([x], [], 0), worker))
    ensures Moves(StateOf(x, present, false, cached, SyncDeleting([x], [], 0), worker),
                  StateOf(x, present, false, cached, SyncAdding([x], [], 0), worker))
  {
    hide Eligible, PodText, InstanceId, WorkerStep;
  }

  lemma PassLooksUp(x: Node, present: bool, cached: bool, worker: WorkerPc)
    requires Eligible(x) && (worker == Idle || worker.Forgetting?)
    ensures Moves(StateOf(x, present, false, cached, SyncAdding([x], [], 0), worker),
                  StateOf(x, present, false, cached, SyncCreating([x], [], 0), worker))
  {
    hide Eligible, PodText, InstanceId, WorkerStep;
  }

  lemma PassCreates(x: Node, present: bool, cached: bool, worker: WorkerPc)
    requires Eligible(x) && (worker == Idle || worker.Forgetting?)
    ensures Moves(StateOf(x, present, false, cached, SyncCreating([x], [], 0), worker),
                  StateOf(x, present, true, cached, SyncCaching([x], [], 0, RouteOf(x)), worker))
  {
    hide Eligible, PodText, InstanceId, WorkerStep, CreateOutcome;
    FreshRoute(x);
    var s := StateOf(x, present, false, cached, SyncCreating([x], [], 0), worker);
    var s' := StateOf(x, present, true, cached, SyncCaching([x], [], 0, RouteOf(x)), worker);
    var node := s.sync.nodes[s.sync.j];
    assert node == x;
    assert CreateOutcome(s.table, s'.table, InstanceId(node), PodText(node), false, Some(RouteOf(x)));
    assert s'.sync == AfterSyncCreate(s.sync.nodes, s.sync.routes, s.sync.j, Some(RouteOf(x)));
    assert s' == s.(sync := s'.sync, table := s'.table);
    assert CreateOne(s, s');
  }

  /** A pass that has listed x while there was no route creates the route of x. */
  lemma PassRuns(x: Node, before: seq<State>, present: bool, cached: bool, worker: WorkerPc) returns (run: seq<State>)
    requires Eligible(x) && (worker == Idle || worker.Forgetting?)
    requires FaultlessRun(before) && before[|before| - 1] == StateOf(x, present, false, cached, SyncListing([x]), worker)
    ensures FaultlessRun(run) && before <= run
    ensures run[|run| - 1] == StateOf(x, present, true, cached, SyncCaching([x], [], 0, RouteOf(x)), worker)
    ensures OnlyStored(before, x) && (cached ==> present) ==> OnlyStored(run, x)
  {
    hide Eligible, PodText, InstanceId, FaultlessRun, Moves, OnlyStored, RouteOf;
    PassGoesOn(x, present, cached, worker);
    PassLooksUp(x, present, cached, worker);
    PassCreates(x, present, cached, worker);
    run := RunExtends(before, StateOf(x, present, false, cached, SyncDeleting([x], [], 0), worker), x);
    run := RunExtends(run, StateOf(x, present, false, cached, SyncAdding([x], [], 0), worker), x);
    run := RunExtends(run, StateOf(x, present, false, cached, SyncCreating([x], [], 0), worker), x);
    run := RunExtends(run, StateOf(x, present, true, cached, SyncCaching([x], [], 0, RouteOf(x)), worker), x);
  }

  /** The node goes away, or comes back. */
  lemma NodeMoves(x: Node, before: bool, after: bool, routed: bool, cached: bool, sync: SyncPc, worker: WorkerPc)
    requires worker == Idle || worker.Missing?
    requires sync.SyncListing? || (sync.SyncCaching? && PodText(x) == sync.route.dest)
    ensures Moves(StateOf(x, before, routed, cached, sync, worker), StateOf(x, after, routed, cached, sync, worker))
  {
    hide PodText, InstanceId, SyncStep, WorkerStep;
    assert NodesStep(StateOf(x, before, routed, cached, sync, worker), StateOf(x, after, routed, cached, sync, worker));
  }

  /** The worker reads that the node is gone. */
  lemma WorkerMisses(x: Node, routed: bool, cached: bool, sync: SyncPc)
    requires sync.SyncListing? || sync.SyncCaching?
    ensures Moves(StateOf(x, false, routed, cached, sync, Idle), StateOf(x, false, routed, cached, sync, Missing(x.name)))
  {
    hide PodText, InstanceId, SyncStep;
  }

  /** The worker finds the node's name in the cache and deletes the route. */
  lemma WorkerDeletes(x: Node, present: bool, sync: SyncPc)
    requires Eligible(x)
    requires sync.SyncListing? || sync == SyncAdding([x], [], 1)
    ensures Moves(StateOf(x, present, true, true, sync, Missing(x.name)),
                  StateOf(x, present, true, true, sync, Removing(x.name, PodText(x))))
    ensures Moves(StateOf(x, present, true, true, sync, Removing(x.name, PodText(x))),
                  StateOf(x, present, false, true, sync, Forgetting(x.name)))
  {
    hide PodText, InstanceId, SyncStep, DeleteOutcome, Eligible;
    FreshRoute(x);
    assert WorkerLook(StateOf(x, present, true, true, sync, Missing(x.name)),
                      StateOf(x, present, true, true, sync, Removing(x.name, PodText(x))));
    assert WorkerRemove(StateOf(x, present, true, true, sync, Removing(x.name, PodText(x))),
                        StateOf(x, present, false, true, sync, Forgetting(x.name)));
  }

  // ---------- A pass that brings a removed route back ----------

  lemma WorkerCreates(x: Node)
    requires Eligible(x)
    ensures Moves(StateOf(x, true, false, false, SyncIdle, Idle), StateOf(x, true, false, false, SyncIdle, Finding(x)))
    ensures Moves(StateOf(x, true, false, false, SyncIdle, Finding(x)), StateOf(x, true, false, false, SyncIdle, Creating(x)))
    ensures Moves(StateOf(x, true, false, false, SyncIdle, Creating(x)), StateOf(x, true, true, false, SyncIdle, Caching(x, RouteOf(x))))
    ensures Moves(StateOf(x, true, true, false, SyncIdle, Caching(x, RouteOf(x))), StateOf(x, true, true, true, SyncIdle, Idle))
  {
    hide Eligible, PodText, InstanceId, SyncStep, CreateOutcome;
    FreshRoute(x);
    var nodes := map[x.name := x];
    assert nodes[x.name] == x;
    assert WorkerCreate(StateOf(x, true, false, false, SyncIdle, Creating(x)), StateOf(x, true, true, false, SyncIdle, Caching(x, RouteOf(x))));
  }

  /** The worker creates the node's route and caches it. */
  lemma RouteIsCached(x: Node) returns (run: seq<State>)
    requires Eligible(x)
    ensures FaultlessRun(run) && run != [] && run[|run| - 1] == StateOf(x, true, true, true, SyncIdle, Idle)
  {
    hide Eligible, PodText, InstanceId, FaultlessRun, Moves, RouteOf, OnlyStored;
    WorkerCreates(x);
    StoredAtStart(x);
    run := RunBegins(StateOf(x, true, false, false, SyncIdle, Idle));
    run := RunExtends(run, StateOf(x, true, false, false, SyncIdle, Finding(x)), x);
    run := RunExtends(run, StateOf(x, true, false, false, SyncIdle, Creating(x)), x);
    run := RunExtends(run, StateOf(x, true, true, false, SyncIdle, Caching(x, RouteOf(x))), x);
    run := RunExtends(run, StateOf(x, true, true, true, SyncIdle, Idle), x);
  }

  /** A pass lists the nodes; then the node goes away and the worker removes its route. */
  lemma RouteIsRemoved(x: Node, before: seq<State>) returns (run: seq<State>)
    requires FaultlessRun(before) && before[|before| - 1] == StateOf(x, true, true, true, SyncIdle, Idle)
    requires Eligible(x)
    ensures FaultlessRun(run) && |run| >= 2
    ensures run[|run| - 2] == StateOf(x, false, true, true, SyncListing([x]), Removing(x.name, PodText(x)))
    ensures run[|run| - 1] == StateOf(x, false, false, true, SyncListing([x]), Forgetting(x.name))
  {
    hide Eligible, PodText, InstanceId, FaultlessRun, Moves, OnlyStored;
    PassListsNode(x, true, true);
    NodeMoves(x, true, false, true, true, SyncListing([x]), Idle);
    WorkerMisses(x, true, true, SyncListing([x]));
    WorkerDeletes(x, false, SyncListing([x]));
    run := RunExtends(before, StateOf(x, true, true, true, SyncListing([x]), Idle), x);
    run := RunExtends(run, StateOf(x, false, true, true, SyncListing([x]), Idle), x);
    run := RunExtends(run, StateOf(x, false, true, true, SyncListing([x]), Missing(x.name)), x);
    run := RunExtends(run, StateOf(x, false, true, true, SyncListing([x]), Removing(x.name, PodText(x))), x);
    run := RunExtends(run, StateOf(x, false, false, true, SyncListing([x]), Forgetting(x.name)), x);
  }

  lemma WorkerForgets(x: Node)
    ensures var s := StateOf(x, false, true, true, SyncCaching([x], [], 0, RouteOf(x)), Forgetting(x.name));
            var s' := StateOf(x, false, true, false, SyncCaching([x], [], 0, RouteOf(x)), Idle);
            WorkerForget(s, s') && Moves(s, s')
  {
    hide PodText, InstanceId, SyncStep;
  }

  /** The route of x is deleted by the worker at i, its cache entry is dropped at k, and in the end x is
      gone, its name is not cached, and its route is there. */
  ghost predicate Resurrected(run: seq<State>, x: Node, i: nat, k: nat) {
    && i < k < |run| - 1
    && run[i].worker == Removing(x.name, PodText(x))
    && PodText(x) in run[i].table && PodText(x) !in run[i + 1].table
    && run[k].worker == Forgetting(x.name) && WorkerForget(run[k], run[k + 1])
    && x.name in run[k].cache
    && var last := run[|run| - 1];
       last.worker == Idle && last.nodes == map[] && last.cache == map[] && PodText(x) in last.table
  }

  lemma ResurrectedBy(run: seq<State>, x: Node, i: nat, k: nat)
    requires i < k && k + 2 == |run|
    requires run[i] == StateOf(x, false, true, true, SyncListing([x]), Removing(x.name, PodText(x)))
    requires run[i + 1] == StateOf(x, false, false, true, SyncListing([x]), Forgetting(x.name))
    requires run[k] == StateOf(x, false, true, true, SyncCaching([x], [], 0, RouteOf(x)), Forgetting(x.name))
    requires run[k + 1] == StateOf(x, false, true, false, SyncCaching([x], [], 0, RouteOf(x)), Idle)
    requires WorkerForget(run[k], run[k + 1])
    ensures Resurrected(run, x, i, k)
  {
    hide PodText, InstanceId, RouteOf, WorkerForget;
  }

  /** For every node that is ever given a route there is a run without any fault in which the node goes
      away, its route is deleted and its cache entry dropped, and yet the route is there at the end,
      because a pass had listed the node before. */
  lemma StaleSnapshotResurrects(x: Node)
    requires Eligible(x)
    ensures exists run: seq<State>, i: nat, k: nat :: FaultlessRun(run) && Resurrected(run, x, i, k)
  {
    hide *;
    var run := RouteIsCached(x);
    run := RouteIsRemoved(x, run);
    var removed := run;
    var i := |run| - 2;
    run := PassRuns(x, run, false, true, Forgetting(x.name));
    var back := run;
    var k := |run| - 1;
    WorkerForgets(x);
    run := RunExtends(run, StateOf(x, false, true, false, SyncCaching([x], [], 0, RouteOf(x)), Idle), x);
    assert back <= run && removed <= back;
    assert run[i] == removed[i] && run[i + 1] == removed[i + 1] && run[k] == back[k];
    ResurrectedBy(run, x, i, k);
  }

  // ---------- A removal that hits a node that has come back ----------

  /** The pass creates the node's route and has yet to cache it. */
  lemma RouteIsUncached(x: Node) returns (run: seq<State>)
    requires Eligible(x)
    ensures FaultlessRun(run) && run != [] && OnlyStored(run, x)
    ensures run[|run| - 1] == StateOf(x, true, true, false, SyncCaching([x], [], 0, RouteOf(x)), Idle)
  {
    hide Eligible, PodText, InstanceId, FaultlessRun, Moves, OnlyStored, RouteOf;
    PassListsNode(x, false, false);
    StoredAtStart(x);
    run := RunBegins(StateOf(x, true, false, false, SyncIdle, Idle));
    run := RunExtends(run, StateOf(x, true, false, false, SyncListing([x]), Idle), x);
    run := PassRuns(x, run, true, false, Idle);
  }

  lemma PassCaches(x: Node)
    ensures Moves(StateOf(x, true, true, false, SyncCaching([x], [], 0, RouteOf(x)), Missing(x.name)),
                  StateOf(x, true, true, true, SyncAdding([x], [], 1), Missing(x.name)))
  {
    hide PodText, InstanceId, WorkerStep;
    assert CacheOne(StateOf(x, true, true, false, SyncCaching([x], [], 0, RouteOf(x)), Missing(x.name)),
                    StateOf(x, true, true, true, SyncAdding([x], [], 1), Missing(x.name)));
  }

  /** The worker reads that the node is gone; the node comes back and the pass caches it; then the worker
      reads the cache and deletes the route. */
  lemma RouteIsLost(x: Node, before: seq<State>) returns (run: seq<State>)
    requires Eligible(x)
    requires FaultlessRun(before) && OnlyStored(before, x)
    requires before[|before| - 1] == StateOf(x, true, true, false, SyncCaching([x], [], 0, RouteOf(x)), Idle)
    ensures FaultlessRun(run) && OnlyStored(run, x) && |run| >= 2
    ensures run[|run| - 2] == StateOf(x, true, true, true, SyncAdding([x], [], 1), Removing(x.name, PodText(x)))
    ensures run[|run| - 1] == StateOf(x, true, false, true, SyncAdding([x], [], 1), Forgetting(x.name))
  {
    hide Eligible, PodText, InstanceId, FaultlessRun, Moves, OnlyStored;
    var pc := SyncCaching([x], [], 0, RouteOf(x));
    NodeMoves(x, true, false, true, false, pc, Idle);
    WorkerMisses(x, true, false, pc);
    NodeMoves(x, false, true, true, false, pc, Missing(x.name));
    PassCaches(x);
    WorkerDeletes(x, true, SyncAdding([x], [], 1));
    run := RunExtends(before, StateOf(x, false, true, false, pc, Idle), x);
    run := RunExtends(run, StateOf(x, false, true, false, pc, Missing(x.name)), x);
    run := RunExtends(run, StateOf(x, true, true, false, pc, Missing(x.name)), x);
    run := RunExtends(run, StateOf(x, true, true, true, SyncAdding([x], [], 1), Missing(x.name)), x);
    run := RunExtends(run, StateOf(x, true, true, true, SyncAdding([x], [], 1), Removing(x.name, PodText(x))), x);
    run := RunExtends(run, StateOf(x, true, false, true, SyncAdding([x], [], 1), Forgetting(x.name)), x);
  }

  lemma OwnsOwn(x: Node)
    ensures Owns(x, Owners(StateOf(x, true, true, true, SyncIdle, Idle).table))
    ensures !Owns(x, Owners(StateOf(x, true, false, true, SyncIdle, Idle).table))
  {
    hide PodText, InstanceId;
  }

  /** At k the node is stored and has its route, and the next step takes the route away. */
  ghost predicate Lost(run: seq<State>, x: Node, k: nat) {
    && k + 1 < |run|
    && x.name in run[k].nodes && run[k].nodes[x.name] == x
    && Owns(x, Owners(run[k].table)) && !Owns(x, Owners(run[k + 1].table))
  }

  /** For every node that is ever given a route there is a run without any fault, in which no other node
      is ever seen and in no state a cached node is gone, and in which the worker deletes the node's
      correct route while the node is there: it came back between the worker's reads of the nodes and of
      the cache, and a pass cached it in between. */
  lemma LateLookDeletesCorrectRoute(x: Node)
    requires Eligible(x)
    ensures exists run: seq<State>, k: nat :: FaultlessRun(run) && OnlyStored(run, x) && Lost(run, x, k)
  {
    hide Eligible, PodText, InstanceId, FaultlessRun, OnlyStored, Owns, Owners, RouteOf;
    var run := RouteIsUncached(x);
    run := RouteIsLost(x, run);
    OwnsOwn(x);
    var k := |run| - 2;
    assert run[k].table == StateOf(x, true, true, true, SyncIdle, Idle).table;
    assert run[k + 1].table == StateOf(x, true, false, true, SyncIdle, Idle).table;
    assert run[k].nodes == map[x.name := x];
    assert Lost(run, x, k);
  }

  // ---------- A pass that listed the node before it had its instance ----------

  /** x0 is the node x before its instance is known. */
  predicate Before(x0: Node, x: Node) {
    && x0.name == x.name
    && PodRouteOf(x0) == PodRouteOf(x)
    && InstanceId(x0) == ""
    && !HasExcludeLabel(x0.labels)
  }

  /** A state in which x0, and once it has changed x, is the node stored. */
  function Early(x0: Node, x: Node, changed: bool, routed: bool, cached: bool, sync: SyncPc, worker: WorkerPc): State {
    var r := CloudRoute(0, PodText(x), [InstanceId(x)]);
    State(if routed then map[PodText(x) := r] else map[],
          if cached then map[x.name := ToRoute(r)] else map[],
          if changed then map[x.name := x] else map[x.name := x0],
          sync, worker, if changed then {x0, x} else {x0})
  }

  lemma EarlyStart(x0: Node, x: Node)
    requires Before(x0, x)
    ensures Init(Early(x0, x, false, false, false, SyncIdle, Idle))
    ensures Moves(Early(x0, x, false, false, false, SyncIdle, Idle), Early(x0, x, false, false, false, SyncListing([x0]), Idle))
  {
    hide PodText, InstanceId, PodRouteOf, WorkerStep;
    var nodes := map[x.name := x0];
    assert x.name in nodes && nodes[x.name] == x0 && nodes.Values == {x0};
    assert ListNodes(Early(x0, x, false, false, false, SyncIdle, Idle), Early(x0, x, false, false, false, SyncListing([x0]), Idle));
  }

  lemma InstanceIsSet(x0: Node, x: Node)
    ensures Moves(Early(x0, x, false, false, false, SyncListing([x0]), Idle), Early(x0, x, true, false, false, SyncListing([x0]), Idle))
  {
    hide PodText, InstanceId, SyncStep, WorkerStep;
    var nodes := map[x.name := x];
    assert nodes[x.name] == x && nodes.Values == {x};
    assert NodesStep(Early(x0, x, false, false, false, SyncListing([x0]), Idle), Early(x0, x, true, false, false, SyncListing([x0]), Idle));
  }

  lemma WorkerFindsNoRoute(x0: Node, x: Node)
    requires Eligible(x)
    ensures var pc := SyncListing([x0]);
            && Moves(Early(x0, x, true, false, false, pc, Idle), Early(x0, x, true, false, false, pc, Finding(x)))
            && Moves(Early(x0, x, true, false, false, pc, Finding(x)), Early(x0, x, true, false, false, pc, Creating(x)))
  {
    hide Eligible, PodText, InstanceId, SyncStep;
    var nodes := map[x.name := x];
    assert nodes[x.name] == x;
  }

  lemma WorkerAddsRoute(x0: Node, x: Node)
    requires Eligible(x)
    ensures var pc := SyncListing([x0]);
            && Moves(Early(x0, x, true, false, false, pc, Creating(x)), Early(x0, x, true, true, false, pc, Caching(x, RouteOf(x))))
            && Moves(Early(x0, x, true, true, false, pc, Caching(x, RouteOf(x))), Early(x0, x, true, true, true, pc, Idle))
  {
    hide Eligible, PodText, InstanceId, SyncStep, CreateOutcome;
    FreshRoute(x);
    assert WorkerCreate(Early(x0, x, true, false, false, SyncListing([x0]), Creating(x)),
                        Early(x0, x, true, true, false, SyncListing([x0]), Caching(x, RouteOf(x))));
  }

  lemma PassListsRoute(x0: Node, x: Node)
    requires PodText(x) != DEFAULT_DEST
    ensures Moves(Early(x0, x, true, true, true, SyncListing([x0]), Idle),
                  Early(x0, x, true, true, true, SyncDeleting([x0], [RouteOf(x)], 0), Idle))
  {
    hide PodText, InstanceId, WorkerStep, RouteOf, Lists;
    var s := Early(x0, x, true, true, true, SyncListing([x0]), Idle);
    RouteIsListed(x, s.table);
    assert ListRoutes(s, Early(x0, x, true, true, true, SyncDeleting([x0], [RouteOf(x)], 0), Idle));
  }

  lemma RouteIsListed(x: Node, t: Table)
    requires PodText(x) != DEFAULT_DEST && t == map[PodText(x) := CloudRoute(0, PodText(x), [InstanceId(x)])]
    ensures Lists([RouteOf(x)], t)
  {
    hide PodText, InstanceId;
    assert [RouteOf(x)][0].dest == PodText(x);
  }

  lemma PassTakesRoute(x0: Node, x: Node)
    requires Eligible(x) && Before(x0, x) && IsV4(PodRouteOf(x).net)
    ensures Moves(Early(x0, x, true, true, true, SyncDeleting([x0], [RouteOf(x)], 0), Idle),
                  Early(x0, x, true, false, true, SyncDeleting([x0], [RouteOf(x)], 1), Idle))
  {
    hide PodRouteOf, InstanceId, ConflictsWith, WorkerStep, NeedsSync;
    OwnRoute(x0, InstanceId(x));
    assert ConflictsWith([x0][0], PodText(x), InstanceId(x));
    var s := Early(x0, x, true, true, true, SyncDeleting([x0], [RouteOf(x)], 0), Idle);
    var s' := Early(x0, x, true, false, true, SyncDeleting([x0], [RouteOf(x)], 1), Idle);
    assert DeleteOutcome(s.table, s'.table, PodText(x), false);
    assert DeleteOne(s, s');
  }

  lemma EarlyOwns(x0: Node, x: Node)
    ensures Owns(x, Owners(Early(x0, x, true, true, true, SyncIdle, Idle).table))
    ensures !Owns(x, Owners(Early(x0, x, true, false, true, SyncIdle, Idle).table))
  {
    hide PodText, InstanceId;
  }

  /** For every node with an IPv4 pod CIDR that is ever given a route there is a run without any fault and
      without any removal by the worker, in which a pass deletes the node's correct route: the pass had
      listed the node before its instance was known, so that the route that the worker has created since
      looks like that of another instance. */
  lemma EarlySnapshotDeletesCorrectRoute(x0: Node, x: Node)
    requires Eligible(x) && Before(x0, x) && IsV4(PodRouteOf(x).net) && PodText(x) != DEFAULT_DEST
    ensures exists run: seq<State>, k: nat :: FaultlessRun(run) && NoRemoval(run) && Lost(run, x, k)
  {
    hide Eligible, PodText, InstanceId, PodRouteOf, FaultlessRun, Moves, OnlyStored, Owns, Owners, RouteOf, NoRemoval, Before;
    var listing := SyncListing([x0]);
    EarlyStart(x0, x);
    InstanceIsSet(x0, x);
    WorkerFindsNoRoute(x0, x);
    WorkerAddsRoute(x0, x);
    PassListsRoute(x0, x);
    PassTakesRoute(x0, x);
    EarlyOwns(x0, x);
    var run := RunBegins(Early(x0, x, false, false, false, SyncIdle, Idle));
    assert NoRemoval(run) by { StartsWithout(x0, x); }
    run := RunExtends(run, Early(x0, x, false, false, false, listing, Idle), x);
    run := RunExtends(run, Early(x0, x, true, false, false, listing, Idle), x);
    run := RunExtends(run, Early(x0, x, true, false, false, listing, Finding(x)), x);
    run := RunExtends(run, Early(x0, x, true, false, false, listing, Creating(x)), x);
    run := RunExtends(run, Early(x0, x, true, true, false, listing, Caching(x, RouteOf(x))), x);
    run := RunExtends(run, Early(x0, x, true, true, true, listing, Idle), x);
    run := RunExtends(run, Early(x0, x, true, true, true, SyncDeleting([x0], [RouteOf(x)], 0), Idle), x);
    var before := run;
    run := RunExtends(run, Early(x0, x, true, false, true, SyncDeleting([x0], [RouteOf(x)], 1), Idle), x);
    var k := |before| - 1;
    assert run[k] == before[k];
    assert run[k].table == Early(x0, x, true, true, true, SyncIdle, Idle).table;
    assert run[k + 1].table == Early(x0, x, true, false, true, SyncIdle, Idle).table;
    assert Lost(run, x, k);
  }

  lemma StartsWithout(x0: Node, x: Node)
    ensures NoRemoval([Early(x0, x, false, false, false, SyncIdle, Idle)])
  {
  }
}
