/** Which routes the calls under way can delete. */
module Losses {
  import opened Nodes
  import opened Conflicts
  import opened Routes
  import opened Interleaving
  import opened Simulation
  import opened Removal

  /** The pass under way is yet to list the routes, and the visible route d conflicts with the nodes it has
      listed; or its deleting loop is yet to come to d, listed with an owner that conflicts with them. */
  ghost predicate PassDoomed(s: State, d: string) {
    match s.sync
    case SyncListing(nodes) => d != DEFAULT_DEST && d in s.table && Conflict(nodes, d, Owner(s.table[d]))
    case SyncDeleting(nodes, routes, i) => Ahead(nodes, routes, i, d)
    case _ => false
  }

  ghost predicate Ahead(nodes: seq<Node>, routes: seq<Route>, i: nat, d: string) {
    exists k :: i <= k < |routes| && routes[k].dest == d && Conflict(nodes, d, routes[k].instanceId)
  }

  /** The worker is removing d, or has read that a node is gone whose cached destination is d. */
  ghost predicate WorkerDoomed(s: State, d: string) {
    match s.worker
    case Removing(_, dest) => dest == d
    case Missing(name) => name in s.cache && s.cache[name].dest == d
    case _ => false
  }

  /** The call of this activity that is under way can delete the route d. */
  ghost predicate CanDelete(a: Activity, s: State, d: string) {
    exists s' :: Leads(a, s, s') && d !in s'.table
  }

  // ---------- The pass ----------

  lemma ListingSpares(s: State, s': State, d: string)
    requires ListRoutes(s, s') && !PassDoomed(s, d) && d in s.table
    ensures !PassDoomed(s', d)
  {
    hide Conflict;
  }

  lemma DeletionSpares(s: State, s': State, d: string)
    requires DeleteOne(s, s') && !PassDoomed(s, d) && d in s.table
    ensures !PassDoomed(s', d) && d in s'.table
  {
    hide Conflict;
  }

  lemma PassSpares(s: State, s': State, d: string)
    requires PassStep(s, s') && !PassDoomed(s, d) && d in s.table
    ensures !PassDoomed(s', d) && d in s'.table
  {
    hide Eligible, PodText, InstanceId, Conflict, AfterLookup, SetIfAbsent, Ahead, Lists, DeleteOutcome;
    if ListRoutes(s, s') {
      ListingSpares(s, s', d);
    } else if DeleteOne(s, s') {
      DeletionSpares(s, s', d);
    } else if LookUpOne(s, s') {
      LookupAdds(s, s');
    }
  }

  lemma {:induction false} PassSparesOn(s: State, s': State, d: string, n: nat)
    requires Path(ThePass, s, s', n) && !PassDoomed(s, d) && d in s.table
    ensures d in s'.table
    decreases n
  {
    hide PassStep, PassDoomed;
    if n > 0 {
      var m :| Takes(ThePass, s, m) && Path(ThePass, m, s', n - 1);
      PassSpares(s, m, d);
      PassSparesOn(m, s', d, n - 1);
    }
  }

  lemma DeletionWorks(s: State) returns (s': State)
    requires s.sync.SyncDeleting? && s.sync.i < |s.sync.routes|
    requires Conflict(s.sync.nodes, s.sync.routes[s.sync.i].dest, s.sync.routes[s.sync.i].instanceId)
    ensures PassStep(s, s') && s.sync.routes[s.sync.i].dest !in s'.table
  {
    hide Conflict;
    var d := s.sync.routes[s.sync.i].dest;
    s' := s.(sync := s.sync.(i := s.sync.i + 1), table := s.table - {d});
    assert DeleteOutcome(s.table, s'.table, d, false);
    assert DeleteOne(s, s');
  }

  /** The deletions up to the k-th listed route may fail, and that of the k-th work. */
  lemma {:induction false} DeletingReaches(s: State, k: nat) returns (s': State)
    requires s.sync.SyncDeleting? && s.sync.i <= k < |s.sync.routes|
    requires Conflict(s.sync.nodes, s.sync.routes[k].dest, s.sync.routes[k].instanceId)
    ensures Leads(ThePass, s, s') && s.sync.routes[k].dest !in s'.table
    decreases k - s.sync.i
  {
    hide Conflict, PassStep, Leads;
    if s.sync.i == k {
      s' := DeletionWorks(s);
      StepLeads(ThePass, s, s');
    } else {
      var m := s.(sync := s.sync.(i := s.sync.i + 1));
      DeletionFails(s, m);
      s' := DeletingReaches(m, k);
      ThenLeads(ThePass, s, m, s');
    }
  }

  lemma ListingReaches(s: State, d: string) returns (s': State)
    requires s.sync.SyncListing? && TableInv(s) && PassDoomed(s, d)
    ensures Leads(ThePass, s, s') && d !in s'.table
  {
    hide Conflict, Leads;
    var routes := SomeListing(s.table, s.table.Keys);
    assert Lists(routes, s.table);
    var m := s.(sync := SyncDeleting(s.sync.nodes, routes, 0));
    assert ListRoutes(s, m);
    var k :| 0 <= k < |routes| && routes[k].dest == d;
    s' := DeletingReaches(m, k);
    ThenLeads(ThePass, s, m, s');
  }

  /** Exactly when the pass under way can delete a route. */
  lemma PassDeletes(s: State, d: string)
    requires TableInv(s) && d in s.table
    ensures CanDelete(ThePass, s, d) <==> PassDoomed(s, d)
  {
    hide Conflict, Path, TableInv;
    if PassDoomed(s, d) {
      if s.sync.SyncListing? {
        var s' := ListingReaches(s, d);
      } else {
        var k :| s.sync.i <= k < |s.sync.routes| && s.sync.routes[k].dest == d &&
                 Conflict(s.sync.nodes, d, s.sync.routes[k].instanceId);
        var s' := DeletingReaches(s, k);
      }
    } else if s' :| Leads(ThePass, s, s') && d !in s'.table {
      var n :| Path(ThePass, s, s', n);
      PassSparesOn(s, s', d, n);
    }
  }

  // ---------- The worker ----------

  lemma WorkerSpares(s: State, s': State, d: string)
    requires Takes(TheWorker, s, s') && !WorkerDoomed(s, d) && d in s.table
    ensures !WorkerDoomed(s', d) && d in s'.table
  {
    hide Eligible, PodText, InstanceId, SetIfAbsent;
  }

  lemma {:induction false} WorkerSparesOn(s: State, s': State, d: string, n: nat)
    requires Path(TheWorker, s, s', n) && !WorkerDoomed(s, d) && d in s.table
    ensures d in s'.table
    decreases n
  {
    hide Takes, WorkerDoomed;
    if n > 0 {
      var m :| Takes(TheWorker, s, m) && Path(TheWorker, m, s', n - 1);
      WorkerSpares(s, m, d);
      WorkerSparesOn(m, s', d, n - 1);
    }
  }

  lemma RemovingReaches(s: State) returns (s': State)
    requires s.worker.Removing?
    ensures Leads(TheWorker, s, s') && s.worker.dest !in s'.table
  {
    hide Leads;
    s' := s.(worker := Forgetting(s.worker.name), table := s.table - {s.worker.dest});
    assert DeleteOutcome(s.table, s'.table, s.worker.dest, false);
    assert WorkerRemove(s, s');
    StepLeads(TheWorker, s, s');
  }

  /** Exactly when the worker's call under way can delete a route. */
  lemma WorkerDeletes(s: State, d: string)
    requires d in s.table
    ensures CanDelete(TheWorker, s, d) <==> WorkerDoomed(s, d)
  {
    hide Path, WorkerStep;
    if WorkerDoomed(s, d) {
      if s.worker.Removing? {
        var s' := RemovingReaches(s);
      } else {
        var m := s.(worker := Removing(s.worker.name, d));
        Looks(s, m);
        var s' := RemovingReaches(m);
        ThenLeads(TheWorker, s, m, s');
      }
    } else if s' :| Leads(TheWorker, s, s') && d !in s'.table {
      var n :| Path(TheWorker, s, s', n);
      WorkerSparesOn(s, s', d, n);
    }
  }

  lemma Looks(s: State, m: State)
    requires WorkerLook(s, m)
    ensures Takes(TheWorker, s, m)
  {
  }

  // ---------- Every loss ----------

  /** In every run, a step that takes a route away is one that the activity's call under way could be seen
      to be able to take, and no route is taken away otherwise. */
  lemma LossIsForeseen(run: seq<State>, k: nat, d: string)
    requires Run(run) && k + 1 < |run| && d in run[k].table
    ensures d !in run[k + 1].table ==> PassDoomed(run[k], d) || WorkerDoomed(run[k], d)
    ensures PassDoomed(run[k], d) || WorkerDoomed(run[k], d) <==>
              CanDelete(ThePass, run[k], d) || CanDelete(TheWorker, run[k], d)
  {
    hide PassDoomed, WorkerDoomed, CanDelete, SyncStep, WorkerStep, SyncInv, WorkerInv, CacheInv, TableInv, Init;
    InvHolds(run, k);
    PassDeletes(run[k], d);
    WorkerDeletes(run[k], d);
    var s, s' := run[k], run[k + 1];
    assert Step(s, s');
    if d !in s'.table {
      if SyncStep(s, s') {
        if s.sync == SyncIdle {
          PassOnlyLists(s, s');
        } else if !PassDoomed(s, d) {
          PassSpares(s, s', d);
        }
      } else if WorkerStep(s, s') {
        if s.worker == Idle {
          WorkerOnlyReads(s, s');
        } else if !WorkerDoomed(s, d) {
          WorkerSpares(s, s', d);
        }
      }
    }
  }

  lemma PassOnlyLists(s: State, s': State)
    requires SyncStep(s, s') && s.sync == SyncIdle
    ensures s'.table == s.table
  {
  }

  lemma WorkerOnlyReads(s: State, s': State)
    requires WorkerStep(s, s') && s.worker == Idle
    ensures s'.table == s.table
  {
    hide Eligible;
  }
}
