/** What removing a node leaves behind in the interleaved controller, and when a pass that still holds
    the node can undo the removal. */
module Removal {
  import opened Wrappers
  import opened Nodes
  import opened Conflicts
  import opened Routes
  import opened Interleaving
  import opened Simulation

  /** The node objects of this name that are stored or held have this pod CIDR, or none as yet. */
  ghost predicate OneLife(s: State, name: string, cidr: string) {
    forall n :: n in Held(s) && n.name == name ==> PodText(n) == cidr || PodText(n) == ""
  }

  /** What is cached for the name, or being removed for it, is this destination. */
  ghost predicate Remembers(s: State, name: string, cidr: string) {
    && (name in s.cache ==> s.cache[name].dest == cidr)
    && (s.worker.Removing? && s.worker.name == name ==> s.worker.dest == cidr)
  }

  lemma PassRemembers(s: State, s': State, name: string, cidr: string)
    requires SyncInv(s) && OneLife(s, name, cidr) && Remembers(s, name, cidr) && SyncStep(s, s')
    ensures Remembers(s', name, cidr)
  {
    hide Eligible, PodText, InstanceId, Conflict, Lists, AfterLookup, CreateOutcome, DeleteOutcome;
    if CacheOne(s, s') {
      assert s.sync.nodes[s.sync.j] in Held(s);
    }
  }

  lemma WorkerRemembers(s: State, s': State, name: string, cidr: string)
    requires WorkerInv(s) && OneLife(s, name, cidr) && Remembers(s, name, cidr) && WorkerStep(s, s')
    ensures Remembers(s', name, cidr)
  {
    hide Eligible, PodText, InstanceId, CreateOutcome, DeleteOutcome, Known;
    if WorkerCache(s, s') {
      assert s.worker.node in Held(s);
    }
  }

  /** Over one life of a node name, from any state at which nothing else is cached or being removed for it:
      as long as the node objects of that name that are stored or held have one pod CIDR, or none as yet,
      that is what is cached for the name and what its removal deletes, whatever nodes have borne the name
      before. */
  lemma {:induction false} CachedDestination(run: seq<State>, b: nat, k: nat, name: string, cidr: string)
    requires Run(run) && b <= k < |run| && Remembers(run[b], name, cidr)
    requires forall j :: b <= j < k ==> OneLife(run[j], name, cidr)
    ensures name in run[k].cache ==> run[k].cache[name].dest == cidr
    ensures run[k].worker.Removing? && run[k].worker.name == name ==> run[k].worker.dest == cidr
    decreases k
  {
    hide SyncStep, WorkerStep, OneLife, SyncInv, WorkerInv, TableInv, CacheInv;
    if b < k {
      CachedDestination(run, b, k - 1, name, cidr);
      InvHolds(run, k - 1);
      assert Step(run[k - 1], run[k]);
      if SyncStep(run[k - 1], run[k]) {
        PassRemembers(run[k - 1], run[k], name, cidr);
      } else if WorkerStep(run[k - 1], run[k]) {
        WorkerRemembers(run[k - 1], run[k], name, cidr);
      }
    }
  }

  /** A removal that fails keeps the cache entry, so that the next attempt, if nothing is cached or forgotten
      in between, has the same destination; one that succeeds leaves no route there. */
  lemma RemovalOutcome(s: State, s': State)
    requires WorkerRemove(s, s')
    ensures s'.cache == s.cache
    ensures s'.worker == Idle || s'.worker == Forgetting(s.worker.name)
    ensures s'.worker != Idle ==> s.worker.dest !in s'.table
    ensures s'.worker == Idle && s.worker.name in s.cache && s.cache[s.worker.name].dest == s.worker.dest ==>
              forall a, b :: WorkerLook(a, b) && a.worker == Missing(s.worker.name) && a.cache == s'.cache ==> b.worker == s.worker
  {
  }

  // ---------- What the pass under way can still bring back ----------

  /** Of the pass's nodes from the j-th on, some eligible one has this pod CIDR. */
  ghost predicate Wanted(nodes: seq<Node>, j: nat, cidr: string) {
    exists k :: j <= k < |nodes| && Eligible(nodes[k]) && PodText(nodes[k]) == cidr
  }

  /** The pass has yet to deal with an eligible node of its own with this pod CIDR, and its listing, if it
      has one, lacks the destination; or it is about to create it. */
  ghost predicate Pending(s: State, cidr: string) {
    match s.sync
    case SyncIdle => false
    case SyncListing(nodes) => Wanted(nodes, 0, cidr)
    case SyncDeleting(nodes, routes, _) => !Hit(routes, cidr) && Wanted(nodes, 0, cidr)
    case SyncAdding(nodes, routes, j) => !Hit(routes, cidr) && Wanted(nodes, j, cidr)
    case SyncCreating(nodes, routes, j) =>
      (j < |nodes| && PodText(nodes[j]) == cidr) || (!Hit(routes, cidr) && Wanted(nodes, j + 1, cidr))
    case SyncCaching(nodes, routes, j, _) => !Hit(routes, cidr) && Wanted(nodes, j + 1, cidr)
  }

  ghost predicate CanRestore(s: State, cidr: string) {
    exists s' :: Leads(ThePass, s, s') && cidr in s'.table
  }

  ghost predicate CanRecache(s: State, name: string) {
    exists s' :: Leads(ThePass, s, s') && name in s'.cache
  }

  lemma NotPendingStep(s: State, s': State, cidr: string)
    requires SyncInv(s) && PassStep(s, s') && !Pending(s, cidr) && cidr !in s.table
    ensures !Pending(s', cidr) && cidr !in s'.table
  {
    hide Eligible, PodText, InstanceId, Conflict, Lists, SetIfAbsent;
  }

  lemma {:induction false} NotPendingStays(s: State, s': State, cidr: string, n: nat)
    requires Inv(s) && !Pending(s, cidr) && cidr !in s.table && Path(ThePass, s, s', n)
    ensures cidr !in s'.table
    decreases n
  {
    hide SyncStep, WorkerStep, NodesStep, Pending, SyncInv, WorkerInv, CacheInv, TableInv;
    if n > 0 {
      var m :| PassStep(s, m) && Path(ThePass, m, s', n - 1);
      NotPendingStep(s, m, cidr);
      StepKeepsInv(s, m);
      NotPendingStays(m, s', cidr, n - 1);
    }
  }

  /** Of the pass's nodes from the j-th on, some eligible one has this name. */
  ghost predicate Named(nodes: seq<Node>, j: nat, name: string) {
    exists k :: j <= k < |nodes| && Eligible(nodes[k]) && nodes[k].name == name
  }

  /** The pass has yet to cache a route for an eligible node of its own with this name. */
  ghost predicate Recaching(s: State, name: string) {
    match s.sync
    case SyncIdle => false
    case SyncListing(nodes) => Named(nodes, 0, name)
    case SyncDeleting(nodes, _, _) => Named(nodes, 0, name)
    case SyncAdding(nodes, _, j) => Named(nodes, j, name)
    case SyncCreating(nodes, _, j) => (j < |nodes| && nodes[j].name == name) || Named(nodes, j + 1, name)
    case SyncCaching(nodes, _, j, _) => (j < |nodes| && nodes[j].name == name) || Named(nodes, j + 1, name)
  }

  lemma NotRecachingStep(s: State, s': State, name: string)
    requires PassStep(s, s') && !Recaching(s, name) && name !in s.cache
    ensures !Recaching(s', name) && name !in s'.cache
  {
    hide Eligible, PodText, InstanceId, Conflict, Lists, CreateOutcome;
  }

  lemma {:induction false} NotRecachingStays(s: State, s': State, name: string, n: nat)
    requires !Recaching(s, name) && name !in s.cache && Path(ThePass, s, s', n)
    ensures name !in s'.cache
    decreases n
  {
    hide SyncStep, Recaching;
    if n > 0 {
      var m :| PassStep(s, m) && Path(ThePass, m, s', n - 1);
      NotRecachingStep(s, m, name);
      NotRecachingStays(m, s', name, n - 1);
    }
  }

  // ---------- Where the pass under way can get ----------

  /** Every table can be listed. */
  lemma {:induction false} SomeListing(t: Table, left: set<string>) returns (routes: seq<Route>)
    requires forall d :: d in t ==> t[d].dest == d
    requires left <= t.Keys
    ensures forall i :: 0 <= i < |routes| ==>
              routes[i].dest in left && routes[i].dest != DEFAULT_DEST && routes[i] == ToRoute(t[routes[i].dest])
    ensures forall i, j :: 0 <= i < j < |routes| ==> routes[i].dest != routes[j].dest
    ensures forall d :: d in left && d != DEFAULT_DEST ==> Hit(routes, d)
    decreases left
  {
    if left == {} {
      routes := [];
    } else {
      var d :| d in left;
      var rest := SomeListing(t, left - {d});
      routes := if d == DEFAULT_DEST then rest else rest + [ToRoute(t[d])];
      forall e | e in left && e != DEFAULT_DEST
        ensures Hit(routes, e)
      {
        if e == d {
          assert routes[|rest|].dest == d;
        } else {
          assert e in left - {d};
          var i :| 0 <= i < |rest| && rest[i].dest == e;
          assert routes[i].dest == e;
        }
      }
    }
  }

  lemma CreationFails(s: State) returns (s': State)
    requires s.sync.SyncCreating? && s.sync.j < |s.sync.nodes|
    ensures PassStep(s, s')
    ensures s'.table == s.table && s'.sync == SyncAdding(s.sync.nodes, s.sync.routes, s.sync.j + 1)
  {
    hide PodText, InstanceId;
    var node := s.sync.nodes[s.sync.j];
    s' := s.(sync := SyncAdding(s.sync.nodes, s.sync.routes, s.sync.j + 1));
    assert CreateOutcome(s.table, s'.table, InstanceId(node), PodText(node), true, None);
    assert CreateOne(s, s');
  }

  lemma CreationWorks(s: State) returns (s': State)
    requires s.sync.SyncCreating? && s.sync.j < |s.sync.nodes| && PodText(s.sync.nodes[s.sync.j]) !in s.table
    ensures PassStep(s, s') && PodText(s.sync.nodes[s.sync.j]) in s'.table
  {
    hide PodText, InstanceId;
    var node := s.sync.nodes[s.sync.j];
    var r := CloudRoute(0, PodText(node), [InstanceId(node)]);
    s' := s.(sync := SyncAdding(s.sync.nodes, s.sync.routes, s.sync.j + 1), table := s.table[PodText(node) := r]);
    assert CreateOutcome(s.table, s'.table, InstanceId(node), PodText(node), false, None);
    assert CreateOne(s, s');
  }

  lemma CachingEnds(s: State) returns (s': State)
    requires s.sync.SyncCaching? && s.sync.j < |s.sync.nodes|
    ensures PassStep(s, s')
    ensures s'.table == s.table && s'.sync == SyncAdding(s.sync.nodes, s.sync.routes, s.sync.j + 1)
    ensures s.sync.nodes[s.sync.j].name in s'.cache
  {
    s' := s.(sync := SyncAdding(s.sync.nodes, s.sync.routes, s.sync.j + 1),
             cache := SetIfAbsent(s.cache, s.sync.nodes[s.sync.j].name, s.sync.route));
    assert CacheOne(s, s');
  }

  lemma LookupTo(s: State, next: SyncPc) returns (s': State)
    requires s.sync.SyncAdding? && s.sync.j < |s.sync.nodes|
    requires AfterLookup(s, s.sync.nodes, s.sync.routes, s.sync.j, next)
    ensures PassStep(s, s') && s' == s.(sync := next)
  {
    hide AfterLookup;
    s' := s.(sync := next);
    assert LookUpOne(s, s');
  }

  /** The creation may succeed, or find the destination taken; either way the route is to be cached. */
  lemma CreationFinds(s: State) returns (s': State)
    requires s.sync.SyncCreating? && s.sync.j < |s.sync.nodes|
    ensures PassStep(s, s')
    ensures s'.sync.SyncCaching? && s'.sync.nodes == s.sync.nodes && s'.sync.j == s.sync.j
  {
    hide PodText, InstanceId;
    var node := s.sync.nodes[s.sync.j];
    var cidr := PodText(node);
    var t := if cidr in s.table then s.table else s.table[cidr := CloudRoute(0, cidr, [InstanceId(node)])];
    s' := s.(sync := SyncCaching(s.sync.nodes, s.sync.routes, s.sync.j, ToRoute(t[cidr])), table := t);
    assert CreateOutcome(s.table, s'.table, InstanceId(node), cidr, false, Some(ToRoute(t[cidr])));
    assert CreateOne(s, s');
  }

  /** From the adding loop: the nodes before the k-th may pass without effect on the table. */
  lemma {:induction false} AddingArrives(s: State, k: nat) returns (s': State)
    requires s.sync.SyncAdding? && s.sync.j <= k < |s.sync.nodes|
    ensures Leads(ThePass, s, s')
    ensures s'.sync == SyncAdding(s.sync.nodes, s.sync.routes, k) && s'.table == s.table
    decreases k - s.sync.j
  {
    hide Eligible, PodText, InstanceId, PassStep, Leads;
    var nodes, routes, j := s.sync.nodes, s.sync.routes, s.sync.j;
    var d := PodText(nodes[j]);
    if j == k {
      s' := s;
      Stay(ThePass, s);
    } else if !Eligible(nodes[j]) || routes == [] {
      var s1 := LookupTo(s, SyncAdding(nodes, routes, j + 1));
      s' := AddingArrives(s1, k);
      ThenLeads(ThePass, s, s1, s');
    } else {
      var s1;
      var s2;
      if Hit(routes, d) {
        s1 := LookupTo(s, SyncCaching(nodes, routes, j, Route(d, "", 0)));
        s2 := CachingEnds(s1);
      } else {
        s1 := LookupTo(s, SyncCreating(nodes, routes, j));
        s2 := CreationFails(s1);
      }
      s' := AddingArrives(s2, k);
      ThenLeads(ThePass, s1, s2, s');
      ThenLeads(ThePass, s, s1, s');
    }
  }

  lemma EndsDeleting(s: State, s': State)
    requires EndDeleting(s, s')
    ensures PassStep(s, s')
  {
  }

  lemma DeletionFails(s: State, s': State)
    requires s.sync.SyncDeleting? && s.sync.i < |s.sync.routes|
    requires s' == s.(sync := s.sync.(i := s.sync.i + 1))
    ensures PassStep(s, s')
  {
    hide Conflict;
    assert DeleteOutcome(s.table, s'.table, s.sync.routes[s.sync.i].dest, true);
    assert DeleteOne(s, s');
  }

  /** From the deleting loop: every deletion may fail. */
  lemma {:induction false} DeletingArrives(s: State) returns (s': State)
    requires s.sync.SyncDeleting? && s.sync.i <= |s.sync.routes|
    ensures Leads(ThePass, s, s')
    ensures s'.sync == SyncAdding(s.sync.nodes, s.sync.routes, 0) && s'.table == s.table
    decreases |s.sync.routes| - s.sync.i
  {
    hide Conflict, PassStep, Leads;
    var nodes, routes, i := s.sync.nodes, s.sync.routes, s.sync.i;
    if i == |routes| {
      s' := s.(sync := SyncAdding(nodes, routes, 0));
      EndsDeleting(s, s');
      StepLeads(ThePass, s, s');
    } else {
      var s1 := s.(sync := s.sync.(i := i + 1));
      DeletionFails(s, s1);
      s' := DeletingArrives(s1);
      ThenLeads(ThePass, s, s1, s');
    }
  }

  lemma ListingArrives(s: State) returns (s': State)
    requires s.sync.SyncListing? && TableInv(s)
    ensures Leads(ThePass, s, s')
    ensures s'.sync.SyncAdding? && s'.sync.nodes == s.sync.nodes && s'.sync.j == 0 && s'.table == s.table
    ensures Lists(s'.sync.routes, s.table)
  {
    hide Leads;
    var routes := SomeListing(s.table, s.table.Keys);
    assert Lists(routes, s.table);
    var s1 := s.(sync := SyncDeleting(s.sync.nodes, routes, 0));
    assert ListRoutes(s, s1);
    s' := DeletingArrives(s1);
    ThenLeads(ThePass, s, s1, s');
  }

  /** At the k-th node the pass can add a route that neither the table nor the listing has. */
  lemma AdditionRestores(s: State) returns (s': State)
    requires s.sync.SyncAdding? && s.sync.j < |s.sync.nodes| && Eligible(s.sync.nodes[s.sync.j])
    requires !Hit(s.sync.routes, PodText(s.sync.nodes[s.sync.j])) && PodText(s.sync.nodes[s.sync.j]) !in s.table
    ensures Leads(ThePass, s, s') && PodText(s.sync.nodes[s.sync.j]) in s'.table
  {
    hide Eligible, PodText, PassStep, Leads;
    var s1 := LookupTo(s, SyncCreating(s.sync.nodes, s.sync.routes, s.sync.j));
    s' := CreationWorks(s1);
    StepLeads(ThePass, s1, s');
    ThenLeads(ThePass, s, s1, s');
  }

  /** At the k-th node the pass can end up caching a route for it. */
  lemma AdditionCaches(s: State) returns (s': State)
    requires s.sync.SyncAdding? && s.sync.j < |s.sync.nodes| && Eligible(s.sync.nodes[s.sync.j])
    ensures Leads(ThePass, s, s') && s.sync.nodes[s.sync.j].name in s'.cache
  {
    hide Eligible, PodText, PassStep, Leads;
    var nodes, routes, j := s.sync.nodes, s.sync.routes, s.sync.j;
    var d := PodText(nodes[j]);
    if routes != [] && Hit(routes, d) {
      var s1 := LookupTo(s, SyncCaching(nodes, routes, j, Route(d, "", 0)));
      s' := CachingEnds(s1);
      StepLeads(ThePass, s1, s');
      ThenLeads(ThePass, s, s1, s');
    } else if routes == [] && d in s.table {
      var s1 := LookupTo(s, SyncCaching(nodes, routes, j, ToRoute(s.table[d])));
      s' := CachingEnds(s1);
      StepLeads(ThePass, s1, s');
      ThenLeads(ThePass, s, s1, s');
    } else {
      var s1 := LookupTo(s, SyncCreating(nodes, routes, j));
      s' := CreatingCaches(s1);
      ThenLeads(ThePass, s, s1, s');
    }
  }

  lemma CreatingCaches(s: State) returns (s': State)
    requires s.sync.SyncCreating? && s.sync.j < |s.sync.nodes|
    ensures Leads(ThePass, s, s') && s.sync.nodes[s.sync.j].name in s'.cache
  {
    hide PassStep, Leads;
    var s1 := CreationFinds(s);
    s' := CachingEnds(s1);
    StepLeads(ThePass, s1, s');
    ThenLeads(ThePass, s, s1, s');
  }

  // ---------- Exactly when ----------

  lemma WantedRestores(s: State, cidr: string)
    requires s.sync.SyncAdding? && Pending(s, cidr) && cidr !in s.table
    ensures CanRestore(s, cidr)
  {
    hide Eligible, PodText, Leads;
    var k :| s.sync.j <= k < |s.sync.nodes| && Eligible(s.sync.nodes[k]) && PodText(s.sync.nodes[k]) == cidr;
    var s1 := AddingArrives(s, k);
    var s' := AdditionRestores(s1);
    LeadsOn(ThePass, s, s1, s');
  }

  lemma NamedRecaches(s: State, name: string)
    requires s.sync.SyncAdding? && Recaching(s, name)
    ensures CanRecache(s, name)
  {
    hide Eligible, Leads;
    var k :| s.sync.j <= k < |s.sync.nodes| && Eligible(s.sync.nodes[k]) && s.sync.nodes[k].name == name;
    var s1 := AddingArrives(s, k);
    var s' := AdditionCaches(s1);
    LeadsOn(ThePass, s, s1, s');
  }

  lemma RestoresThen(s: State, m: State, cidr: string)
    requires Leads(ThePass, s, m) && CanRestore(m, cidr)
    ensures CanRestore(s, cidr)
  {
    hide Leads;
    var s' :| Leads(ThePass, m, s') && cidr in s'.table;
    LeadsOn(ThePass, s, m, s');
  }

  lemma RecachesThen(s: State, m: State, name: string)
    requires Leads(ThePass, s, m) && CanRecache(m, name)
    ensures CanRecache(s, name)
  {
    hide Leads;
    var s' :| Leads(ThePass, m, s') && name in s'.cache;
    LeadsOn(ThePass, s, m, s');
  }

  lemma CreatingRestores(s: State, cidr: string)
    requires s.sync.SyncCreating? && s.sync.j < |s.sync.nodes| && Pending(s, cidr) && cidr !in s.table
    ensures CanRestore(s, cidr)
  {
    hide Wanted, CanRestore, Leads, PassStep, Eligible, PodText;
    if PodText(s.sync.nodes[s.sync.j]) == cidr {
      var s1 := CreationWorks(s);
      StepLeads(ThePass, s, s1);
      Restored(s, s1, cidr);
    } else {
      var s1 := CreationFails(s);
      StepLeads(ThePass, s, s1);
      WantedRestores(s1, cidr);
      RestoresThen(s, s1, cidr);
    }
  }

  lemma PendingRestores(s: State, cidr: string)
    requires TableInv(s) && SyncInv(s) && Pending(s, cidr) && cidr !in s.table
    ensures CanRestore(s, cidr)
  {
    hide Wanted, CanRestore, Leads, PassStep, Eligible, PodText, TableInv;
    match s.sync
    case SyncListing(_) =>
      var s1 := ListingArrives(s);
      NotListed(s1.sync.routes, s.table, cidr);
      WantedRestores(s1, cidr);
      RestoresThen(s, s1, cidr);
    case SyncDeleting(_, _, _) =>
      var s1 := DeletingArrives(s);
      WantedRestores(s1, cidr);
      RestoresThen(s, s1, cidr);
    case SyncAdding(_, _, _) =>
      WantedRestores(s, cidr);
    case SyncCreating(_, _, _) =>
      CreatingRestores(s, cidr);
    case SyncCaching(_, _, _, _) =>
      var s1 := CachingEnds(s);
      StepLeads(ThePass, s, s1);
      WantedRestores(s1, cidr);
      RestoresThen(s, s1, cidr);
  }

  lemma NotListed(routes: seq<Route>, t: Table, cidr: string)
    requires Lists(routes, t) && cidr !in t
    ensures !Hit(routes, cidr)
  {
  }

  lemma Restored(s: State, s': State, cidr: string)
    requires Leads(ThePass, s, s') && cidr in s'.table
    ensures CanRestore(s, cidr)
  {
    hide Leads;
  }

  lemma Recached(s: State, s': State, name: string)
    requires Leads(ThePass, s, s') && name in s'.cache
    ensures CanRecache(s, name)
  {
    hide Leads;
  }

  lemma RecachingRecaches(s: State, name: string)
    requires TableInv(s) && SyncInv(s) && Recaching(s, name)
    ensures CanRecache(s, name)
  {
    hide Named, CanRecache, Leads, PassStep, Eligible, PodText, TableInv;
    match s.sync
    case SyncListing(_) =>
      var s1 := ListingArrives(s);
      NamedRecaches(s1, name);
      RecachesThen(s, s1, name);
    case SyncDeleting(_, _, _) =>
      var s1 := DeletingArrives(s);
      NamedRecaches(s1, name);
      RecachesThen(s, s1, name);
    case SyncAdding(_, _, _) =>
      NamedRecaches(s, name);
    case SyncCreating(nodes, _, j) =>
      if nodes[j].name == name {
        var s1 := CreatingCaches(s);
        Recached(s, s1, name);
      } else {
        var s1 := CreationFails(s);
        StepLeads(ThePass, s, s1);
        NamedRecaches(s1, name);
        RecachesThen(s, s1, name);
      }
    case SyncCaching(nodes, _, j, _) =>
      var s1 := CachingEnds(s);
      StepLeads(ThePass, s, s1);
      if nodes[j].name == name {
        Recached(s, s1, name);
      } else {
        NamedRecaches(s1, name);
        RecachesThen(s, s1, name);
      }
  }

  /** Exactly when the pass under way can bring back a route that is not in the table. */
  lemma PassRestores(s: State, cidr: string)
    requires Inv(s) && cidr !in s.table
    ensures Pending(s, cidr) <==> CanRestore(s, cidr)
  {
    hide Pending, Path, SyncInv, WorkerInv, CacheInv, TableInv;
    if Pending(s, cidr) {
      PendingRestores(s, cidr);
    }
    if CanRestore(s, cidr) && !Pending(s, cidr) {
      var s' :| Leads(ThePass, s, s') && cidr in s'.table;
      var n :| Path(ThePass, s, s', n);
      NotPendingStays(s, s', cidr, n);
    }
  }

  /** Exactly when the pass under way can put a cache entry back that is not there: it still holds an
      eligible node with that name, or is already caching one. */
  lemma PassRecaches(s: State, name: string)
    requires Inv(s) && name !in s.cache
    ensures Recaching(s, name) <==> CanRecache(s, name)
  {
    hide Recaching, Path, SyncInv, WorkerInv, CacheInv, TableInv;
    if Recaching(s, name) {
      RecachingRecaches(s, name);
    }
    if CanRecache(s, name) && !Recaching(s, name) {
      var s' :| Leads(ThePass, s, s') && name in s'.cache;
      var n :| Path(ThePass, s, s', n);
      NotRecachingStays(s, s', name, n);
    }
  }

  // ---------- A complete removal ----------

  /** No stored node asks for a route at cidr. */
  ghost predicate NoneStored(s: State, cidr: string) {
    forall n :: n in s.nodes.Values && Eligible(n) ==> PodText(n) != cidr
  }

  /** While the worker is about to drop the cache entry, an absent route that no pass is to bring back and
      no stored node asks for stays absent. */
  lemma AbsentStep(s: State, s': State, name: string, cidr: string)
    requires Step(s, s') && SyncInv(s) && !Pending(s, cidr) && cidr !in s.table && NoneStored(s, cidr)
    requires s.worker == Forgetting(name)
    ensures cidr !in s'.table && !Pending(s', cidr)
  {
    hide SyncStep, SyncInv, Pending, NoneStored, Eligible, PodText, InstanceId, CreateOutcome, AfterGet;
    if SyncStep(s, s') {
      if s.sync == SyncIdle {
        NothingListed(s, s', cidr);
      } else {
        NotPendingStep(s, s', cidr);
      }
    } else {
      SamePass(s, s', cidr);
    }
  }

  lemma SamePass(s: State, s': State, cidr: string)
    requires s'.sync == s.sync
    ensures Pending(s', cidr) <==> Pending(s, cidr)
  {
    hide Wanted, PodText;
  }

  lemma NothingListed(s: State, s': State, cidr: string)
    requires SyncStep(s, s') && s.sync == SyncIdle && NoneStored(s, cidr)
    ensures s'.table == s.table && !Pending(s', cidr)
  {
    hide Eligible, PodText;
    assert forall n :: n in s'.sync.nodes ==> n in s.nodes.Values;
  }

  /** A removal that succeeds at state k and drops the cache entry at state m leaves neither a route nor
      an entry, provided that at the removal the pass under way cannot bring the route back and until the
      entry is dropped no stored node asks for it. */
  lemma {:induction false} RemovalIsComplete(run: seq<State>, k: nat, m: nat, name: string, cidr: string)
    requires Run(run) && k < m && m + 1 < |run|
    requires run[k].worker == Removing(name, cidr) && !Pending(run[k], cidr)
    requires forall j :: k < j <= m ==> run[j].worker == Forgetting(name) && NoneStored(run[j], cidr)
    ensures cidr !in run[m].table && cidr !in run[m + 1].table && !Pending(run[m + 1], cidr)
    ensures run[m + 1].worker == Idle ==> name !in run[m + 1].cache
    decreases m
  {
    hide Step, Pending, NoneStored, SyncInv, WorkerInv, CacheInv, TableInv;
    InvHolds(run, m);
    if m == k + 1 {
      FirstForgetting(run[k], run[m], name, cidr);
      SamePass(run[k], run[m], cidr);
    } else {
      RemovalIsComplete(run, k, m - 1, name, cidr);
    }
    AbsentStep(run[m], run[m + 1], name, cidr);
    if run[m + 1].worker == Idle {
      ForgetDrops(run[m], run[m + 1], name);
    }
  }

  lemma FirstForgetting(s: State, s': State, name: string, cidr: string)
    requires Step(s, s') && s.worker == Removing(name, cidr) && s'.worker == Forgetting(name)
    ensures cidr !in s'.table && s'.sync == s.sync
  {
    hide Eligible, PodText, InstanceId, Conflict, Lists, AfterLookup, SetIfAbsent, CreateOutcome;
    assert WorkerRemove(s, s');
  }

  lemma ForgetDrops(s: State, s': State, name: string)
    requires Step(s, s') && s.worker == Forgetting(name) && s'.worker == Idle
    ensures name !in s'.cache
  {
    hide Eligible, PodText, InstanceId, Conflict, Lists, AfterLookup, SetIfAbsent, CreateOutcome;
    assert WorkerForget(s, s');
  }
}
