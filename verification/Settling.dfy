/** Convergence of the interleaved controller from any point of a run: two complete passes whose own calls
    work suffice, whatever happened before and whatever the worker does between and under them. */
module Settling {
  import opened NodeUtils
  import opened Nodes
  import opened Conflicts
  import opened Routes
  import opened Convergence
  import opened Progress
  import opened Interleaving
  import opened Runs

  /** The nodes that a pass lists include, for each of these, one with the same desire. */
  ghost predicate Includes(listed: seq<Node>, nodes: seq<Node>) {
    forall x :: x in nodes ==> HasListed(listed, x)
  }

  ghost predicate HasListed(listed: seq<Node>, x: Node) {
    exists k :: 0 <= k < |listed| && SameDesire(listed[k], x)
  }

  /** For each of these nodes one with the same desire is stored, not excluded. */
  ghost predicate Stored(s: State, nodes: seq<Node>) {
    forall x :: x in nodes ==> HasStored(s, x)
  }

  ghost predicate HasStored(s: State, x: Node) {
    exists n :: n in s.nodes.Values && !HasExcludeLabel(n.labels) && SameDesire(n, x)
  }

  /** From p to q the run holds one pass, which lists these nodes and whose own calls all work. */
  ghost predicate CompletePass(run: seq<State>, p: nat, q: nat, nodes: seq<Node>) {
    && p + 1 < q < |run|
    && run[p].sync == SyncIdle && run[q].sync == SyncIdle
    && Stored(run[p], nodes)
    && forall k :: p < k < q ==> run[k].sync != SyncIdle && PassWorks(run[k], run[k + 1])
  }

  // ---------- The first pass clears the conflicts ----------

  /** Every visible route that conflicts is still ahead of the deleting loop; past it there is none. */
  ghost predicate Clearing(s: State, nodes: seq<Node>) {
    match s.sync
    case SyncListing(listed) => Includes(listed, nodes)
    case SyncDeleting(listed, routes, i) =>
      Includes(listed, nodes) && i <= |routes| && AllAhead(routes, i, Conflicting(nodes, Owners(s.table)))
    case _ => NoConflicts(nodes, Owners(s.table))
  }

  ghost predicate AllAhead(routes: seq<Route>, i: nat, ds: set<string>) {
    forall d :: d in ds ==> exists k :: i <= k < |routes| && routes[k].dest == d
  }

  lemma NoneConflicting(nodes: seq<Node>, owners: map<string, string>)
    ensures NoConflicts(nodes, owners) <==> Conflicting(nodes, owners) == {}
  {
    hide Conflict;
    if NoConflicts(nodes, owners) {
      assert forall d :: d !in Conflicting(nodes, owners);
    }
    forall d | Conflicting(nodes, owners) == {} && d in owners && d != DEFAULT_DEST
      ensures !Conflict(nodes, d, owners[d])
    {
      assert d !in Conflicting(nodes, owners);
    }
  }

  /** What one step does to the table. */
  ghost predicate OneChange(nodes: seq<Node>, t: Table, t': Table) {
    OneWrite(nodes, t, t') || ForeignRemoval(nodes, t, t')
  }

  /** One step adds no conflicting route. */
  lemma NoNewConflicts(nodes: seq<Node>, t: Table, t': Table)
    requires Compatible(nodes) && OneChange(nodes, t, t')
    ensures Conflicting(nodes, Owners(t')) <= Conflicting(nodes, Owners(t))
  {
    hide Eligible, PodText, InstanceId, Conflict, Claimed;
    if t' != t && OneWrite(nodes, t, t') {
      var w :| Legal(nodes, t, w) && t' == Apply(t, w);
    }
  }

  lemma WhatListed(s: State, s': State, nodes: seq<Node>)
    requires ListNodes(s, s') && Stored(s, nodes)
    ensures Includes(s'.sync.nodes, nodes)
  {
    hide SameDesire;
    forall x | x in nodes
      ensures HasListed(s'.sync.nodes, x)
    {
      assert HasStored(s, x);
      var n :| n in s.nodes.Values && !HasExcludeLabel(n.labels) && SameDesire(n, x);
      assert n in s'.sync.nodes;
    }
  }

  lemma AllListed(routes: seq<Route>, t: Table, nodes: seq<Node>)
    requires Lists(routes, t)
    ensures AllAhead(routes, 0, Conflicting(nodes, Owners(t)))
  {
    hide Conflict;
    forall d | d in Conflicting(nodes, Owners(t))
      ensures exists k :: 0 <= k < |routes| && routes[k].dest == d
    {
      assert Hit(routes, d);
    }
  }

  /** What conflicts with these nodes conflicts with those listed. */
  lemma ListedConflict(listed: seq<Node>, nodes: seq<Node>, d: string, owner: string)
    requires Includes(listed, nodes) && Conflict(nodes, d, owner)
    ensures Conflict(listed, d, owner)
  {
    hide SameDesire, ConflictsWith;
    var i :| 0 <= i < |nodes| && ConflictsWith(nodes[i], d, owner);
    assert HasListed(listed, nodes[i]);
    var k :| 0 <= k < |listed| && SameDesire(listed[k], nodes[i]);
    DesireIsMutual(listed[k], nodes[i]);
    ConflictCarriesOver(nodes[i], listed[k], d, owner);
  }

  lemma DesireIsMutual(x: Node, y: Node)
    requires SameDesire(x, y)
    ensures SameDesire(y, x)
  {
    hide Eligible, PodRouteOf, InstanceId;
  }

  /** One iteration of the deleting loop leaves the conflicts ahead of it. */
  lemma DeletionClears(s: State, s': State, nodes: seq<Node>)
    requires DeleteOne(s, s') && PassWorks(s, s') && ListingCurrent(s, nodes) && Clearing(s, nodes)
    requires Conflicting(nodes, Owners(s'.table)) <= Conflicting(nodes, Owners(s.table))
    ensures Clearing(s', nodes)
  {
    hide Conflict, Includes, DeleteOutcome, Claimed;
    var routes, i := s.sync.routes, s.sync.i;
    forall d | d in Conflicting(nodes, Owners(s'.table))
      ensures exists k :: i + 1 <= k < |routes| && routes[k].dest == d
    {
      var k :| i <= k < |routes| && routes[k].dest == d;
      if k == i {
        ListedConflict(s.sync.nodes, nodes, d, Owners(s.table)[d]);
        assert false;
      }
    }
  }

  lemma StepClears(s: State, s': State, nodes: seq<Node>)
    requires Compatible(nodes) && Step(s, s') && OneChange(nodes, s.table, s'.table)
    requires ListingCurrent(s, nodes) && s.sync != SyncIdle && PassWorks(s, s') && Clearing(s, nodes)
    ensures Clearing(s', nodes)
  {
    hide Compatible, OneChange, WorkerStep, NodesStep, Conflicting, NoConflicts, Owners, PassWorks, ListingCurrent,
         Includes, AllAhead, Conflict, Eligible, AfterLookup, CreateOutcome, Lists, InstanceId, PodText, SetIfAbsent;
    NoNewConflicts(nodes, s.table, s'.table);
    NoneConflicting(nodes, Owners(s.table));
    NoneConflicting(nodes, Owners(s'.table));
    if s'.sync == s.sync {
      StillAhead(s, s', nodes);
    } else {
      OnlyPassMoves(s, s');
      if DeleteOne(s, s') {
        DeletionClears(s, s', nodes);
      } else if ListRoutes(s, s') {
        ListingClears(s, s', nodes);
      } else if EndDeleting(s, s') {
        NothingAhead(s.sync.routes, Conflicting(nodes, Owners(s.table)));
      } else if LookUpOne(s, s') {
        LookupAdds(s, s');
      }
    }
  }

  lemma OnlyPassMoves(s: State, s': State)
    requires Step(s, s') && s'.sync != s.sync
    ensures SyncStep(s, s')
  {
    hide SyncStep, AfterGet, PodText, InstanceId, CreateOutcome, DeleteOutcome;
  }

  lemma ListingClears(s: State, s': State, nodes: seq<Node>)
    requires ListRoutes(s, s') && PassWorks(s, s') && Clearing(s, nodes)
    ensures Clearing(s', nodes)
  {
    hide Lists, Includes, AllAhead, Conflicting, NoConflicts;
    AllListed(s'.sync.routes, s.table, nodes);
  }

  lemma NothingAhead(routes: seq<Route>, ds: set<string>)
    requires AllAhead(routes, |routes|, ds)
    ensures ds == {}
  {
    assert forall d :: d !in ds;
  }

  lemma StillAhead(s: State, s': State, nodes: seq<Node>)
    requires s'.sync == s.sync && Clearing(s, nodes)
    requires Conflicting(nodes, Owners(s'.table)) <= Conflicting(nodes, Owners(s.table))
    ensures Clearing(s', nodes)
  {
    hide Includes, Conflict, Conflicting, NoConflicts;
    NoneConflicting(nodes, Owners(s.table));
    NoneConflicting(nodes, Owners(s'.table));
  }

  // ---------- The second pass adds what is missing ----------

  /** Nothing conflicts, what was listed is still there, and so is what the nodes dealt with ask for. */
  ghost predicate Filling(s: State, nodes: seq<Node>) {
    && NoConflicts(nodes, Owners(s.table))
    && match s.sync
       case SyncIdle => forall i :: 0 <= i < |nodes| && Eligible(nodes[i]) ==> PodText(nodes[i]) in s.table
       case SyncListing(listed) => Includes(listed, nodes)
       case SyncDeleting(listed, routes, _) => Includes(listed, nodes) && Present(routes, s.table, nodes)
       case SyncAdding(listed, routes, j) => Includes(listed, nodes) && Present(routes, s.table, nodes) && Filled(listed, j, s.table)
       case SyncCreating(listed, routes, j) => Includes(listed, nodes) && Present(routes, s.table, nodes) && Filled(listed, j, s.table)
       case SyncCaching(listed, routes, j, _) =>
         Includes(listed, nodes) && Present(routes, s.table, nodes) && Filled(listed, j + 1, s.table)
  }

  /** The routes listed that some node asks for are in the table. */
  ghost predicate Present(routes: seq<Route>, t: Table, nodes: seq<Node>) {
    forall k :: 0 <= k < |routes| && Claimed(nodes, routes[k].dest) ==> routes[k].dest in t
  }

  /** The eligible ones among the first j nodes have a route at their pod CIDR. */
  ghost predicate Filled(listed: seq<Node>, j: nat, t: Table) {
    forall k :: 0 <= k < j && k < |listed| && Eligible(listed[k]) ==> PodText(listed[k]) in t
  }

  /** Every route that some node asks for stays. */
  ghost predicate Keeps(nodes: seq<Node>, t: Table, t': Table) {
    forall d :: d in t && Claimed(nodes, d) ==> d in t'
  }

  /** Without conflicts no route that some node asks for is deleted. */
  lemma NothingDeleted(nodes: seq<Node>, t: Table, t': Table)
    requires Compatible(nodes) && OneChange(nodes, t, t') && NoConflicts(nodes, Owners(t))
    ensures Keeps(nodes, t, t') && NoConflicts(nodes, Owners(t'))
  {
    hide Eligible, PodText, InstanceId, Conflict, Claimed;
    NoNewConflicts(nodes, t, t');
    NoneConflicting(nodes, Owners(t));
    NoneConflicting(nodes, Owners(t'));
    if t' != t && OneWrite(nodes, t, t') {
      var w :| Legal(nodes, t, w) && t' == Apply(t, w);
    }
  }

  /** The eligible ones among the listed nodes ask for what some of these nodes ask for. */
  ghost predicate AllClaimed(listed: seq<Node>, nodes: seq<Node>) {
    forall k :: 0 <= k < |listed| && Eligible(listed[k]) ==> Claimed(nodes, PodText(listed[k]))
  }

  lemma ListedAreClaimed(s: State, nodes: seq<Node>)
    requires s.sync != SyncIdle && Covered(Held(s), nodes)
    ensures AllClaimed(s.sync.nodes, nodes)
  {
    hide Eligible, PodText, Covered, Claimed;
    forall k | 0 <= k < |s.sync.nodes| && Eligible(s.sync.nodes[k])
      ensures Claimed(nodes, PodText(s.sync.nodes[k]))
    {
      assert s.sync.nodes[k] in Held(s);
      HeldIsClaimed(Held(s), nodes, s.sync.nodes[k]);
    }
  }

  lemma PresentStays(routes: seq<Route>, listed: seq<Node>, nodes: seq<Node>, j: nat, t: Table, t': Table)
    requires Keeps(nodes, t, t') && AllClaimed(listed, nodes)
    ensures Present(routes, t, nodes) ==> Present(routes, t', nodes)
    ensures Filled(listed, j, t) ==> Filled(listed, j, t')
  {
    hide Eligible, PodText, Claimed;
  }

  lemma OneMoreFilled(listed: seq<Node>, j: nat, t: Table)
    requires Filled(listed, j, t)
    requires j < |listed| && Eligible(listed[j]) ==> PodText(listed[j]) in t
    ensures Filled(listed, j + 1, t)
  {
    hide Eligible, PodText;
  }

  lemma SameSyncFills(s: State, s': State, nodes: seq<Node>)
    requires s'.sync == s.sync && s.sync != SyncIdle && Filling(s, nodes)
    requires AllClaimed(s.sync.nodes, nodes) && Keeps(nodes, s.table, s'.table) && NoConflicts(nodes, Owners(s'.table))
    ensures Filling(s', nodes)
  {
    hide AllClaimed, Keeps, NoConflicts, Includes, Present, Filled, Eligible, PodText;
    match s.sync
    case SyncListing(_) =>
    case SyncDeleting(listed, routes, _) => PresentStays(routes, listed, nodes, 0, s.table, s'.table);
    case SyncAdding(listed, routes, j) => PresentStays(routes, listed, nodes, j, s.table, s'.table);
    case SyncCreating(listed, routes, j) => PresentStays(routes, listed, nodes, j, s.table, s'.table);
    case SyncCaching(listed, routes, j, _) => PresentStays(routes, listed, nodes, j + 1, s.table, s'.table);
  }

  lemma FirstHalfFills(s: State, s': State, nodes: seq<Node>)
    requires ListRoutes(s, s') || DeleteOne(s, s') || EndDeleting(s, s')
    requires PassWorks(s, s') && Filling(s, nodes)
    requires AllClaimed(s.sync.nodes, nodes) && Keeps(nodes, s.table, s'.table) && NoConflicts(nodes, Owners(s'.table))
    ensures Filling(s', nodes)
  {
    hide NoConflicts, Includes, Eligible, PodText, DeleteOutcome, Conflict, Claimed, AllClaimed;
  }

  lemma LookupFills(s: State, s': State, nodes: seq<Node>)
    requires LookUpOne(s, s') && PassWorks(s, s') && Filling(s, nodes) && AllClaimed(s.sync.nodes, nodes)
    ensures Filling(s', nodes)
  {
    hide NoConflicts, Includes, PodText, Present, Filled, Eligible, Claimed;
    var listed, routes, j := s.sync.nodes, s.sync.routes, s.sync.j;
    if Eligible(listed[j]) {
      HitIsPresent(routes, s.table, nodes, PodText(listed[j]));
      if s'.sync.SyncCaching? {
        OneMoreFilled(listed, j, s.table);
      }
    } else {
      OneMoreFilled(listed, j, s.table);
    }
  }

  lemma HitIsPresent(routes: seq<Route>, t: Table, nodes: seq<Node>, d: string)
    requires Present(routes, t, nodes) && Claimed(nodes, d)
    ensures Hit(routes, d) ==> d in t
  {
  }

  lemma CreationFills(s: State, s': State, nodes: seq<Node>)
    requires CreateOne(s, s') && PassWorks(s, s') && Filling(s, nodes)
    requires AllClaimed(s.sync.nodes, nodes) && Keeps(nodes, s.table, s'.table) && NoConflicts(nodes, Owners(s'.table))
    ensures Filling(s', nodes)
  {
    hide NoConflicts, Includes, PodText, Present, Filled, Eligible, CreateOutcome, InstanceId, AllClaimed, Keeps;
    var listed, routes, j := s.sync.nodes, s.sync.routes, s.sync.j;
    PresentStays(routes, listed, nodes, j, s.table, s'.table);
    OneMoreFilled(listed, j, s'.table);
  }

  lemma EndFills(s: State, s': State, nodes: seq<Node>)
    requires EndPass(s, s') && Filling(s, nodes)
    ensures Filling(s', nodes)
  {
    hide NoConflicts, PodRouteOf, InstanceId;
    forall i | 0 <= i < |nodes| && Eligible(nodes[i])
      ensures PodText(nodes[i]) in s'.table
    {
      assert HasListed(s.sync.nodes, nodes[i]);
      var k :| 0 <= k < |s.sync.nodes| && SameDesire(s.sync.nodes[k], nodes[i]);
    }
  }

  lemma StepFills(s: State, s': State, nodes: seq<Node>)
    requires Compatible(nodes) && Step(s, s') && OneChange(nodes, s.table, s'.table)
    requires s.sync != SyncIdle && PassWorks(s, s') && Filling(s, nodes) && Covered(Held(s), nodes)
    ensures Filling(s', nodes)
  {
    hide Compatible, OneChange, WorkerStep, NodesStep, NoConflicts, Owners, PassWorks, Includes, Present, Filled, Covered, Held, AllClaimed, Keeps,
         Conflict, Eligible, AfterLookup, CreateOutcome, DeleteOutcome, Lists, InstanceId, PodText, SetIfAbsent;
    NothingDeleted(nodes, s.table, s'.table);
    ListedAreClaimed(s, nodes);
    if s'.sync == s.sync {
      SameSyncFills(s, s', nodes);
    } else {
      OnlyPassMoves(s, s');
      if ListRoutes(s, s') || DeleteOne(s, s') || EndDeleting(s, s') {
        FirstHalfFills(s, s', nodes);
      } else if LookUpOne(s, s') {
        LookupFills(s, s', nodes);
      } else if CreateOne(s, s') {
        CreationFills(s, s', nodes);
      } else if EndPass(s, s') {
        EndFills(s, s', nodes);
      }
    }
  }

  // ---------- Along the run ----------

  lemma PassBegins(run: seq<State>, p: nat, q: nat, nodes: seq<Node>)
    requires Run(run) && CompletePass(run, p, q, nodes)
    ensures run[p + 1].sync.SyncListing? && Includes(run[p + 1].sync.nodes, nodes)
    ensures run[p + 1].table == run[p].table
  {
    hide Step, Stored, Includes, PassWorks;
    var s, s' := run[p], run[p + 1];
    assert Step(s, s');
    OnlyPassMoves(s, s');
    IdleLists(s, s');
    WhatListed(s, s', nodes);
  }

  lemma IdleLists(s: State, s': State)
    requires SyncStep(s, s') && s.sync == SyncIdle
    ensures ListNodes(s, s')
  {
  }

  lemma {:induction false} PassClears(run: seq<State>, b: nat, p: nat, q: nat, nodes: seq<Node>, k: nat)
    requires Compatible(nodes) && Run(run) && Quiet(run, b, nodes) && CompletePass(run, p, q, nodes) && b <= p < k <= q
    ensures Clearing(run[k], nodes)
    decreases k
  {
    hide Step, Compatible, Covered, ListingCurrent, OneWrite, ForeignRemoval, WorkerRemoves, Held, PassWorks, Stored, Clearing;
    if k == p + 1 {
      PassBegins(run, p, q, nodes);
      ListingIsClearing(run[k], nodes);
    } else {
      PassClears(run, b, p, q, nodes, k - 1);
      QuietChange(run, b, nodes, k - 1);
      StepClears(run[k - 1], run[k], nodes);
    }
  }

  lemma ListingIsClearing(s: State, nodes: seq<Node>)
    requires s.sync.SyncListing? && Includes(s.sync.nodes, nodes)
    ensures Clearing(s, nodes)
    ensures NoConflicts(nodes, Owners(s.table)) ==> Filling(s, nodes)
  {
    hide Includes, NoConflicts;
  }

  lemma {:induction false} NoConflictsStay(run: seq<State>, b: nat, nodes: seq<Node>, j: nat, m: nat)
    requires Compatible(nodes) && Run(run) && Quiet(run, b, nodes) && b <= j <= m < |run|
    requires NoConflicts(nodes, Owners(run[j].table))
    ensures NoConflicts(nodes, Owners(run[m].table))
    decreases m
  {
    hide Step, Compatible, Covered, ListingCurrent, OneWrite, ForeignRemoval, WorkerRemoves, Held, NoConflicts;
    if j < m {
      NoConflictsStay(run, b, nodes, j, m - 1);
      QuietChange(run, b, nodes, m - 1);
      NothingDeleted(nodes, run[m - 1].table, run[m].table);
    }
  }

  lemma {:induction false} PassFills(run: seq<State>, b: nat, p: nat, q: nat, nodes: seq<Node>, k: nat)
    requires Compatible(nodes) && Run(run) && Quiet(run, b, nodes) && CompletePass(run, p, q, nodes) && b <= p < k <= q
    requires NoConflicts(nodes, Owners(run[p].table))
    ensures Filling(run[k], nodes)
    decreases k
  {
    hide Step, Compatible, Covered, ListingCurrent, OneWrite, ForeignRemoval, WorkerRemoves, Held, PassWorks, Stored, Filling, NoConflicts;
    if k == p + 1 {
      PassBegins(run, p, q, nodes);
      ListingIsClearing(run[k], nodes);
    } else {
      PassFills(run, b, p, q, nodes, k - 1);
      QuietChange(run, b, nodes, k - 1);
      StepFills(run[k - 1], run[k], nodes);
    }
  }

  lemma FilledIsConverged(s: State, nodes: seq<Node>)
    requires Compatible(nodes) && IPv4Pods(nodes) && Filling(s, nodes) && s.sync == SyncIdle
    ensures Converged(nodes, Owners(s.table))
  {
    hide PodText, InstanceId, PodRouteOf, Conflict;
    forall i | 0 <= i < |nodes| && Eligible(nodes[i])
      ensures Owns(nodes[i], Owners(s.table))
    {
      var d := PodText(nodes[i]);
      OnlyOwnerFits(nodes, i, Owners(s.table)[d]);
    }
  }

  /** From any point of any run at which no deleting loop is under way, whatever happened before, as long as
      what the stored and held nodes ask for stays the same and no route they ask for is removed for a node
      that seemed gone: once two passes over nodes with these desires have been completed without a failing
      call of their own, the table is converged and stays so, whatever the worker does before, between and
      under them and whatever of its calls fail. */
  lemma TwoPassesSettle(run: seq<State>, b: nat, nodes: seq<Node>, p: nat, q: nat, p': nat, q': nat, m: nat)
    requires Compatible(nodes) && IPv4Pods(nodes) && Run(run) && Quiet(run, b, nodes)
    requires CompletePass(run, p, q, nodes) && CompletePass(run, p', q', nodes) && b <= p && q <= p' && q' <= m < |run|
    ensures Converged(nodes, Owners(run[m].table))
  {
    hide Compatible, IPv4Pods, Run, Quiet, NoConflicts, Converged, Stored, PassWorks, Conflicting, Eligible, Owns;
    PassClears(run, b, p, q, nodes, q);
    NoConflictsStay(run, b, nodes, q, p');
    PassFills(run, b, p', q', nodes, q');
    FilledIsConverged(run[q'], nodes);
    ConvergedStays(run, b, nodes, q', m);
  }

  lemma {:induction false} ConvergedStays(run: seq<State>, b: nat, nodes: seq<Node>, j: nat, m: nat)
    requires Compatible(nodes) && Run(run) && Quiet(run, b, nodes) && b <= j <= m < |run|
    requires Converged(nodes, Owners(run[j].table))
    ensures Converged(nodes, Owners(run[m].table))
  {
    hide Compatible, Run, Quiet, NoConflicts, Eligible, Owns, Owners;
    NoConflictsStay(run, b, nodes, j, m);
    forall i | 0 <= i < |nodes| && Eligible(nodes[i])
      ensures Owns(nodes[i], Owners(run[m].table))
    {
      InterleavedProgress(run, b, nodes, j, m, i);
    }
  }
}
