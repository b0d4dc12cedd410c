/** Progress of the interleaved controller from any point of a run on, whatever happened before, while what
    the nodes ask for stays the same. */
module Runs {
  import opened Wrappers
  import opened NodeUtils
  import opened Nodes
  import opened Conflicts
  import opened Routes
  import opened Convergence
  import opened Progress
  import opened Interleaving

  // ---------- Progress with stale snapshots, faults and a concurrent worker ----------

  /** The two node objects ask for the same route and conflict with the same routes. */
  ghost predicate SameDesire(x: Node, y: Node) {
    && (Eligible(x) <==> Eligible(y))
    && PodRouteOf(x) == PodRouteOf(y)
    && InstanceId(x) == InstanceId(y)
  }

  /** Whatever else changes in the node objects, each that is not excluded has the desire of one of these. */
  ghost predicate Covered(held: set<Node>, nodes: seq<Node>) {
    forall x :: x in held && !HasExcludeLabel(x.labels) ==> exists i :: 0 <= i < |nodes| && SameDesire(x, nodes[i])
  }

  /** Some eligible one of these nodes asks for a route at d. */
  ghost predicate Claimed(nodes: seq<Node>, d: string) {
    exists i :: 0 <= i < |nodes| && Eligible(nodes[i]) && PodText(nodes[i]) == d
  }

  /** If the worker is removing a route, then none that these nodes ask for. */
  ghost predicate Spares(s: State, nodes: seq<Node>) {
    s.worker.Removing? ==> !Claimed(nodes, s.worker.dest)
  }

  /** From state b on, at which no deleting loop is under way: the node objects that are stored or held have
      the desires of the given nodes, and no route that these ask for is being removed for a node that
      seemed gone. Both are needed: Scenarios has a run for each that fails without it. */
  ghost predicate Quiet(run: seq<State>, b: nat, nodes: seq<Node>) {
    && b < |run| && !run[b].sync.SyncDeleting?
    && forall k :: b <= k < |run| ==> Covered(Held(run[k]), nodes) && Spares(run[k], nodes)
  }

  /** The routes still to be looked at by the deleting loop are in the table as they were listed, or gone
      and asked for by no node. */
  ghost predicate ListingCurrent(s: State, nodes: seq<Node>) {
    s.sync.SyncDeleting? ==>
      var routes := s.sync.routes;
      && (forall k :: s.sync.i <= k < |routes| ==> routes[k].dest != DEFAULT_DEST && StillListed(routes[k], s.table, nodes))
      && (forall j, k :: 0 <= j < k < |routes| ==> routes[j].dest != routes[k].dest)
  }

  ghost predicate StillListed(r: Route, t: Table, nodes: seq<Node>) {
    if r.dest in t then r == ToRoute(t[r.dest]) else !Claimed(nodes, r.dest)
  }

  /** The table has not changed, or one legal write has taken effect. */
  ghost predicate OneWrite(nodes: seq<Node>, t: Table, t': Table) {
    t' == t || exists w :: Legal(nodes, t, w) && t' == Apply(t, w)
  }

  /** A route that none of these nodes asks for has been removed, or nothing has changed. */
  ghost predicate ForeignRemoval(nodes: seq<Node>, t: Table, t': Table) {
    t' == t || exists d :: !Claimed(nodes, d) && t' == t - {d}
  }

  lemma EligibleIsNotExcluded(x: Node)
    requires Eligible(x)
    ensures !HasExcludeLabel(x.labels)
  {
  }

  lemma ConflictCarriesOver(x: Node, y: Node, d: string, owner: string)
    requires SameDesire(x, y) && ConflictsWith(x, d, owner)
    ensures ConflictsWith(y, d, owner)
  {
    hide PodRouteOf, InstanceId, Containing, Eligible;
  }

  /** An eligible node that is held asks for a route that one of these nodes asks for. */
  lemma HeldIsClaimed(held: set<Node>, nodes: seq<Node>, x: Node)
    requires Covered(held, nodes) && x in held && Eligible(x)
    ensures Claimed(nodes, PodText(x))
    ensures exists i :: 0 <= i < |nodes| && SameDesire(x, nodes[i])
  {
    hide Eligible, PodRouteOf, InstanceId;
    EligibleIsNotExcluded(x);
    var i :| 0 <= i < |nodes| && SameDesire(x, nodes[i]);
    assert Eligible(nodes[i]) && PodText(nodes[i]) == PodText(x);
  }

  lemma DeleteOneIsLegal(s: State, s': State, nodes: seq<Node>)
    requires TableInv(s) && SyncInv(s) && Covered(Held(s), nodes) && ListingCurrent(s, nodes) && DeleteOne(s, s')
    ensures OneWrite(nodes, s.table, s'.table)
  {
    hide Eligible, PodText, ConflictsWith, SameDesire, Claimed;
    var r := s.sync.routes[s.sync.i];
    if Conflict(s.sync.nodes, r.dest, r.instanceId) && s'.table != s.table {
      var k :| 0 <= k < |s.sync.nodes| && ConflictsWith(s.sync.nodes[k], r.dest, r.instanceId);
      var x := s.sync.nodes[k];
      assert x in s.sync.nodes && x in Held(s);
      var i :| 0 <= i < |nodes| && SameDesire(x, nodes[i]);
      ConflictCarriesOver(x, nodes[i], r.dest, r.instanceId);
      assert Legal(nodes, s.table, Deleted(s.table[r.dest]));
    }
  }

  lemma CreateIsLegal(s: State, s': State, nodes: seq<Node>, x: Node, failed: bool, route: Option<Route>)
    requires Covered(Held(s), nodes) && x in Held(s) && Eligible(x)
    requires CreateOutcome(s.table, s'.table, InstanceId(x), PodText(x), failed, route)
    ensures OneWrite(nodes, s.table, s'.table)
  {
    hide Eligible, PodRouteOf, InstanceId, Held;
    HeldIsClaimed(Held(s), nodes, x);
    if s'.table != s.table {
      var i :| 0 <= i < |nodes| && SameDesire(x, nodes[i]);
      var r := s'.table[PodText(x)];
      assert Wants(nodes[i], r);
      assert Legal(nodes, s.table, Created(r));
    }
  }

  lemma ListedIsCurrent(s: State, s': State, nodes: seq<Node>)
    requires ListRoutes(s, s')
    ensures ListingCurrent(s', nodes)
  {
    hide Claimed;
  }

  lemma CreateKeepsListed(r: Route, t: Table, t': Table, nodes: seq<Node>, instanceId: string, cidr: string,
                          failed: bool, route: Option<Route>)
    requires CreateOutcome(t, t', instanceId, cidr, failed, route) && Claimed(nodes, cidr)
    requires StillListed(r, t, nodes)
    ensures StillListed(r, t', nodes)
  {
    hide Claimed;
  }

  lemma CreateKeepsListing(s: State, s': State, nodes: seq<Node>, x: Node, failed: bool, route: Option<Route>)
    requires Covered(Held(s), nodes) && x in Held(s) && Eligible(x)
    requires CreateOutcome(s.table, s'.table, InstanceId(x), PodText(x), failed, route)
    requires ListingCurrent(s, nodes) && s'.sync == s.sync
    ensures ListingCurrent(s', nodes)
  {
    hide Eligible, PodText, InstanceId, Held, Covered, Claimed, CreateOutcome, StillListed;
    HeldIsClaimed(Held(s), nodes, x);
    if s.sync.SyncDeleting? {
      var routes := s.sync.routes;
      forall k | s.sync.i <= k < |routes|
        ensures StillListed(routes[k], s'.table, nodes)
      {
        CreateKeepsListed(routes[k], s.table, s'.table, nodes, InstanceId(x), PodText(x), failed, route);
      }
    }
  }

  lemma RemovalKeepsListing(s: State, s': State, nodes: seq<Node>)
    requires WorkerRemove(s, s') && Spares(s, nodes) && ListingCurrent(s, nodes)
    ensures ListingCurrent(s', nodes)
  {
    hide Claimed;
  }

  /** A step that is not one of the pass keeps its listing current. */
  lemma OthersKeepListing(s: State, s': State, nodes: seq<Node>)
    requires WorkerInv(s) && Covered(Held(s), nodes) && Spares(s, nodes)
    requires Step(s, s') && s'.sync == s.sync && ListingCurrent(s, nodes)
    ensures ListingCurrent(s', nodes)
  {
    hide Eligible, PodText, InstanceId, Conflict, AfterGet, SetIfAbsent, Hit, CreateOutcome, Lists, Covered, Spares,
         ListingCurrent, Known;
    if WorkerCreate(s, s') {
      var x := s.worker.node;
      var failed, route :| CreateOutcome(s.table, s'.table, InstanceId(x), PodText(x), failed, route);
      CreateKeepsListing(s, s', nodes, x, failed, route);
    } else if WorkerRemove(s, s') {
      RemovalKeepsListing(s, s', nodes);
    } else {
      assert s'.table == s.table;
      SameListing(s, s', nodes);
    }
  }

  lemma SameListing(s: State, s': State, nodes: seq<Node>)
    requires s'.table == s.table && s'.sync == s.sync && ListingCurrent(s, nodes)
    ensures ListingCurrent(s', nodes)
  {
    hide StillListed;
  }

  lemma DeletionStaysCurrent(s: State, s': State, nodes: seq<Node>)
    requires ListingCurrent(s, nodes) && DeleteOne(s, s')
    ensures ListingCurrent(s', nodes)
  {
    hide Conflict, Claimed;
  }

  lemma OnlyListingOrDeleting(s: State, s': State)
    requires Step(s, s') && s'.sync != s.sync && s'.sync.SyncDeleting?
    ensures ListRoutes(s, s') || DeleteOne(s, s')
  {
    hide Eligible, PodText, InstanceId, Conflict, AfterGet, Hit, CreateOutcome, DeleteOutcome, Lists;
  }

  lemma ListingStaysCurrent(s: State, s': State, nodes: seq<Node>)
    requires WorkerInv(s) && Covered(Held(s), nodes) && Spares(s, nodes)
    requires ListingCurrent(s, nodes) && Step(s, s')
    ensures ListingCurrent(s', nodes)
  {
    hide Step, ListRoutes, DeleteOne, Covered, Spares, WorkerInv, StillListed;
    if s'.sync == s.sync {
      OthersKeepListing(s, s', nodes);
    } else if s'.sync.SyncDeleting? {
      OnlyListingOrDeleting(s, s');
      if ListRoutes(s, s') {
        ListedIsCurrent(s, s', nodes);
      } else {
        DeletionStaysCurrent(s, s', nodes);
      }
    }
  }

  /** The step is the worker's removal. */
  ghost predicate WorkerRemoves(s: State, s': State) {
    s.worker.Removing? && s'.worker != s.worker
  }

  /** A step makes at most one write: a legal one, or, if it is the worker's removal, one that removes a
      route no node asks for. */
  lemma QuietStep(s: State, s': State, nodes: seq<Node>)
    requires Inv(s) && Covered(Held(s), nodes) && Spares(s, nodes) && ListingCurrent(s, nodes) && Step(s, s')
    ensures if WorkerRemoves(s, s') then ForeignRemoval(nodes, s.table, s'.table) else OneWrite(nodes, s.table, s'.table)
  {
    hide Eligible, PodText, InstanceId, CreateOutcome, Conflict, AfterLookup, AfterGet, Known, SetIfAbsent, Lists,
         Covered, ListingCurrent, OneWrite, Claimed;
    if DeleteOne(s, s') {
      DeleteOneIsLegal(s, s', nodes);
    } else if CreateOne(s, s') {
      var x := s.sync.nodes[s.sync.j];
      assert x in s.sync.nodes;
      var failed, route :| CreateOutcome(s.table, s'.table, InstanceId(x), PodText(x), failed, route);
      CreateIsLegal(s, s', nodes, x, failed, route);
    } else if WorkerCreate(s, s') {
      var x := s.worker.node;
      var failed, route :| CreateOutcome(s.table, s'.table, InstanceId(x), PodText(x), failed, route);
      CreateIsLegal(s, s', nodes, x, failed, route);
    } else if !WorkerRemove(s, s') {
      assert s'.table == s.table;
      NoWrite(nodes, s.table);
    }
  }

  lemma NoWrite(nodes: seq<Node>, t: Table)
    ensures OneWrite(nodes, t, t)
  {
  }

  lemma {:induction false} QuietInv(run: seq<State>, b: nat, nodes: seq<Node>, k: nat)
    requires Run(run) && Quiet(run, b, nodes) && b <= k < |run|
    ensures Inv(run[k]) && ListingCurrent(run[k], nodes)
    decreases k
  {
    hide Step, Covered, Spares, WorkerInv, SyncInv, CacheInv, TableInv;
    InvHolds(run, k);
    if k > b {
      QuietInv(run, b, nodes, k - 1);
      ListingStaysCurrent(run[k - 1], run[k], nodes);
    }
  }

  /** What step k does to the table. */
  lemma QuietChange(run: seq<State>, b: nat, nodes: seq<Node>, k: nat)
    requires Run(run) && Quiet(run, b, nodes) && b <= k && k + 1 < |run|
    ensures ListingCurrent(run[k], nodes) && Covered(Held(run[k]), nodes) && Step(run[k], run[k + 1])
    ensures if WorkerRemoves(run[k], run[k + 1]) then ForeignRemoval(nodes, run[k].table, run[k + 1].table)
            else OneWrite(nodes, run[k].table, run[k + 1].table)
  {
    hide Step, Inv, ListingCurrent, Covered, Held, Spares, OneWrite, ForeignRemoval, WorkerRemoves;
    QuietInv(run, b, nodes, k);
    QuietStep(run[k], run[k + 1], nodes);
  }

  /** How many of the steps from state j to state m changed the table. */
  ghost function Changes(run: seq<State>, j: nat, m: nat): nat
    requires j <= m < |run|
    decreases m - j
  {
    if j == m then 0
    else Changes(run, j, m - 1) + if run[m].table != run[m - 1].table then 1 else 0
  }

  /** How many of them were the worker's removals. */
  ghost function Removals(run: seq<State>, j: nat, m: nat): nat
    requires j <= m < |run|
    decreases m - j
  {
    if j == m then 0
    else Removals(run, j, m - 1) + if run[m].table != run[m - 1].table && WorkerRemoves(run[m - 1], run[m]) then 1 else 0
  }

  /** The destinations in the table that no node asks for. */
  ghost function Unclaimed(nodes: seq<Node>, t: Table): set<string> {
    set d | d in t && !Claimed(nodes, d)
  }

  /** A legal write brings the table closer. */
  lemma WriteIsCloser(nodes: seq<Node>, t: Table, t': Table, i: nat)
    requires Compatible(nodes) && OneWrite(nodes, t, t')
    ensures Distance(nodes, Owners(t')) + (if t' != t then 1 else 0) <= Distance(nodes, Owners(t))
    ensures |Unclaimed(nodes, t')| <= |Unclaimed(nodes, t)|
    ensures i < |nodes| && Eligible(nodes[i]) && Owns(nodes[i], Owners(t)) ==> Owns(nodes[i], Owners(t'))
  {
    hide Compatible, Distance, Owners, Eligible, Owns, PodText, InstanceId, Conflict;
    if t' != t {
      var w :| Legal(nodes, t, w) && t' == Apply(t, w);
      LegalIsCloser(nodes, t, w, i);
      NoLarger(Unclaimed(nodes, t'), Unclaimed(nodes, t));
    }
  }

  /** Removing a route that no node asks for takes the table no farther away. */
  lemma RemovalIsNoFarther(nodes: seq<Node>, t: Table, t': Table, i: nat)
    requires ForeignRemoval(nodes, t, t')
    ensures Distance(nodes, Owners(t')) <= Distance(nodes, Owners(t))
    ensures |Unclaimed(nodes, t')| + (if t' != t then 1 else 0) <= |Unclaimed(nodes, t)|
    ensures i < |nodes| && Eligible(nodes[i]) && Owns(nodes[i], Owners(t)) ==> Owns(nodes[i], Owners(t'))
  {
    hide Eligible, PodText, InstanceId, Conflict;
    if t' != t {
      var d :| !Claimed(nodes, d) && t' == t - {d};
      NoLarger(Conflicting(nodes, Owners(t')), Conflicting(nodes, Owners(t)));
      NoLarger(Lacking(nodes, Owners(t')), Lacking(nodes, Owners(t)));
      Smaller(Unclaimed(nodes, t'), Unclaimed(nodes, t), d);
    }
  }

  /** From any point of any run at which no deleting loop is under way, whatever happened before, whatever
      fails and however pass and worker interleave, as long as what the stored and held nodes ask for stays
      the same and no route they ask for is removed for a node that seemed gone: the changes to the table
      other than removals together with the remaining distance never exceed the distance before, removals
      are at most as many as there were routes that no node asks for, and a node that has its route keeps
      it. */
  lemma {:induction false} InterleavedProgress(run: seq<State>, b: nat, nodes: seq<Node>, j: nat, m: nat, i: nat)
    requires Compatible(nodes) && Run(run) && Quiet(run, b, nodes) && b <= j <= m < |run|
    ensures Changes(run, j, m) + Distance(nodes, Owners(run[m].table)) <=
            Removals(run, j, m) + Distance(nodes, Owners(run[j].table))
    ensures Removals(run, j, m) + |Unclaimed(nodes, run[m].table)| <= |Unclaimed(nodes, run[j].table)|
    ensures i < |nodes| && Eligible(nodes[i]) && Owns(nodes[i], Owners(run[j].table)) ==> Owns(nodes[i], Owners(run[m].table))
    decreases m - j
  {
    hide Compatible, Distance, Owners, Eligible, Owns, Step, Run, Quiet, Covered, Held, ListingCurrent, OneWrite,
         ForeignRemoval, WorkerRemoves, Unclaimed;
    if j < m {
      InterleavedProgress(run, b, nodes, j, m - 1, i);
      QuietChange(run, b, nodes, m - 1);
      if WorkerRemoves(run[m - 1], run[m]) {
        RemovalIsNoFarther(nodes, run[m - 1].table, run[m].table, i);
      } else {
        WriteIsCloser(nodes, run[m - 1].table, run[m].table, i);
      }
    }
  }
}
