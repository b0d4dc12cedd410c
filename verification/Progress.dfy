/** What passes over a fixed list of nodes do when calls may fail: every write that takes effect brings
    the table closer to a converged one, so the writes are bounded and a correct route is safe. */
module Progress {
  import opened Nodes
  import opened Conflicts
  import opened Routes
  import opened Convergence
  import opened RouteController

  /** The visible routes that conflict. */
  ghost function Conflicting(nodes: seq<Node>, owners: map<string, string>): set<string> {
    set d | d in owners && d != DEFAULT_DEST && Conflict(nodes, d, owners[d])
  }

  /** The eligible nodes that lack their own route. */
  ghost function Lacking(nodes: seq<Node>, owners: map<string, string>): set<nat> {
    set i: nat | i < |nodes| && Eligible(nodes[i]) && !Owns(nodes[i], owners)
  }

  /** How far a table is from being converged. */
  ghost function Distance(nodes: seq<Node>, owners: map<string, string>): nat {
    |Conflicting(nodes, owners)| + |Lacking(nodes, owners)|
  }

  /** A table is converged exactly when its distance is zero. */
  lemma DistanceZero(nodes: seq<Node>, owners: map<string, string>)
    ensures Distance(nodes, owners) == 0 <==> Converged(nodes, owners)
  {
    hide Eligible, Owns, Conflict;
    if Distance(nodes, owners) == 0 {
      forall d | d in owners && d != DEFAULT_DEST
        ensures !Conflict(nodes, d, owners[d])
      {
        assert d !in Conflicting(nodes, owners);
      }
      forall i | 0 <= i < |nodes| && Eligible(nodes[i])
        ensures Owns(nodes[i], owners)
      {
        assert i !in Lacking(nodes, owners);
      }
    }
    if Converged(nodes, owners) {
      assert Conflicting(nodes, owners) == {} && Lacking(nodes, owners) == {};
    }
  }

  lemma Smaller<T>(part: set<T>, whole: set<T>, x: T)
    requires part <= whole && x in whole && x !in part
    ensures |part| < |whole|
  {
    NoLarger(part, whole - {x});
  }

  lemma {:induction false} NoLarger<T>(part: set<T>, whole: set<T>)
    requires part <= whole
    ensures |part| <= |whole|
  {
    if part != {} {
      var x :| x in part;
      NoLarger(part - {x}, whole - {x});
    }
  }

  lemma OwnersAfterDelete(t: Table, d: string)
    ensures Owners(t - {d}) == Owners(t) - {d}
  {
  }

  /** Removing a conflicting route brings the table closer. */
  lemma DeleteIsCloser(nodes: seq<Node>, owners: map<string, string>, d: string)
    requires Compatible(nodes) && d in Conflicting(nodes, owners)
    ensures Distance(nodes, owners - {d}) < Distance(nodes, owners)
  {
    hide Eligible, PodText, InstanceId, Conflict;
    var owners' := owners - {d};
    Smaller(Conflicting(nodes, owners'), Conflicting(nodes, owners), d);
    NoLarger(Lacking(nodes, owners'), Lacking(nodes, owners));
  }

  /** Adding a missing route of an eligible node brings the table closer. */
  lemma CreateIsCloser(nodes: seq<Node>, owners: map<string, string>, i: nat)
    requires Compatible(nodes) && i < |nodes| && Eligible(nodes[i]) && PodText(nodes[i]) !in owners
    ensures Distance(nodes, owners[PodText(nodes[i]) := InstanceId(nodes[i])]) < Distance(nodes, owners)
  {
    hide Eligible, PodText, InstanceId, Conflict;
    var owners' := owners[PodText(nodes[i]) := InstanceId(nodes[i])];
    assert Conflicting(nodes, owners') <= Conflicting(nodes, owners);
    NoLarger(Conflicting(nodes, owners'), Conflicting(nodes, owners));
    Smaller(Lacking(nodes, owners'), Lacking(nodes, owners), i);
  }

  /** Every legal write brings the table closer and spares every route that is already correct. */
  lemma LegalIsCloser(nodes: seq<Node>, t: Table, w: Write, i: nat)
    requires Compatible(nodes) && Legal(nodes, t, w)
    ensures Distance(nodes, Owners(Apply(t, w))) < Distance(nodes, Owners(t))
    ensures i < |nodes| && Eligible(nodes[i]) && Owns(nodes[i], Owners(t)) ==>
              w.route.dest != PodText(nodes[i]) && Owns(nodes[i], Owners(Apply(t, w)))
  {
    hide Eligible, PodText, InstanceId, Conflict, Distance;
    var r := w.route;
    if w.Deleted? {
      OwnersAfterDelete(t, r.dest);
      DeleteIsCloser(nodes, Owners(t), r.dest);
    } else {
      var j :| 0 <= j < |nodes| && Wants(nodes[j], r);
      assert Adds(t, Apply(t, w), InstanceId(nodes[j]), r.dest);
      OwnersAfterAdds(t, Apply(t, w), InstanceId(nodes[j]), r.dest);
      CreateIsCloser(nodes, Owners(t), j);
    }
  }

  lemma NoWrites(nodes: seq<Node>, t: Table)
    ensures Replay(t, []) == t
  {
  }

  lemma LastWrite(nodes: seq<Node>, t: Table, ws: seq<Write>)
    requires ws != [] && AllLegal(nodes, t, ws)
    ensures var init, last := ws[..|ws| - 1], ws[|ws| - 1];
            && AllLegal(nodes, t, init) && Legal(nodes, Replay(t, init), last)
            && Replay(t, ws) == Apply(Replay(t, init), last)
  {
    hide Legal, Apply;
  }

  /** Over any number of passes: the writes so far and the remaining distance together never exceed the
      distance at the start, and a correct route is never written over or deleted. */
  lemma {:induction false} WritesAreBounded(nodes: seq<Node>, t: Table, ws: seq<Write>, i: nat)
    requires Compatible(nodes) && AllLegal(nodes, t, ws)
    ensures |ws| + Distance(nodes, Owners(Replay(t, ws))) <= Distance(nodes, Owners(t))
    ensures i < |nodes| && Eligible(nodes[i]) && Owns(nodes[i], Owners(t)) ==>
              && Owns(nodes[i], Owners(Replay(t, ws)))
              && forall k :: 0 <= k < |ws| ==> ws[k].route.dest != PodText(nodes[i])
  {
    hide *;
    if ws == [] {
      NoWrites(nodes, t);
    } else {
      var init, last := ws[..|ws| - 1], ws[|ws| - 1];
      LastWrite(nodes, t, ws);
      WritesAreBounded(nodes, t, init, i);
      LegalIsCloser(nodes, Replay(t, init), last, i);
      assert forall k :: 0 <= k < |init| ==> ws[k] == init[k];
    }
  }

  /** periodicalSync over a fixed list of nodes, for the given number of rounds. Whatever fails, the
      writes never exceed the initial distance; if nothing fails, two rounds converge. */
  method PeriodicalSync(r: ReconcileRoute, nodes: seq<Node>, rounds: nat) returns (ghost ws: seq<Write>)
    requires r.cloud.Valid()
    modifies r`nodeCache, r.cloud`table, r.cloud`nextId, r.cloud`log, r.cloud`calls, r.cloud`polls, r.api`nodes, r.api`clock, r.api`calls, r.api`requests
    ensures r.cloud.Valid() && r.cloud.log == old(r.cloud.log) + ws
    ensures Compatible(nodes) ==>
              |ws| + Distance(nodes, Owners(r.cloud.table)) <= Distance(nodes, Owners(old(r.cloud.table)))
    ensures Compatible(nodes) && IPv4Pods(nodes) && r.cloud.weather.calm && rounds >= 2 ==>
              Converged(nodes, Owners(r.cloud.table))
    ensures r.cloud.calls >= old(r.cloud.calls) + rounds
  {
    hide *;
    ghost var t := r.cloud.table;
    ws := [];
    PassBegins(nodes, t, map[], t, r.nodeCache);
    for k := 0 to rounds
      invariant r.cloud.Valid() && r.cloud.log == old(r.cloud.log) + ws
      invariant r.cloud.calls >= old(r.cloud.calls) + k
      invariant AllLegal(nodes, t, ws) && Replay(t, ws) == r.cloud.table
      invariant k > 0 && r.cloud.weather.calm && Compatible(nodes) ==> NoConflicts(nodes, Owners(r.cloud.table))
      invariant k > 1 && r.cloud.weather.calm && Compatible(nodes) && IPv4Pods(nodes) ==>
                  Converged(nodes, Owners(r.cloud.table))
    {
      ghost var before := Owners(r.cloud.table);
      var failed;
      ghost var more;
      ghost var listed;
      failed, more, listed := r.SyncRoutes(nodes);
      LegalConcat(nodes, t, ws, more);
      ws := ws + more;
      if Compatible(nodes) {
        OnePassNoConflicts(nodes, before);
        if IPv4Pods(nodes) && k > 0 && r.cloud.weather.calm {
          PassFromNoConflicts(nodes, before);
        }
      }
    }
    if Compatible(nodes) {
      WritesAreBounded(nodes, t, ws, 0);
    }
  }
}
