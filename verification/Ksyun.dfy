/** The cloud's route table behind its API, and the operations the controller performs on it
    (pkg/ksyun/ksyun.go and the create and delete wrappers of pkg/controller/route/manager.go).
    Unless the weather is calm any call may fail, and a write may take effect and still be reported as
    failed: what call n meets is what the weather says of n. */
module Ksyun {
  import opened Wrappers
  import opened Routes
  import opened Waiting
  import opened Faults

  lemma OutcomeHolds(t: Table, t': Table, instanceId: string, cidr: string, failed: bool, route: Option<Route>)
    requires t' == t || Adds(t, t', instanceId, cidr)
    requires !failed ==> cidr in t'
    requires route.Some? ==> !failed && cidr in t' && route.value == ToRoute(t'[cidr])
    ensures CreateOutcome(t, t', instanceId, cidr, failed, route)
  {
  }

  class Cloud {
    const weather: Weather
    var table: Table
    var nextId: nat
    /** How many calls have been made. */
    var calls: nat
    /** How often the availability of a new route has been polled. */
    var polls: nat
    /** Every write that took effect, oldest first. */
    ghost var log: seq<Write>

    ghost predicate Valid()
      reads this
      ensures Valid() ==> WellKeyed(table)
    {
      WellKeyed(table) && forall d :: d in table ==> table[d].id < nextId
    }

    constructor (weather: Weather)
      ensures Valid() && table == map[] && log == [] && this.weather == weather && calls == 0
    {
      this.weather := weather;
      table, nextId, calls, polls, log := map[], 0, 0, 0, [];
    }

    // ---------- The API ----------

    /** All routes, in an order of the cloud's choosing. */
    method Describe() returns (routes: seq<CloudRoute>)
      requires Valid()
      ensures forall i :: 0 <= i < |routes| ==> routes[i].dest in table && routes[i] == table[routes[i].dest]
      ensures forall i, j :: 0 <= i < j < |routes| ==> routes[i].dest != routes[j].dest
      ensures forall d :: d in table ==> table[d] in routes
    {
      routes := [];
      var left := table.Keys;
      while left != {}
        invariant left <= table.Keys
        invariant forall i :: 0 <= i < |routes| ==>
                    routes[i].dest in table && routes[i].dest !in left && routes[i] == table[routes[i].dest]
        invariant forall i, j :: 0 <= i < j < |routes| ==> routes[i].dest != routes[j].dest
        invariant forall d :: d in table && d !in left ==> table[d] in routes
      {
        var d :| d in left;
        routes := routes + [table[d]];
        left := left - {d};
      }
    }

    /** Adds a route, unless the destination is taken; the reply may be lost. */
    method ApiCreate(instanceId: string, cidr: string) returns (err: Option<Error>)
      requires Valid()
      modifies `table, `nextId, `log, `calls
      ensures Valid() && calls == old(calls) + 1
      ensures if cidr !in old(table) && !Refused(weather, old(calls))
              then Adds(old(table), table, instanceId, cidr) && log == old(log) + [Created(table[cidr])]
              else table == old(table) && log == old(log)
      ensures err == if Refused(weather, old(calls)) then Some(Failure)
                     else if cidr in old(table) then Some(SameRoute)
                     else if Lost(weather, old(calls)) then Some(Failure)
                     else None
    {
      var n := calls;
      calls := calls + 1;
      if Refused(weather, n) {
        return Some(Failure);
      }
      if cidr in table {
        return Some(SameRoute);
      }
      var r := CloudRoute(nextId, cidr, [instanceId]);
      table, nextId := table[cidr := r], nextId + 1;
      log := log + [Created(r)];
      return if Lost(weather, n) then Some(Failure) else None;
    }

    /** Removes the route with this id; the reply may be lost. */
    method ApiDelete(id: nat) returns (failed: bool)
      requires Valid()
      modifies `table, `log, `calls
      ensures Valid() && calls == old(calls) + 1
      ensures failed == (Refused(weather, old(calls)) || Lost(weather, old(calls)))
      ensures Refused(weather, old(calls)) ==> table == old(table) && log == old(log)
      ensures !Refused(weather, old(calls)) ==>
                forall d :: d in old(table) && old(table)[d].id == id ==>
                  table == old(table) - {d} && log == old(log) + [Deleted(old(table)[d])]
      ensures (forall d :: d in old(table) ==> old(table)[d].id != id) ==> table == old(table) && log == old(log)
    {
      var n := calls;
      calls := calls + 1;
      if Refused(weather, n) {
        return true;
      }
      if d :| d in table && table[d].id == id {
        log := log + [Deleted(table[d])];
        table := table - {d};
      }
      return Lost(weather, n);
    }

    // ---------- pkg/ksyun/ksyun.go ----------

    /** ListRoutes: every route but the default one. */
    method ListRoutes() returns (failed: bool, result: seq<Route>)
      requires Valid()
      modifies `calls
      ensures calls == old(calls) + 1 && failed == Refused(weather, old(calls))
      ensures table == old(table) && (old(Valid()) ==> Valid())
      ensures weather.calm ==> !failed
      ensures forall i :: 0 <= i < |result| ==>
                result[i].dest in table && result[i].dest != DEFAULT_DEST && result[i] == ToRoute(table[result[i].dest])
      ensures forall i, j :: 0 <= i < j < |result| ==> result[i].dest != result[j].dest
      ensures !failed ==> forall d :: d in table && d != DEFAULT_DEST ==> ToRoute(table[d]) in result
    {
      failed := Refused(weather, calls);
      calls := calls + 1;
      if failed {
        return true, [];
      }
      var routes := Describe();
      result := [];
      for i := 0 to |routes|
        invariant forall k :: 0 <= k < |result| ==>
                    result[k].dest in table && result[k].dest != DEFAULT_DEST && result[k] == ToRoute(table[result[k].dest])
        invariant forall k, j :: 0 <= k < |result| && i <= j < |routes| ==> result[k].dest != routes[j].dest
        invariant forall k, j :: 0 <= k < j < |result| ==> result[k].dest != result[j].dest
        invariant forall k :: 0 <= k < i && routes[k].dest != DEFAULT_DEST ==> ToRoute(routes[k]) in result
      {
        var r := routes[i];
        if r.dest == DEFAULT_DEST {
          continue;
        }
        var gatewayId := "";
        if |r.hops| != 0 {
          gatewayId := r.hops[0];
        }
        result := result + [Route(r.dest, gatewayId, r.id)];
      }
      assert forall d :: d in table ==> table[d] in routes;
    }

    /** FindRoute: the route at cidr, if there is one. */
    method FindRoute(cidr: string) returns (failed: bool, route: Option<Route>)
      modifies `calls
      ensures calls == old(calls) + 1 && failed == Refused(weather, old(calls))
      ensures table == old(table) && (old(Valid()) ==> Valid())
      ensures weather.calm ==> !failed
      ensures route == if !failed && cidr in table then Some(ToRoute(table[cidr])) else None
    {
      failed := Refused(weather, calls);
      calls := calls + 1;
      if failed || cidr !in table {
        return failed, None;
      }
      return false, Some(ToRoute(table[cidr]));
    }

    /** DeleteRoute looks the route up and deletes it by its id. */
    method DeleteRoute(cidr: string) returns (failed: bool)
      requires Valid()
      modifies `table, `log, `calls
      ensures Valid() && DeleteOutcome(old(table), table, cidr, failed)
      ensures var r := Deletion(weather, old(calls), cidr in old(table));
              && failed == r.failed && calls == old(calls) + r.calls
              && table == if r.deleted then old(table) - {cidr} else old(table)
      ensures log == if table == old(table) then old(log) else old(log) + [Deleted(old(table)[cidr])]
      ensures table != old(table) ==> cidr in old(table)
      ensures weather.calm ==> !failed
    {
      var findFailed, route := FindRoute(cidr);
      if findFailed {
        return true;
      }
      if route.Some? {
        failed := ApiDelete(route.value.routeId);
      } else {
        assert table == table - {cidr};
        failed := false;
      }
    }

    /** CreateRoute asks for the route and waits until it can be seen. */
    method CreateRoute(instanceId: string, cidr: string) returns (err: Option<Error>)
      requires Valid()
      modifies `table, `nextId, `log, `calls, `polls
      ensures Valid() && calls == old(calls) + 1
      ensures if cidr !in old(table) && !Refused(weather, old(calls))
              then Adds(old(table), table, instanceId, cidr) && log == old(log) + [Created(table[cidr])]
              else table == old(table) && log == old(log)
      ensures err == CreateReply(weather, old(calls), cidr in old(table))
      ensures err == None ==> Adds(old(table), table, instanceId, cidr)
      ensures weather.calm ==> err == if cidr in old(table) then Some(SameRoute) else None
      ensures polls <= old(polls) + MaxPolls(CREATE_TIMEOUT)
    {
      var available: nat -> bool := if weather.calm then _ => true else weather.faults(calls).available;
      err := ApiCreate(instanceId, cidr);
      if err.Some? {
        return;
      }
      var ok, n, _ := WaitForAllRouteEntriesAvailable(CREATE_TIMEOUT, available);
      polls := polls + n;
      if !ok {
        assert !available(0);
        return Some(Failure);
      }
    }

    // ---------- pkg/controller/route/manager.go, under routeLock ----------

    /** createRouteForInstance: up to three attempts, of which only a failure other than "same with a
        route" leads to another. It comes to what Creation says of the calls it makes; its table outcome
        holds whatever they are answered; it polls at most 36 times. */
    method CreateRouteForInstance(instanceId: string, cidr: string)
      returns (failed: bool, route: Option<Route>, ghost replies: seq<Option<Error>>)
      requires Valid()
      modifies `table, `nextId, `log, `calls, `polls
      ensures Valid() && CreateOutcome(old(table), table, instanceId, cidr, failed, route)
      ensures log == if table == old(table) then old(log) else old(log) + [Created(table[cidr])]
      ensures !failed && cidr !in old(table) ==> Owner(table[cidr]) == instanceId
      ensures var e := Creation(weather, old(calls), cidr in old(table), CREATE_STEPS);
              && failed == e.failed && route.Some? == e.found && calls == old(calls) + e.calls
              && (if e.added then Adds(old(table), table, instanceId, cidr) else table == old(table))
      ensures weather.calm ==> !failed && route.Some?
      ensures polls <= old(polls) + 36
      ensures 0 < |replies| <= CREATE_STEPS
      ensures forall i :: 0 <= i < |replies| ==>
                replies[i] == CreateReply(weather, old(calls) + i, TakenAt(weather, old(calls), old(calls) + i, cidr in old(table)))
      ensures forall i :: 0 <= i < |replies| - 1 ==> replies[i] == Some(Failure)
      ensures var last := replies[|replies| - 1];
              && (last == None ==> !failed)
              && (last == Some(SameRoute) ==> (!failed <==> route.Some?))
              && (last == Some(Failure) ==> failed && |replies| == CREATE_STEPS)
    {
      hide Creation, CreateReply, Replies, TakenAt, CreateOutcome;
      ghost var n, taken := calls, cidr in table;
      replies := Replies(weather, n, taken, CREATE_STEPS);
      RepliesMeaning(weather, n, taken, CREATE_STEPS);
      CreationOutcome(weather, n, taken, CREATE_STEPS);
      if weather.calm {
        CalmCreation(weather, n, taken);
      }
      failed, route := ExponentialBackoff(instanceId, cidr);
      if failed {
        OutcomeHolds(old(table), table, instanceId, cidr, true, None);
        return true, None, replies;
      }
      if route == None {
        var _, found := FindRoute(cidr);
        route := found;
      }
      OutcomeHolds(old(table), table, instanceId, cidr, failed, route);
    }

    /** The attempts of createRouteForInstance: what they come to, but for the lookup that is still to follow
        a success without a route in hand. */
    method ExponentialBackoff(instanceId: string, cidr: string) returns (failed: bool, route: Option<Route>)
      requires Valid()
      modifies `table, `nextId, `log, `calls, `polls
      ensures Valid() && SoFar(old(table), instanceId, cidr, old(log))
      ensures polls <= old(polls) + 36
      ensures route.Some? ==> cidr in table && route.value == ToRoute(table[cidr])
      ensures !failed ==> cidr in table
      ensures var e := Creation(weather, old(calls), cidr in old(table), CREATE_STEPS);
              && failed == e.failed && e.added == (table != old(table))
              && (if !failed && route == None then e.found == !Refused(weather, calls) && old(calls) + e.calls == calls + 1
                  else e.found == route.Some? && old(calls) + e.calls == calls)
    {
      hide Creation, CreateReply;
      ghost var n, taken := calls, cidr in table;
      route := None;
      var steps := CREATE_STEPS;
      while steps > 0
        invariant 0 <= steps <= CREATE_STEPS && route == None
        invariant Valid() && SoFar(old(table), instanceId, cidr, old(log))
        invariant polls <= old(polls) + (CREATE_STEPS - steps) * 12
        invariant Remaining(Creation(weather, n, taken, CREATE_STEPS), n, steps, cidr, table != old(table))
        decreases steps
      {
        UnfoldCreation(weather, calls, cidr in table, steps);
        ReplyMeaning(weather, calls, cidr in table);
        steps := steps - 1;
        var innerErr := CreateRoute(instanceId, cidr);
        if innerErr == Some(SameRoute) {
          var findErr, found := FindRoute(cidr);
          if !findErr && found.Some? {
            return false, found;
          }
          return true, None;
        }
        if innerErr == None {
          return false, None;
        }
        assert innerErr.value != SameRoute;
      }
      UnfoldCreation(weather, calls, cidr in table, 0);
      failed := true;
    }

    /** The table is as it was at t, or has gained just this route. */
    ghost predicate SoFar(t: Table, instanceId: string, cidr: string, log0: seq<Write>)
      reads this
    {
      if table == t then log == log0
      else Adds(t, table, instanceId, cidr) && log == log0 + [Created(table[cidr])]
    }

    /** What is still to come makes up the whole effort e that began at call n. */
    ghost predicate Remaining(e: Effort, n: nat, steps: nat, cidr: string, added: bool)
      reads this
    {
      var rest := Creation(weather, calls, cidr in table, steps);
      && e.failed == rest.failed && e.found == rest.found && n + e.calls == calls + rest.calls
      && e.added == (added || rest.added)
    }

    /** deleteRouteForInstance. */
    method DeleteRouteForInstance(cidr: string) returns (failed: bool)
      requires Valid()
      modifies `table, `log, `calls
      ensures Valid() && DeleteOutcome(old(table), table, cidr, failed)
      ensures var r := Deletion(weather, old(calls), cidr in old(table));
              && failed == r.failed && calls == old(calls) + r.calls
              && table == if r.deleted then old(table) - {cidr} else old(table)
      ensures log == if table == old(table) then old(log) else old(log) + [Deleted(old(table)[cidr])]
      ensures table != old(table) ==> cidr in old(table)
      ensures weather.calm ==> !failed
    {
      failed := DeleteRoute(cidr);
    }
  }
}
