/** The availability wait of the neutron route client. */
module Waiting {

  const DEFAULT_TIMEOUT := 60
  const WAIT_INTERVAL := 5

  /** The number of polls that a timeout allows. */
  function MaxPolls(timeout: int): (n: nat)
    ensures n > 0
  {
    var t := if timeout <= 0 then DEFAULT_TIMEOUT else timeout;
    (t + WAIT_INTERVAL - 1) / WAIT_INTERVAL
  }

  /** available(k) says whether poll k returns the route with an id. The wait succeeds exactly when one
      of the first ceil(timeout / 5) polls does, stops at the first such poll, and sleeps for 5 seconds
      before each further poll, less than the timeout in all. */
  method WaitForAllRouteEntriesAvailable(timeout: int, available: nat -> bool) returns (ok: bool, polls: nat, slept: nat)
    ensures 0 < polls <= MaxPolls(timeout)
    ensures slept == WAIT_INTERVAL * (polls - 1) < (if timeout <= 0 then DEFAULT_TIMEOUT else timeout)
    ensures ok <==> exists k :: 0 <= k < MaxPolls(timeout) && available(k)
    ensures forall k :: 0 <= k < polls - 1 ==> !available(k)
    ensures if ok then available(polls - 1) else polls == MaxPolls(timeout)
  {
    ok, polls, slept := false, 0, 0;
    var timeout' := if timeout <= 0 then DEFAULT_TIMEOUT else timeout;
    ghost var start := timeout';
    while true
      invariant timeout' == start - WAIT_INTERVAL * polls > 0
      invariant slept == WAIT_INTERVAL * polls
      invariant forall k :: 0 <= k < polls ==> !available(k)
      decreases timeout'
    {
      var success := available(polls);
      polls := polls + 1;
      if success {
        return true, polls, slept;
      }
      timeout' := timeout' - WAIT_INTERVAL;
      if timeout' <= 0 {
        return false, polls, slept;
      }
      slept := slept + WAIT_INTERVAL;
    }
  }
}
