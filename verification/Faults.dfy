/** What the calls to the cloud and to the API server meet. Calls are numbered as they are made; a script
    says of every number what a call with that number would meet, so that whatever can fail, in whatever
    order, is some script. What an operation does is then a function of the script. */
module Faults {
  import opened Wrappers
  import opened Waiting

  // ---------- The cloud ----------

  /** The call is refused before it has any effect; or its effect is not reported; and whether poll k of a
      wait after the call shows the new route. */
  datatype Fault = Fault(refused: bool, lost: bool, available: nat -> bool)

  datatype Weather = Weather(calm: bool, faults: nat -> Fault)

  /** SameRoute is the error whose text contains "same with a route". */
  datatype Error = SameRoute | Failure

  const CREATE_STEPS := 3
  const CREATE_TIMEOUT := 60

  predicate Refused(w: Weather, n: nat) {
    !w.calm && w.faults(n).refused
  }

  predicate Lost(w: Weather, n: nat) {
    !w.calm && w.faults(n).lost
  }

  /** The wait after call n sees the route. */
  predicate Seen(w: Weather, n: nat) {
    w.calm || exists k :: 0 <= k < MaxPolls(CREATE_TIMEOUT) && w.faults(n).available(k)
  }

  /** The reply to a create, its wait included, for a destination that is taken or not. */
  function CreateReply(w: Weather, n: nat, taken: bool): Option<Error> {
    if Refused(w, n) then Some(Failure)
    else if taken then Some(SameRoute)
    else if Lost(w, n) || !Seen(w, n) then Some(Failure)
    else None
  }

  /** What an operation that may create a route comes to: its error, whether a live lookup that it began
      with failed, whether it ends up with a route in hand, whether it added one, and its calls. */
  datatype Effort = Effort(failed: bool, lookupFailed: bool, found: bool, added: bool, calls: nat)

  /** Creating with retries, from call n on. */
  function Creation(w: Weather, n: nat, taken: bool, steps: nat): Effort
    decreases steps
  {
    if steps == 0 then Effort(true, false, false, false, 0)
    else
      match CreateReply(w, n, taken)
      case None => Effort(false, false, !Refused(w, n + 1), true, 2)
      case Some(SameRoute) => Effort(Refused(w, n + 1), false, !Refused(w, n + 1), false, 2)
      case Some(Failure) =>
        var adds := !taken && !Refused(w, n);
        var rest := Creation(w, n + 1, taken || adds, steps - 1);
        Effort(rest.failed, false, rest.found, adds || rest.added, 1 + rest.calls)
  }

  lemma UnfoldCreation(w: Weather, n: nat, taken: bool, steps: nat)
    ensures Creation(w, n, taken, steps) ==
            if steps == 0 then Effort(true, false, false, false, 0)
            else if CreateReply(w, n, taken) == None then Effort(false, false, !Refused(w, n + 1), true, 2)
            else if CreateReply(w, n, taken) == Some(SameRoute) then
              Effort(Refused(w, n + 1), false, !Refused(w, n + 1), false, 2)
            else
              var adds := !taken && !Refused(w, n);
              var rest := Creation(w, n + 1, taken || adds, steps - 1);
              Effort(rest.failed, false, rest.found, adds || rest.added, 1 + rest.calls)
  {
  }

  /** Without faults a creation works at the first attempt and finds its route. */
  lemma CalmCreation(w: Weather, n: nat, taken: bool)
    requires w.calm
    ensures Creation(w, n, taken, CREATE_STEPS) == Effort(false, false, true, !taken, 2)
  {
  }

  /** At most one route is added, only where there was none, and success means that there is one. */
  lemma {:induction false} CreationOutcome(w: Weather, n: nat, taken: bool, steps: nat)
    ensures var e := Creation(w, n, taken, steps);
            && (e.added ==> !taken)
            && (!e.failed ==> taken || e.added)
            && (e.found ==> !e.failed)
            && e.calls <= steps + 1
    decreases steps
  {
    if steps > 0 {
      CreationOutcome(w, n + 1, taken || !Refused(w, n), steps - 1);
    }
  }

  /** A destination is taken at call m if it was before call n, or a create in between got through. */
  predicate TakenAt(w: Weather, n: nat, m: nat, taken: bool) {
    taken || exists b :: n <= b < m && !Refused(w, b)
  }

  /** With the creates numbered from n on, call a is the last of them: all before it were answered with an
      ordinary failure, and it is not, or there may be no further. */
  ghost predicate LastAttempt(w: Weather, n: nat, taken: bool, steps: nat, a: nat) {
    && n <= a < n + steps
    && (forall b :: n <= b < a ==> CreateReply(w, b, TakenAt(w, n, b, taken)) == Some(Failure))
    && (a == n + steps - 1 || CreateReply(w, a, TakenAt(w, n, a, taken)) != Some(Failure))
  }

  lemma TakenLater(w: Weather, n: nat, m: nat, taken: bool)
    requires n < m
    ensures TakenAt(w, n + 1, m, taken || !Refused(w, n)) == TakenAt(w, n, m, taken)
  {
  }

  /** What creating with retries comes to, by its last attempt: it fails exactly if that was an ordinary
      failure too, or the answer was that the route is there and the lookup of it failed. */
  lemma {:induction false} CreationMeaning(w: Weather, n: nat, taken: bool, steps: nat, a: nat)
    requires LastAttempt(w, n, taken, steps, a)
    ensures var e, reply := Creation(w, n, taken, steps), CreateReply(w, a, TakenAt(w, n, a, taken));
            && (e.failed <==> reply == Some(Failure) || (reply == Some(SameRoute) && Refused(w, a + 1)))
            && (e.found <==> reply != Some(Failure) && !Refused(w, a + 1))
            && (e.added <==> !taken && TakenAt(w, n, a + 1, taken))
            && e.calls == a - n + if reply == Some(Failure) then 1 else 2
    decreases steps
  {
    hide CreateReply;
    var taken' := taken || !Refused(w, n);
    if a == n {
      TakenAtFirst(w, n, taken);
      ReplyMeaning(w, n, taken);
    } else {
      TakenAtFirst(w, n, taken);
      assert CreateReply(w, n, TakenAt(w, n, n, taken)) == Some(Failure);
      var next := n + 1;
      forall b | next <= b < a
        ensures CreateReply(w, b, TakenAt(w, next, b, taken')) == Some(Failure)
      {
        TakenLater(w, n, b, taken);
        assert CreateReply(w, b, TakenAt(w, n, b, taken)) == Some(Failure);
      }
      TakenLater(w, n, a, taken);
      TakenLater(w, n, a + 1, taken);
      CreationMeaning(w, next, taken', steps - 1, a);
      assert !taken && !Refused(w, n) ==> TakenAt(w, n, a + 1, taken);
    }
  }

  lemma TakenAtFirst(w: Weather, n: nat, taken: bool)
    ensures TakenAt(w, n, n, taken) == taken
    ensures TakenAt(w, n, n + 1, taken) == (taken || !Refused(w, n))
  {
  }

  lemma TakenNext(w: Weather, n: nat, m: nat, taken: bool)
    requires n <= m
    ensures TakenAt(w, n, m + 1, taken) == (TakenAt(w, n, m, taken) || !Refused(w, m))
  {
  }

  lemma ReplyMeaning(w: Weather, n: nat, taken: bool)
    ensures CreateReply(w, n, taken) == None ==> !taken && !Refused(w, n)
    ensures CreateReply(w, n, taken) == Some(SameRoute) ==> taken
  {
  }

  /** The replies to the creates. */
  function Replies(w: Weather, n: nat, taken: bool, steps: nat): seq<Option<Error>>
    decreases steps
  {
    if steps == 0 then []
    else
      var reply := CreateReply(w, n, taken);
      [reply] + if reply == Some(Failure) then Replies(w, n + 1, taken || !Refused(w, n), steps - 1) else []
  }

  /** Each of these is the reply that its call meets. */
  ghost predicate Met(w: Weather, n: nat, taken: bool, rs: seq<Option<Error>>) {
    forall i :: 0 <= i < |rs| ==> rs[i] == CreateReply(w, n + i, TakenAt(w, n, n + i, taken))
  }

  lemma MetOneMore(w: Weather, n: nat, taken: bool, reply: Option<Error>, rest: seq<Option<Error>>)
    requires reply == CreateReply(w, n, taken) && Met(w, n + 1, taken || !Refused(w, n), rest)
    ensures Met(w, n, taken, [reply] + rest)
  {
    hide CreateReply, TakenAt, Refused;
    TakenAtFirst(w, n, taken);
    var rs := [reply] + rest;
    forall i | 0 <= i < |rs|
      ensures rs[i] == CreateReply(w, n + i, TakenAt(w, n, n + i, taken))
    {
      if i > 0 {
        TakenLater(w, n, n + i, taken);
        assert rs[i] == rest[i - 1] == CreateReply(w, n + 1 + (i - 1), TakenAt(w, n + 1, n + 1 + (i - 1), taken || !Refused(w, n)));
      }
    }
  }

  /** Only the last of these may be other than an ordinary failure, and it is one only after the last attempt
      there may be; what the whole effort comes to goes with it. */
  ghost predicate Ends(rs: seq<Option<Error>>, e: Effort, steps: nat) {
    && 0 < |rs| <= steps
    && (forall i :: 0 <= i < |rs| - 1 ==> rs[i] == Some(Failure))
    && var last := rs[|rs| - 1];
       && (last == None ==> !e.failed)
       && (last == Some(SameRoute) ==> (!e.failed <==> e.found))
       && (last == Some(Failure) ==> e.failed && |rs| == steps)
  }

  lemma EndsOneMore(rest: seq<Option<Error>>, e: Effort, e': Effort, steps: nat)
    requires Ends(rest, e, steps) && e'.failed == e.failed && e'.found == e.found
    ensures Ends([Some(Failure)] + rest, e', steps + 1)
  {
    var rs := [Some(Failure)] + rest;
    assert forall i :: 0 < i < |rs| ==> rs[i] == rest[i - 1];
  }

  /** Each reply is the one its call meets; only the last may be other than an ordinary failure, and it is
      one only after the last attempt there may be. */
  lemma {:induction false} RepliesMeaning(w: Weather, n: nat, taken: bool, steps: nat)
    requires steps > 0
    ensures Met(w, n, taken, Replies(w, n, taken, steps))
    ensures Ends(Replies(w, n, taken, steps), Creation(w, n, taken, steps), steps)
    decreases steps
  {
    hide CreateReply, Creation, TakenAt, Refused, Met;
    UnfoldCreation(w, n, taken, steps);
    var taken' := taken || !Refused(w, n);
    var reply := CreateReply(w, n, taken);
    if reply == Some(Failure) && steps > 1 {
      RepliesMeaning(w, n + 1, taken', steps - 1);
      MetOneMore(w, n, taken, reply, Replies(w, n + 1, taken', steps - 1));
      EndsOneMore(Replies(w, n + 1, taken', steps - 1), Creation(w, n + 1, taken', steps - 1), Creation(w, n, taken, steps), steps - 1);
    } else {
      UnfoldCreation(w, n + 1, taken', 0);
      MetNone(w, n + 1, taken');
      MetOneMore(w, n, taken, reply, []);
      assert [reply] + [] == [reply] == Replies(w, n, taken, steps);
    }
  }

  lemma MetNone(w: Weather, n: nat, taken: bool)
    ensures Met(w, n, taken, [])
  {
  }

  /** A transient refusal does no harm: the first attempt that gets through adds the route. */
  lemma RetryWorks(w: Weather, n: nat, a: nat)
    requires n <= a < n + CREATE_STEPS
    requires forall b :: n <= b < a ==> Refused(w, b)
    requires !Refused(w, a) && !Lost(w, a) && Seen(w, a)
    ensures Creation(w, n, false, CREATE_STEPS) == Effort(false, false, !Refused(w, a + 1), true, a - n + 2)
  {
    CreationMeaning(w, n, false, CREATE_STEPS, a);
    assert TakenAt(w, n, a + 1, false);
    NoLookup(w, n, false, CREATE_STEPS);
  }

  lemma NoLookup(w: Weather, n: nat, taken: bool, steps: nat)
    ensures !Creation(w, n, taken, steps).lookupFailed
  {
  }

  /** What a deletion comes to: its error, whether the route is gone, and its calls. */
  datatype Removed = Removed(failed: bool, deleted: bool, calls: nat)

  /** Looking a route up and deleting it, from call n on. */
  function Deletion(w: Weather, n: nat, there: bool): Removed {
    if Refused(w, n) then Removed(true, false, 1)
    else if !there then Removed(false, false, 1)
    else Removed(Refused(w, n + 1) || Lost(w, n + 1), !Refused(w, n + 1), 2)
  }

  /** addRouteForNode, from call n on: with an empty listing the lookup is live. */
  function Adding(w: Weather, n: nat, there: bool, live: bool, hit: bool, instance: bool): Effort {
    if !instance then Effort(true, false, false, false, 0)
    else if !live then
      if hit then Effort(false, false, true, false, 0) else Creation(w, n, there, CREATE_STEPS)
    else if Refused(w, n) then Effort(false, true, false, false, 1)
    else if there then Effort(false, false, true, false, 1)
    else
      var e := Creation(w, n + 1, false, CREATE_STEPS);
      e.(calls := 1 + e.calls)
  }

  /** No error is reported only if the route was found, is there, or the live lookup itself failed; and after
      a lookup that answered "none" the error is that of the creation. */
  lemma AddingMeaning(w: Weather, n: nat, there: bool, live: bool, hit: bool)
    requires live ==> !hit
    ensures var e := Adding(w, n, there, live, hit, true);
            && (e.lookupFailed <==> live && Refused(w, n))
            && (!e.failed ==> hit || e.lookupFailed || there || e.added)
            && (!live && !hit ==> e.failed == Creation(w, n, there, CREATE_STEPS).failed)
            && (live && !e.lookupFailed && !there ==> e.failed == Creation(w, n + 1, false, CREATE_STEPS).failed)
            && (e.added ==> !there && !hit && !e.lookupFailed)
  {
    CreationOutcome(w, n, there, CREATE_STEPS);
    CreationOutcome(w, n + 1, false, CREATE_STEPS);
    NoLookup(w, n, there, CREATE_STEPS);
    NoLookup(w, n + 1, false, CREATE_STEPS);
  }

  // ---------- The API server ----------

  /** Reading fails; or the stored version is not the one patched; or the patch fails; or its effect is not
      reported. */
  datatype ServerFault = ServerFault(getFails: bool, conflicts: bool, patchFails: bool, lost: bool)

  datatype ServerWeather = ServerWeather(calm: bool, faults: nat -> ServerFault)

  datatype PatchResult = Applied | VersionConflict | PatchFailed

  const UPDATE_RETRIES := 3

  predicate GetFails(w: ServerWeather, n: nat) {
    !w.calm && w.faults(n).getFails
  }

  function PatchReply(w: ServerWeather, n: nat, stored: bool): PatchResult {
    if !stored || GetFails(w, n) then PatchFailed
    else if w.calm then Applied
    else if w.faults(n).conflicts then VersionConflict
    else if w.faults(n).patchFails || w.faults(n).lost then PatchFailed
    else Applied
  }

  predicate PatchTakes(w: ServerWeather, n: nat, stored: bool) {
    && stored && !GetFails(w, n)
    && (w.calm || (!w.faults(n).conflicts && !w.faults(n).patchFails))
  }

  /** How many times a patch is tried, from call n on: again only after a version conflict. */
  function Tries(w: ServerWeather, n: nat, stored: bool, steps: nat): (k: nat)
    ensures k <= steps && (steps > 0 ==> k > 0)
    decreases steps
  {
    if steps == 0 then 0
    else if PatchReply(w, n, stored) == VersionConflict then 1 + Tries(w, n + 1, stored, steps - 1)
    else 1
  }

  lemma UnfoldTries(w: ServerWeather, n: nat, stored: bool, steps: nat)
    ensures Tries(w, n, stored, steps) ==
            if steps == 0 then 0
            else if PatchReply(w, n, stored) == VersionConflict then 1 + Tries(w, n + 1, stored, steps - 1)
            else 1
  {
  }

  /** The last try is answered otherwise than with a version conflict, or is the last there may be. */
  lemma {:induction false} TriesMeaning(w: ServerWeather, n: nat, stored: bool, steps: nat)
    requires steps > 0
    ensures var k := Tries(w, n, stored, steps);
            && (forall i :: n <= i < n + k - 1 ==> PatchReply(w, i, stored) == VersionConflict)
            && (k < steps ==> PatchReply(w, n + k - 1, stored) != VersionConflict)
    decreases steps
  {
    hide PatchReply;
    if PatchReply(w, n, stored) == VersionConflict && steps > 1 {
      TriesMeaning(w, n + 1, stored, steps - 1);
    }
  }

  lemma PatchMeaning(w: ServerWeather, n: nat, stored: bool)
    ensures PatchReply(w, n, stored) == VersionConflict ==> !PatchTakes(w, n, stored)
    ensures PatchReply(w, n, stored) == Applied ==> PatchTakes(w, n, stored)
  {
  }

  lemma CalmPatch(w: ServerWeather, n: nat, stored: bool)
    requires w.calm
    ensures PatchReply(w, n, stored) == if stored then Applied else PatchFailed
  {
  }
}
