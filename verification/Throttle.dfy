/** The intake budget (throttling.py): a cached counter with a time to live that each
    admission renews. */
module Throttle {
  import opened Common

  const WINDOW := 3600

  datatype Entry = Entry(count: nat, expires: int)

  /** `cache.get(key) or 0` */
  function Live(e: Option<Entry>, now: int): nat {
    if e.Some? && now < e.value.expires then e.value.count else 0
  }

  /** One call: the entry left in the cache, and the answer (0 admits). */
  function Decide(e: Option<Entry>, now: int, limit: int, readsTtl: bool): (Option<Entry>, nat) {
    if limit <= 0 then (e, 0)
    else if Live(e, now) >= limit then
      (e, if readsTtl && e.Some? && e.value.expires - now > 1 then e.value.expires - now else 1)
    else (Some(Entry(Live(e, now) + 1, now + WINDOW)), 0)
  }

  class IntakeBudget {
    var cache: map<(string, string), Entry>

    function At(scope: string, caller: string): Option<Entry>
      reads this
    {
      if (scope, caller) in cache then Some(cache[(scope, caller)]) else None
    }

    constructor ()
      ensures cache == map[]
    {
      cache := map[];
    }

    /** A failing cache admits and changes nothing. */
    method Spend(scope: string, caller: string, limit: int, now: int, cacheFails: bool, readsTtl: bool) returns (retryAfter: nat)
      modifies this
      ensures cacheFails || limit <= 0 ==> retryAfter == 0 && cache == old(cache)
      ensures !cacheFails ==> (At(scope, caller), retryAfter) == Decide(old(At(scope, caller)), now, limit, readsTtl)
      ensures forall s, c :: (s, c) != (scope, caller) ==> At(s, c) == old(At(s, c))
    {
      if limit <= 0 || cacheFails {
        return 0;
      }
      var entry := At(scope, caller);
      var count := Live(entry, now);
      if count >= limit {
        var ttl := if readsTtl && entry.Some? then entry.value.expires - now else 0;
        return if ttl > 1 then ttl else 1;
      }
      cache := cache[(scope, caller) := Entry(count + 1, now + WINDOW)];
      return 0;
    }
  }

  // ----- one caller in one scope, over time -----

  /** The calls come in order. */
  ghost predicate Ordered(times: seq<int>) {
    forall i, j :: 0 <= i < j < |times| ==> times[i] <= times[j]
  }

  /** What the cache holds after the calls, and the moments of those admitted. */
  function Serve(times: seq<int>, limit: int): (Option<Entry>, seq<int>) {
    if times == [] then (None, [])
    else
      var n := |times| - 1;
      var (e, admitted) := Serve(times[..n], limit);
      var (e', answer) := Decide(e, times[n], limit, true);
      (e', if answer == 0 then admitted + [times[n]] else admitted)
  }

  /** The reference: how many admissions precede `now` without an hour's pause between
      any two of them or before `now`. */
  function Streak(admitted: seq<int>, now: int): nat {
    if admitted == [] then 0
    else
      var last := admitted[|admitted| - 1];
      if now - last >= WINDOW then 0 else 1 + Streak(admitted[..|admitted| - 1], last)
  }

  /** The cached counter is the streak its last admission completed. */
  ghost predicate Tracks(e: Option<Entry>, admitted: seq<int>) {
    if admitted == [] then e.None?
    else
      var n := |admitted| - 1;
      e == Some(Entry(1 + Streak(admitted[..n], admitted[n]), admitted[n] + WINDOW))
  }

  lemma LiveIsStreak(e: Option<Entry>, admitted: seq<int>, now: int)
    requires Tracks(e, admitted)
    ensures Live(e, now) == Streak(admitted, now)
  {
  }

  lemma DecisionTracks(e: Option<Entry>, admitted: seq<int>, now: int, limit: int)
    requires limit > 0 && Tracks(e, admitted)
    ensures var (e', answer) := Decide(e, now, limit, true);
            Tracks(e', if answer == 0 then admitted + [now] else admitted)
  {
    LiveIsStreak(e, admitted, now);
    var longer := admitted + [now];
    assert longer[..|longer| - 1] == admitted;
  }

  lemma {:induction false} CounterIsStreak(times: seq<int>, limit: int)
    requires limit > 0
    ensures var (e, admitted) := Serve(times, limit); Tracks(e, admitted)
    decreases |times|
  {
    if times != [] {
      var n := |times| - 1;
      CounterIsStreak(times[..n], limit);
      DecisionTracks(Serve(times[..n], limit).0, Serve(times[..n], limit).1, times[n], limit);
    }
  }

  /** Admissions are among the calls and come in order. */
  lemma {:induction false} AdmissionsInOrder(times: seq<int>, limit: int)
    requires Ordered(times)
    ensures Ordered(Serve(times, limit).1)
    ensures forall t :: t in Serve(times, limit).1 ==> t in times
    decreases |times|
  {
    if times != [] {
      var n := |times| - 1;
      AdmissionsInOrder(times[..n], limit);
      assert times == times[..n] + [times[n]];
      var earlier := Serve(times[..n], limit).1;
      forall i | 0 <= i < |earlier| ensures earlier[i] <= times[n] {
        assert earlier[i] in earlier;
        assert earlier[i] in times[..n];
      }
    }
  }

  /** A call is admitted exactly when the streak before it is below the limit. */
  lemma AdmittedIff(times: seq<int>, now: int, limit: int)
    requires limit > 0
    ensures var (e, admitted) := Serve(times, limit);
            Decide(e, now, limit, true).1 == 0 <==> Streak(admitted, now) < limit
  {
    CounterIsStreak(times, limit);
    LiveIsStreak(Serve(times, limit).0, Serve(times, limit).1, now);
  }

  /** Every admission extended a streak below the limit. */
  lemma {:induction false} AdmissionsAreWithinLimit(times: seq<int>, limit: int, j: nat)
    requires limit > 0 && j < |Serve(times, limit).1|
    ensures var admitted := Serve(times, limit).1; Streak(admitted[..j], admitted[j]) < limit
    decreases |times|
  {
    var n := |times| - 1;
    assert times != [];
    var earlier := Serve(times[..n], limit).1;
    var admitted := Serve(times, limit).1;
    if j < |earlier| {
      AdmissionsAreWithinLimit(times[..n], limit, j);
      assert admitted[..j] == earlier[..j];
    } else {
      AdmittedIff(times[..n], times[n], limit);
      assert admitted[..j] == earlier;
    }
  }

  /** Consecutive admissions less than an hour apart form one streak. */
  lemma {:induction false} ShortGaps(admitted: seq<int>, i: nat, j: nat)
    requires i <= j < |admitted| && Ordered(admitted)
    requires forall k :: i < k <= j ==> admitted[k] - admitted[k - 1] < WINDOW
    ensures j - i <= Streak(admitted[..j], admitted[j])
    decreases j
  {
    if i < j {
      ShortGaps(admitted, i, j - 1);
      assert admitted[..j][..j - 1] == admitted[..j - 1];
      assert admitted[..j][j - 1] == admitted[j - 1];
    }
  }

  /** At most `limit` admissions follow each other without an hour's pause, so also in any
      window shorter than an hour. */
  lemma BudgetHolds(times: seq<int>, limit: int, i: nat, j: nat)
    requires limit > 0 && Ordered(times) && i <= j < |Serve(times, limit).1|
    requires var admitted := Serve(times, limit).1;
             || admitted[j] - admitted[i] < WINDOW
             || forall k :: i < k <= j ==> admitted[k] - admitted[k - 1] < WINDOW
    ensures j - i + 1 <= limit
  {
    var admitted := Serve(times, limit).1;
    AdmissionsInOrder(times, limit);
    forall k | i < k <= j ensures admitted[k] - admitted[k - 1] < WINDOW {
      assert admitted[i] <= admitted[k - 1] && admitted[k] <= admitted[j];
    }
    ShortGaps(admitted, i, j);
    AdmissionsAreWithinLimit(times, limit, j);
  }

  /** A refusal leaves the entry as it is, so it never prolongs the wait, and the wait it
      announces ends exactly when the entry expires. */
  lemma RefusalsAreFree(e: Option<Entry>, now: int, limit: int, later: int, readsTtl: bool)
    requires Decide(e, now, limit, readsTtl).1 > 0
    ensures Decide(e, now, limit, readsTtl).0 == e
    ensures e.Some? && now < e.value.expires
    ensures Decide(e, now, limit, readsTtl).1 == if readsTtl then e.value.expires - now else 1
    ensures e.value.expires <= later ==> Decide(e, later, limit, readsTtl).1 == 0
  {
  }

  /** An hour or more lies between the earlier admissions and each of the later calls. */
  ghost predicate AfterPause(admitted: seq<int>, more: seq<int>) {
    forall k :: 0 <= k < |more| ==> admitted == [] || admitted[|admitted| - 1] + WINDOW <= more[k]
  }

  /** Nothing before the pause counts. */
  lemma {:induction false} StreakAfterPause(before: seq<int>, more: seq<int>, n: nat)
    requires n < |more| && AfterPause(before, more)
    ensures Streak(before + more[..n], more[n]) <= n
    decreases n
  {
    if n == 0 {
      assert before + more[..0] == before;
    } else {
      var admitted := before + more[..n];
      assert admitted[..|admitted| - 1] == before + more[..n - 1];
      StreakAfterPause(before, more, n - 1);
    }
  }

  /** An hour after the last admission the whole budget is back: the next `limit` calls
      are admitted. */
  lemma {:induction false} BudgetReturns(times: seq<int>, more: seq<int>, limit: int)
    requires limit > 0 && |more| <= limit && AfterPause(Serve(times, limit).1, more)
    ensures Serve(times + more, limit).1 == Serve(times, limit).1 + more
    decreases |more|
  {
    var before := Serve(times, limit).1;
    if more == [] {
      assert times + more == times;
    } else {
      var n := |more| - 1;
      BudgetReturns(times, more[..n], limit);
      StreakAfterPause(before, more, n);
      AdmittedIff(times + more[..n], more[n], limit);
      assert (times + more)[..|times + more| - 1] == times + more[..n];
      assert before + more == before + more[..n] + [more[n]];
    }
  }

  /** The budget is not a rolling hourly one: a caller that never pauses for an hour is
      refused after `limit` calls however slowly they come. With a limit of two, calls 50
      minutes apart are refused at the third, one admission into the past hour. */
  lemma SteadyCallerIsRefused()
    ensures var (e, admitted) := Serve([0, 3000], 2);
            && admitted == [0, 3000]
            && Decide(e, 6000, 2, true).1 == 600
            && |set i | 0 <= i < |admitted| && 6000 - WINDOW < admitted[i] <= 6000| == 1
  {
    assert [0, 3000][..1] == [0] && [0][..0] == [];
    assert Serve([], 2) == (None, []);
    assert Decide(None, 0, 2, true) == (Some(Entry(1, 3600)), 0);
    assert Serve([0], 2).1 == [0];
    assert Serve([0], 2).0 == Some(Entry(1, 3600));
    var admitted := [0, 3000];
    assert (set i | 0 <= i < |admitted| && 6000 - WINDOW < admitted[i] <= 6000) == {1};
  }
}
