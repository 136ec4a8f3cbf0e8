/** A strategy fetching one fresh point from one signal source (infra/strategy.py,
    `Strategy.collect_point`). */
module Collect {
  import opened Wrappers
  import opened Clock
  import opened Rpc

  /** The environment's answers, iteration by iteration. */
  type Env = nat -> FetchAttempt

  /** The number of loop iterations `limit` allows. */
  function Budget(limit: int): (r: nat)
  {
    if limit < 0 then 0 else limit
  }

  /** Iteration `i` fetches a point generated within the window of the round timestamp `now`. */
  predicate FreshAt(env: Env, now: int, tolerance: int, i: nat)
  {
    env(i).fetch.Point? && Fresh(now, env(i).fetch.ts, tolerance)
  }

  /** The first iteration in `[from, bound)` that fetches a fresh point, or `bound` if none does. */
  function FirstFresh(env: Env, now: int, tolerance: int, from: nat, bound: nat): (f: nat)
    requires from <= bound
    ensures from <= f <= bound
    ensures forall j :: from <= j < f ==> !FreshAt(env, now, tolerance, j)
    ensures f < bound ==> FreshAt(env, now, tolerance, f)
    decreases bound - from
  {
    if from == bound then bound
    else if FreshAt(env, now, tolerance, from) then from
    else FirstFresh(env, now, tolerance, from + 1, bound)
  }

  lemma FirstFreshIs(env: Env, now: int, tolerance: int, k: nat, bound: nat)
    requires k <= bound
    requires forall j: nat :: j < k ==> !FreshAt(env, now, tolerance, j)
    requires k < bound ==> FreshAt(env, now, tolerance, k)
    ensures FirstFresh(env, now, tolerance, 0, bound) == k
  {
  }

  /** What `collect_point` returns: the first fresh point's value, unless that point arrived on
      the last iteration the budget allows (the counter has then reached the limit and the point
      is dropped), or no iteration fetched one. */
  function Collected(limit: int, tolerance: int, now: int, env: Env): (r: Option<real>)
    ensures r.Some? <==> exists i: nat :: i + 1 < limit && FreshAt(env, now, tolerance, i)
    ensures r.Some? ==> exists i: nat ::
              i + 1 < limit && FreshAt(env, now, tolerance, i) && r.value == env(i).fetch.value &&
              forall j: nat :: j < i ==> !FreshAt(env, now, tolerance, j)
    ensures limit <= 1 ==> r.None?
  {
    var n := Budget(limit);
    var f := FirstFresh(env, now, tolerance, 0, n);
    if f + 1 < n then Some(env(f).fetch.value) else None
  }

  /** The reconnect flag at the start of iteration `i`. */
  function ConnErrorBefore(env: Env, i: nat): (r: bool)
  {
    if i == 0 then false
    else NextConnError(ConnErrorBefore(env, i - 1), env(i - 1).reconnect, env(i - 1).fetch.Eof?)
  }

  /** The flag is set at iteration `n` exactly when some earlier fetch hit end-of-stream and every
      reconnect tried since then was refused. */
  lemma {:induction false} ConnErrorExplained(env: Env, n: nat)
    ensures ConnErrorBefore(env, n) <==>
              exists j: nat :: j < n && env(j).fetch.Eof? && forall k: nat :: j < k < n ==> env(k).reconnect.Refused?
  {
    if n > 0 {
      ConnErrorExplained(env, n - 1);
      if env(n - 1).fetch.Eof? {
        assert forall k: nat :: n - 1 < k < n ==> env(k).reconnect.Refused?;
      } else if ConnErrorBefore(env, n) {
        var j: nat :| j < n - 1 && env(j).fetch.Eof? && forall k: nat :: j < k < n - 1 ==> env(k).reconnect.Refused?;
        assert forall k: nat :: j < k < n ==> env(k).reconnect.Refused?;
      } else {
        forall j: nat | j < n && env(j).fetch.Eof?
          ensures exists k: nat :: j < k < n && !env(k).reconnect.Refused?
        {
          assert j < n - 1;
          if env(n - 1).reconnect.Refused? {
            assert !ConnErrorBefore(env, n - 1);
            var k: nat :| j < k < n - 1 && !env(k).reconnect.Refused?;
          } else {
            assert j < n - 1 < n;
          }
        }
      }
    }
  }

  /** The loop of `collect_point`. Returns the point's value (or None), the number of fetches
      made, and, for each iteration, whether it began with a reconnect attempt. */
  method CollectPoint(limit: int, tolerance: int, now: int, env: Env)
    returns (r: Option<real>, attempts: nat, reconnected: seq<bool>)
    ensures r == Collected(limit, tolerance, now, env)
    ensures var f := FirstFresh(env, now, tolerance, 0, Budget(limit));
            attempts == if f < Budget(limit) then f + 1 else Budget(limit)
    ensures |reconnected| == attempts
    ensures forall i {:trigger reconnected[i]} :: 0 <= i < attempts ==> reconnected[i] == ConnErrorBefore(env, i)
  {
    var signal: Option<real> := None;
    var ts: Option<int> := None;
    var connError := false;
    var retries: nat := 0;
    reconnected := [];
    while (ts.None? || !Fresh(now, ts.value, tolerance)) && retries < limit
      invariant retries <= Budget(limit)
      invariant connError == ConnErrorBefore(env, retries)
      invariant |reconnected| == retries
      invariant forall i {:trigger reconnected[i]} :: 0 <= i < retries ==> reconnected[i] == ConnErrorBefore(env, i)
      invariant ts.Some? && Fresh(now, ts.value, tolerance) ==>
                  && retries > 0
                  && FirstFresh(env, now, tolerance, 0, Budget(limit)) == retries - 1
                  && signal == Some(env(retries - 1).fetch.value)
      invariant ts.None? || !Fresh(now, ts.value, tolerance) ==>
                  forall j: nat :: j < retries ==> !FreshAt(env, now, tolerance, j)
      decreases limit - retries
    {
      var answer := env(retries);
      ghost var before := retries;
      reconnected := reconnected + [connError];
      if connError {
        if answer.reconnect.Connected? {
          connError := false;
        }
      }
      match answer.fetch {
        case Eof => connError := true;
        case Empty => signal, ts := None, None;
        case Point(v, t) => signal, ts := Some(v), Some(t);
      }
      retries := retries + 1;
      if ts.Some? && Fresh(now, ts.value, tolerance) {
        assert FreshAt(env, now, tolerance, before);
        FirstFreshIs(env, now, tolerance, before, Budget(limit));
      }
    }
    attempts := retries;
    if retries >= limit {
      r := None;
    } else {
      r := signal;
    }
    if !(ts.Some? && Fresh(now, ts.value, tolerance)) {
      FirstFreshIs(env, now, tolerance, Budget(limit), Budget(limit));
    }
  }

  /** A point that turns up only on the last iteration the budget allows is dropped. */
  lemma FreshOnLastAttemptDropped(limit: int, tolerance: int, now: int, env: Env)
    requires limit > 0
    requires FreshAt(env, now, tolerance, limit - 1)
    requires forall j: nat :: j < limit - 1 ==> !FreshAt(env, now, tolerance, j)
    ensures Collected(limit, tolerance, now, env).None?
  {
  }

  /** A source that never answers with a point (only end-of-stream or its initial empty signal)
      never satisfies the loop's exit test. */
  lemma NoPointNoValue(limit: int, tolerance: int, now: int, env: Env)
    requires forall i: nat :: !env(i).fetch.Point?
    ensures Collected(limit, tolerance, now, env).None?
  {
  }
}
