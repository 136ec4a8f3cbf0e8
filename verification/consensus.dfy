/** The aggregator's consensus step (infra/trader.py, `Trader.compute_median` and
    `Trader.process_decisions`). */
module Consensus {
  import opened Wrappers
  import opened Maps
  import opened Clock
  import opened Sorting
  import opened Registry

  /** An entry counts towards the consensus only with a decision inside the window at `now`. */
  predicate Usable(entry: Option<Decision>, now: int, tolerance: int)
  {
    entry.Some? && Fresh(now, entry.value.decidedAt, tolerance)
  }

  /** The decision value of `id`, or 0 for an entry without one. */
  function ValueOf(t: Table, id: AgentId): (r: real)
  {
    if id in t && t[id].Some? then t[id].value.value else 0.0
  }

  /** The decision values of the table, in the iteration order `ids`. */
  function Values(t: Table, ids: seq<AgentId>): (vs: seq<real>)
    ensures |vs| == |ids|
    ensures forall i :: 0 <= i < |ids| ==> vs[i] == ValueOf(t, ids[i])
  {
    seq(|ids|, i requires 0 <= i < |ids| => ValueOf(t, ids[i]))
  }

  /** The loop of `compute_median`: walks the entries in order and gives up at the first one
      without a usable decision; otherwise it yields every decision value, in order. */
  function Gather(t: Table, ids: seq<AgentId>, now: int, tolerance: int): (r: Option<seq<real>>)
    requires forall i :: 0 <= i < |ids| ==> ids[i] in t
    ensures r.None? <==> exists i :: 0 <= i < |ids| && !Usable(t[ids[i]], now, tolerance)
    ensures r.Some? ==> r.value == Values(t, ids)
  {
    if |ids| == 0 then Some([])
    else if !Usable(t[ids[0]], now, tolerance) then None
    else match Gather(t, ids[1..], now, tolerance)
      case None => None
      case Some(rest) => Some([t[ids[0]].value.value] + rest)
  }

  /** The middle of a sorted, non-empty sequence: the central element, or the mean of the two
      central ones when the length is even. */
  function Middle(s: seq<real>): (m: real)
    requires |s| > 0
    requires Sorted(s)
    ensures s[0] <= m <= s[|s| - 1]
    ensures |s| % 2 == 1 ==> m == s[|s| / 2]
  {
    var n := |s|;
    if n % 2 == 1 then s[n / 2]
    else (s[n / 2 - 1] + s[n / 2]) / 2.0
  }

  /** The median as `statistics.median` computes it: the middle of the sorted values. */
  function Median(vals: seq<real>): (m: real)
    requires |vals| > 0
    ensures exists i :: 0 <= i < |vals| && vals[i] <= m
    ensures exists j :: 0 <= j < |vals| && m <= vals[j]
    ensures |vals| % 2 == 1 ==> m in multiset(vals)
  {
    var s := Sort(vals);
    assert s[0] in multiset(vals) && s[|s| - 1] in multiset(vals);
    assert s[|s| / 2] in multiset(vals);
    Middle(s)
  }

  /** The all-or-nothing freshness gate followed by the median. */
  function ComputeMedian(t: Table, ids: seq<AgentId>, now: int, tolerance: int): (r: Option<real>)
    requires IsEnumeration(ids, t)
    ensures r.None? <==> (|t| == 0 || exists id :: id in t && !Usable(t[id], now, tolerance))
    ensures r.Some? ==> |ids| > 0
    ensures r.Some? && |ids| > 0 ==> r.value == Median(Values(t, ids))
  {
    if |t| == 0 then None
    else
      assert |ids| > 0 by {
        var id :| id in t;
        assert id in ids;
      }
      match Gather(t, ids, now, tolerance)
      case None => None
      case Some(decisions) => Some(Median(decisions))
  }

  /** The median forgets the order of its input. */
  lemma MedianIgnoresOrder(a: seq<real>, b: seq<real>)
    requires |a| > 0
    requires multiset(a) == multiset(b)
    ensures |b| > 0 && Median(a) == Median(b)
  {
    assert |a| == |multiset(a)| == |multiset(b)| == |b|;
    SortIgnoresOrder(a, b);
  }

  /** Two iteration orders of one table list the same decision values, up to permutation. */
  lemma ValuesPermutation(t: Table, ids1: seq<AgentId>, ids2: seq<AgentId>)
    requires IsEnumeration(ids1, t) && IsEnumeration(ids2, t)
    ensures multiset(Values(t, ids1)) == multiset(Values(t, ids2))
  {
    var f := (id: AgentId) => ValueOf(t, id);
    EnumerationsArePermutations(ids1, ids2, t);
    MapSeqPermutation(f, ids1, ids2);
    assert Values(t, ids1) == MapSeq(f, ids1);
    assert Values(t, ids2) == MapSeq(f, ids2);
  }

  /** The consensus does not depend on the order in which the dict happens to list the strategies. */
  lemma ComputeMedianIgnoresOrder(t: Table, ids1: seq<AgentId>, ids2: seq<AgentId>, now: int, tolerance: int)
    requires IsEnumeration(ids1, t) && IsEnumeration(ids2, t)
    ensures ComputeMedian(t, ids1, now, tolerance) == ComputeMedian(t, ids2, now, tolerance)
  {
    var r1, r2 := ComputeMedian(t, ids1, now, tolerance), ComputeMedian(t, ids2, now, tolerance);
    assert r1.Some? <==> r2.Some?;
    if r1.Some? {
      ValuesPermutation(t, ids1, ids2);
      MedianIgnoresOrder(Values(t, ids1), Values(t, ids2));
    }
  }

  /** When every strategy agrees on a value, that value is the consensus. */
  lemma ConsensusOfAgreement(t: Table, ids: seq<AgentId>, now: int, tolerance: int, v: real)
    requires IsEnumeration(ids, t)
    requires |t| > 0
    requires forall id :: id in t ==> Usable(t[id], now, tolerance) && t[id].value.value == v
    ensures ComputeMedian(t, ids, now, tolerance) == Some(v)
  {
    var r := ComputeMedian(t, ids, now, tolerance);
    assert r.Some?;
    MedianOfConstant(Values(t, ids), v);
  }

  lemma MedianOfConstant(vals: seq<real>, v: real)
    requires |vals| > 0
    requires forall i :: 0 <= i < |vals| ==> vals[i] == v
    ensures Median(vals) == v
  {
  }

  /** Two strategies each submit 0.4 for the round stamped `t0`; an aggregation tick inside the
      window yields 0.4. */
  lemma TwoAgentScenario(a: AgentId, b: AgentId, t0: int, now: int, tolerance: int)
    requires a != b
    requires Fresh(now, t0, tolerance)
    ensures var t := SubmitDecision(SubmitDecision(Register(Register(map[], a).1, b).1, Decision(0.4, t0), a), Decision(0.4, t0), b);
            ComputeMedian(t, [a, b], now, tolerance) == Some(0.4)
  {
    var t := SubmitDecision(SubmitDecision(Register(Register(map[], a).1, b).1, Decision(0.4, t0), a), Decision(0.4, t0), b);
    assert t.Keys == {a, b};
    ConsensusOfAgreement(t, [a, b], now, tolerance, 0.4);
  }

  /** The larger of two numbers; a negative retry limit allows no retries. */
  function Max(a: int, b: int): (r: int)
  {
    if a < b then b else a
  }

  /** The retry of `process_decisions`. The table may change between calls (strategies keep
      submitting, time passes), so the k-th call of `compute_median` is an input, `results(k)`.
      It calls `compute_median` at most `limit + 1` times and stops at the first value. */
  method ProcessDecisions(limit: int, results: nat -> Option<real>) returns (median: Option<real>, calls: nat)
    ensures 1 <= calls <= Max(limit, 0) + 1
    ensures forall k :: 0 <= k < calls - 1 ==> results(k).None?
    ensures median == results(calls - 1)
    ensures median.None? ==> calls == Max(limit, 0) + 1
  {
    median := results(0);
    calls := 1;
    var retries := 0;
    while median.None? && retries < limit
      invariant 0 <= retries <= Max(limit, 0)
      invariant calls == retries + 1
      invariant forall k :: 0 <= k < calls - 1 ==> results(k).None?
      invariant median == results(calls - 1)
      decreases limit - retries
    {
      median := results(calls);
      calls := calls + 1;
      retries := retries + 1;
    }
  }
}
