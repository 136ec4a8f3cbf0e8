/** A strategy's round (infra/strategy.py, `Strategy.process`) and its submission loop
    (`Strategy.submit_decision`). */
module Round {
  import opened Wrappers
  import opened Rpc
  import opened Collect

  /** Python's `sum`: the values added left to right, starting from 0. */
  function Sum(s: seq<real>): (r: real)
  {
    if |s| == 0 then 0.0 else Sum(s[..|s| - 1]) + s[|s| - 1]
  }

  /** How a round ends: abandoned at the first source that yields no point, or with the decision
      and the round timestamp handed to `submit_decision`. */
  datatype RoundOutcome = Abandoned(source: nat) | Decided(decision: real, timestamp: int)

  /** One round: the timestamp `now` is taken once, every source is asked in index order with
      that same timestamp, and the decision is the sum of the points. */
  method Process(limit: int, tolerance: int, now: int, sources: seq<Env>)
    returns (outcome: RoundOutcome, signals: seq<real>)
    ensures outcome.Abandoned? ==>
              && outcome.source < |sources|
              && Collected(limit, tolerance, now, sources[outcome.source]).None?
              && forall j :: 0 <= j < outcome.source ==> Collected(limit, tolerance, now, sources[j]).Some?
    ensures outcome.Decided? <==> forall j :: 0 <= j < |sources| ==> Collected(limit, tolerance, now, sources[j]).Some?
    ensures outcome.Decided? ==>
              && |signals| == |sources|
              && (forall j :: 0 <= j < |sources| ==> Some(signals[j]) == Collected(limit, tolerance, now, sources[j]))
              && outcome == Decided(Sum(signals), now)
  {
    signals := [];
    var i := 0;
    while i < |sources|
      invariant 0 <= i <= |sources|
      invariant |signals| == i
      invariant forall j :: 0 <= j < i ==> Some(signals[j]) == Collected(limit, tolerance, now, sources[j])
    {
      var signal, _, _ := CollectPoint(limit, tolerance, now, sources[i]);
      if signal.None? {
        return Abandoned(i), signals;
      }
      signals := signals + [signal.value];
      i := i + 1;
    }
    outcome := Decided(Sum(signals), now);
  }

  /** The state of the strategy's `submit_decision` loop. */
  datatype SubmitState = SubmitState(retries: int, connError: bool, submitted: bool, calls: nat)

  const SubmitStart := SubmitState(0, false, false, 0)

  /** The loop test: `retries < RETRIES_LIMIT and not submitted`. */
  predicate Looping(limit: int, st: SubmitState)
  {
    st.retries < limit && !st.submitted
  }

  /** One iteration: reconnect if the flag is set, then call. The counter is left as it is. */
  function SubmitStep(st: SubmitState, answer: SubmitAttempt): (r: SubmitState)
  {
    SubmitState(st.retries,
                NextConnError(st.connError, answer.reconnect, answer.call.CallEof?),
                answer.call.CallOk?,
                st.calls + 1)
  }

  /** The loop state after it has been given `n` chances to iterate. Because the counter never
      moves, the loop stops only on a successful call: with a positive limit it is still going
      after any number of failed calls. */
  function SubmitAfter(limit: int, env: nat -> SubmitAttempt, n: nat): (st: SubmitState)
    ensures st.retries == 0
    ensures limit <= 0 ==> st == SubmitStart
    ensures limit > 0 && !st.submitted ==> st.calls == n
    ensures limit > 0 ==> (Looping(limit, st) <==> forall i :: 0 <= i < n ==> env(i).call.CallEof?)
    ensures st.submitted ==> && st.calls >= 1
                             && env(st.calls - 1).call.CallOk?
                             && forall i :: 0 <= i < st.calls - 1 ==> env(i).call.CallEof?
  {
    if n == 0 then SubmitStart
    else
      var prev := SubmitAfter(limit, env, n - 1);
      if Looping(limit, prev) then SubmitStep(prev, env(prev.calls)) else prev
  }

  /** The retry limit does not bound the submission loop: a run of failed calls longer than the
      limit leaves it still trying, having made every one of those calls. */
  lemma SubmitOutlastsLimit(limit: int, env: nat -> SubmitAttempt, n: nat)
    requires 0 < limit < n
    requires forall i :: 0 <= i < n ==> env(i).call.CallEof?
    ensures Looping(limit, SubmitAfter(limit, env, n))
    ensures SubmitAfter(limit, env, n).calls == n
  {
  }
}
