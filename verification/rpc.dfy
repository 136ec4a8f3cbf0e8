/** Outcomes of the remote calls a strategy makes, as its retry loops observe them. The network
    itself is not modelled: each loop iteration reads what the environment answered. */
module Rpc {

  /** Answer to a (re)connect attempt. */
  datatype Connect = Refused | Connected

  /** Answer to `get_signal_v1`: the connection closed under the call, the source's initial empty
      signal `(None, None)`, or a value with the time it was generated. */
  datatype Fetch = Eof | Empty | Point(value: real, ts: int)

  /** One iteration of `collect_point` as the environment answers it: the reconnect (consulted
      only when the loop tries one) and the fetch. */
  datatype FetchAttempt = FetchAttempt(reconnect: Connect, fetch: Fetch)

  /** Answer to `submit_decision_v1`. */
  datatype Call = CallEof | CallOk

  /** One iteration of the strategy's `submit_decision` as the environment answers it. */
  datatype SubmitAttempt = SubmitAttempt(reconnect: Connect, call: Call)

  /** The reconnect flag after one iteration that started with `connError`: a refused reconnect
      leaves it set, a successful one clears it, and a call ending in end-of-stream sets it. */
  function NextConnError(connError: bool, reconnect: Connect, eof: bool): (flag: bool)
    ensures eof ==> flag
    ensures !connError && !eof ==> !flag
  {
    if eof then true
    else if connError then reconnect.Refused?
    else false
  }
}
