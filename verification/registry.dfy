/** The aggregator's registration table (infra/trader.py, `Trader.register`, `deregister`,
    `submit_decision`). Each operation runs under the table's lock, so each is one atomic step
    here. */
module Registry {
  import opened Wrappers
  import opened Maps

  type AgentId = string

  /** A strategy's decision: the value it submitted and the round timestamp it was made for. */
  datatype Decision = Decision(value: real, decidedAt: int)

  /** Registered strategies and their latest decision; `None` until one is submitted. */
  type Table = map<AgentId, Option<Decision>>

  /** Explicit registration: accepted only for an identifier not yet in the table, which then
      holds it with no decision. */
  function Register(t: Table, id: AgentId): (r: (bool, Table))
    ensures r.0 <==> id !in t
    ensures !r.0 ==> r.1 == t
    ensures r.0 ==> r.1.Keys == t.Keys + {id} && r.1[id] == None
    ensures AgreeOutside(t, r.1, id)
  {
    if id in t then (false, t)
    else (true, t[id := None])
  }

  /** Deregistration: the identifier is gone afterwards, whether or not it was there. */
  function Deregister(t: Table, id: AgentId): (r: Table)
    ensures r.Keys == t.Keys - {id}
    ensures AgreeOutside(t, r, id)
  {
    if id in t then t - {id} else t
  }

  /** A submission stores the decision under the identifier, registering it implicitly when
      it was absent. */
  function SubmitDecision(t: Table, d: Decision, id: AgentId): (r: Table)
    ensures r.Keys == t.Keys + {id}
    ensures r[id] == Some(d)
    ensures AgreeOutside(t, r, id)
  {
    t[id := Some(d)]
  }

  /** Deregistering twice is the same as deregistering once. */
  lemma DeregisterIdempotent(t: Table, id: AgentId)
    ensures Deregister(Deregister(t, id), id) == Deregister(t, id)
  {
  }

  /** An implicitly registered identifier cannot be registered explicitly afterwards. */
  lemma RegisterAfterSubmitRejected(t: Table, d: Decision, id: AgentId)
    ensures !Register(SubmitDecision(t, d, id), id).0
  {
  }

  /** After a deregistration the same identifier can register again. */
  lemma RegisterAfterDeregisterAccepted(t: Table, id: AgentId)
    ensures Register(Deregister(t, id), id).0
  {
  }

  /** Deregistration undoes a successful registration. */
  lemma DeregisterUndoesRegister(t: Table, id: AgentId)
    requires Register(t, id).0
    ensures Deregister(Register(t, id).1, id) == t
  {
    assert t[id := None] - {id} == t;
  }

  /** One call into the table. */
  datatype TableOp =
    | RegisterOp(id: AgentId)
    | DeregisterOp(id: AgentId)
    | SubmitOp(id: AgentId, decision: Decision)

  function ApplyOp(t: Table, op: TableOp): (r: Table)
  {
    match op
    case RegisterOp(id) => Register(t, id).1
    case DeregisterOp(id) => Deregister(t, id)
    case SubmitOp(id, d) => SubmitDecision(t, d, id)
  }

  /** The table after the calls `ops`, serialised in this order by the lock. */
  function Run(t: Table, ops: seq<TableOp>): (r: Table)
  {
    if |ops| == 0 then t
    else ApplyOp(Run(t, ops[..|ops| - 1]), ops[|ops| - 1])
  }

  /** `ops[i]` is the last call naming `id`. */
  predicate LastCallOn(ops: seq<TableOp>, id: AgentId, i: int)
  {
    && 0 <= i < |ops|
    && ops[i].id == id
    && forall j :: i < j < |ops| ==> ops[j].id != id
  }

  /** Whatever the interleaving of calls, an identifier is registered exactly when the last call
      naming it registered or submitted, or, if no call named it, when it was registered before. */
  lemma {:induction false} RunMembership(t: Table, ops: seq<TableOp>, id: AgentId)
    ensures id in Run(t, ops) <==>
              || (exists i :: LastCallOn(ops, id, i) && !ops[i].DeregisterOp?)
              || (id in t && forall j :: 0 <= j < |ops| ==> ops[j].id != id)
  {
    if |ops| > 0 {
      var n := |ops| - 1;
      var prefix := ops[..n];
      RunMembership(t, prefix, id);
      if ops[n].id == id {
        assert LastCallOn(ops, id, n);
        forall i | LastCallOn(ops, id, i)
          ensures i == n
        {
        }
      } else {
        forall i
          ensures LastCallOn(ops, id, i) <==> LastCallOn(prefix, id, i)
        {
        }
        assert (forall j :: 0 <= j < |ops| ==> ops[j].id != id) <==>
               (forall j :: 0 <= j < |prefix| ==> prefix[j].id != id);
        assert (exists i :: LastCallOn(ops, id, i) && !ops[i].DeregisterOp?) <==>
               (exists i :: LastCallOn(prefix, id, i) && !prefix[i].DeregisterOp?);
      }
    }
  }
}
