/** One SQL text as the engine facade sees it (src/db/db_engine_facade.c): either a
    statement, or a text that the front end refuses with a message. */
module Queries {
  import opened Text
  import opened Statements
  import opened EngineModel
  import opened EngineInvariant

  datatype Query = Parsed(stmt: Statement) | Rejected(message: string)

  predicate QueryFits(q: Query) {
    q.Parsed? ==> Fits(q.stmt)
  }

  predicate AllQueriesFit(qs: seq<Query>) {
    forall i :: 0 <= i < |qs| ==> QueryFits(qs[i])
  }

  /** `db_execute_sql` after the front end. */
  function Perform(s: State, q: Query): (outcome: (State, DbResult))
    requires RuntimeOk(s.runtime) && QueryFits(q)
  {
    match q
    case Parsed(stmt) => Execute(s, stmt)
    case Rejected(message) => (s, Failure(message))
  }

  lemma PerformKeepsOk(s: State, q: Query)
    requires EngineOk(s) && QueryFits(q)
    ensures EngineOk(Perform(s, q).0)
  {
    if q.Parsed? {
      ExecuteKeepsOk(s, q.stmt);
    }
  }
}
