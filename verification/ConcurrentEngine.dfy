/** The concurrent engine against the naive database: whatever the interleaving, the
    lock policy and the table switches, every answer is the naive database's. */
module ConcurrentEngine {
  import opened Text
  import opened Statements
  import opened Storage
  import opened EngineModel
  import opened WriteThrough
  import opened EngineInvariant
  import opened Naive
  import opened Queries
  import opened LockProtocol
  import opened Serializability

  function NaivePerform(db: Db, q: Query): (outcome: (Db, DbResult))
    requires QueryFits(q)
  {
    match q
    case Parsed(stmt) => Answer(db, stmt)
    case Rejected(message) => (db, Failure(message))
  }

  function NaiveAfter(db: Db, qs: seq<Query>): (db': Db)
    requires AllQueriesFit(qs)
  {
    if qs == [] then db else NaivePerform(NaiveAfter(db, qs[..|qs| - 1]), qs[|qs| - 1]).0
  }

  /** The queries survive where they stand in the order. */
  predicate SafeQueries(db: Db, qs: seq<Query>)
    requires AllQueriesFit(qs)
  {
    forall i :: 0 <= i < |qs| ==> QuerySurvives(NaiveAfter(db, qs[..i]), qs[i])
  }

  predicate QuerySurvives(db: Db, q: Query)
    requires QueryFits(q)
  {
    q.Parsed? ==> Survives(db, q.stmt)
  }

  /** Plain queries are safe in every order. */
  lemma PlainQueriesAreSafe(db: Db, qs: seq<Query>)
    requires AllQueriesFit(qs) && forall i :: 0 <= i < |qs| && qs[i].Parsed? ==> Plain(qs[i].stmt)
    ensures SafeQueries(db, qs)
  {
    hide Fits, NaiveAfter, Plain, Survives;
    forall i | 0 <= i < |qs| ensures QuerySurvives(NaiveAfter(db, qs[..i]), qs[i]) {
      if qs[i].Parsed? {
        PlainExactly(qs[i].stmt);
      }
    }
  }

  predicate QueryAdmissible(q: Query, names: set<string>) {
    q.Parsed? ==> Admissible(q.stmt, names)
  }

  predicate AllQueriesAdmissible(qs: seq<Query>, names: set<string>) {
    forall i :: 0 <= i < |qs| ==> QueryAdmissible(qs[i], names)
  }

  lemma PerformRefines(s: State, q: Query, names: set<string>)
    requires Coherent(s, names) && OneSpelling(names) && QueryAdmissible(q, names)
    ensures var (s', result) := Perform(s, q);
            && NaivePerform(DbOf(s.files), q).1 == result
            && (QuerySurvives(DbOf(s.files), q) ==>
              Coherent(s', names) && NaivePerform(DbOf(s.files), q).0 == DbOf(s'.files))
  {
    hide Coherent, DbOf, Execute, Answer, Survives;
    if q.Parsed? {
      StatementRefinesExactly(s, q.stmt, names);
    }
  }

  lemma SafePrefix(db: Db, qs: seq<Query>, n: nat)
    requires AllQueriesFit(qs) && SafeQueries(db, qs) && n <= |qs|
    ensures AllQueriesFit(qs[..n]) && SafeQueries(db, qs[..n])
  {
    hide NaiveAfter, QuerySurvives, QueryFits;
    forall i | 0 <= i < n ensures QuerySurvives(NaiveAfter(db, qs[..n][..i]), qs[..n][i]) {
      assert qs[..n][..i] == qs[..i];
      assert QuerySurvives(NaiveAfter(db, qs[..i]), qs[i]);
    }
  }

  /** A safe serial run of queries stays coherent and means the naive database. */
  lemma {:induction false} AfterRefines(names: set<string>, init: State, qs: seq<Query>)
    requires Coherent(init, names) && OneSpelling(names) && AllQueriesAdmissible(qs, names)
    ensures EngineOk(init) && AllQueriesFit(qs)
    ensures SafeQueries(DbOf(init.files), qs) ==>
              && Coherent(After(init, qs), names)
              && DbOf(After(init, qs).files) == NaiveAfter(DbOf(init.files), qs)
  {
    hide Coherent, DbOf, Perform, NaivePerform, EngineOk, QuerySurvives;
    CoherentIsOk(init, names);
    if qs != [] && SafeQueries(DbOf(init.files), qs) {
      var n := |qs| - 1;
      SafePrefix(DbOf(init.files), qs, n);
      AfterRefines(names, init, qs[..n]);
      assert QuerySurvives(NaiveAfter(DbOf(init.files), qs[..n]), qs[n]);
      PerformRefines(After(init, qs[..n]), qs[n], names);
    }
  }

  /** Every answer of a concurrent run is the naive database's answer at the query's
      place in the serial order, as long as the queries up to it spell their tables in
      one way and those before it survive. */
  lemma ConcurrentAnswersAreNaive(policy: Policy, names: set<string>, init: State, run: seq<Sys>, events: seq<Event>,
                                  n: nat, t: nat)
    requires Coherent(init, names) && OneSpelling(names) && IsRun(policy, init, run, events) && n < |run|
    requires t < |run[n].sessions| && run[n].sessions[t].pc.Done?
    ensures LogOk(run[n]) && AllQueriesFit(Order(run[n]))
    ensures exists i :: 0 <= i < |run[n].log| && run[n].log[i] == t
                        && IsNaiveAnswer(DbOf(init.files), names, Order(run[n]), i, run[n].sessions[t].pc.result)
  {
    hide Coherent, DbOf, Perform, NaivePerform, EngineOk, IsRun, After, NaiveAfter, QueryFits, QueryAdmissible;
    CoherentIsOk(init, names);
    AnswersAreSerial(policy, init, run, events, n, t);
    var s, qs := run[n], Order(run[n]);
    var i :| 0 <= i < |s.log| && s.log[i] == t && s.sessions[t].pc.result == AnswerOf(init, qs, i);
    if AllQueriesAdmissible(qs[..i + 1], names) && SafeQueries(DbOf(init.files), qs[..i]) {
      assert qs[..i + 1][i] == qs[i] && qs[..i + 1][..i] == qs[..i];
      AfterRefines(names, init, qs[..i]);
      PerformRefines(After(init, qs[..i]), qs[i], names);
    }
    assert IsNaiveAnswer(DbOf(init.files), names, qs, i, s.sessions[t].pc.result);
  }

  /** The answer that the naive database gives to query `i` after the queries before
      it, if those survive and all are about tables in `names`. */
  predicate IsNaiveAnswer(db: Db, names: set<string>, qs: seq<Query>, i: nat, result: DbResult)
    requires AllQueriesFit(qs) && i < |qs|
  {
    AllQueriesAdmissible(qs[..i + 1], names) && SafeQueries(db, qs[..i]) ==>
      result == NaivePerform(NaiveAfter(db, qs[..i]), qs[i]).1
  }
}
