/** Every interleaving of sessions under the database lock gives each query the answer
    it gets when the queries run one at a time, in the order in which they acquired the
    lock they ran under. */
module Serializability {
  import opened Text
  import opened Statements
  import opened Storage
  import opened EngineModel
  import opened EngineInvariant
  import opened Queries
  import opened LockProtocol

  // ---- the invariant -------------------------------------------------------------

  predicate Holds(pc: Pc) {
    pc.Locked? || (pc.Lexing? && pc.underLock) || pc.Ready? || pc.Loaded? || pc.Projected? || pc.Answered?
  }

  predicate LockOk(policy: Policy, s: Sys, t: nat)
    requires t < |s.sessions|
  {
    && (t in s.readers <==> Holds(s.sessions[t].pc) && Shares(policy, s.sessions[t].mode))
    && (s.writer == Some(t) <==> Holds(s.sessions[t].pc) && !Shares(policy, s.sessions[t].mode))
  }

  /** A writer is alone, and the lock records exactly its holders. */
  predicate LocksOk(policy: Policy, s: Sys) {
    && (s.writer.Some? ==> s.readers == {} && s.writer.value < |s.sessions|)
    && (forall t :: t in s.readers ==> t < |s.sessions|)
    && forall t :: 0 <= t < |s.sessions| ==> LockOk(policy, s, t)
  }

  /** A session in read mode is a SELECT, and once it has made its check the table it
      reads stays loaded until it gives the lock back. */
  predicate SessionOk(session: Session, db: State) {
    && QueryFits(session.query)
    && (session.mode.ReadMode? ==> IsSelect(session.query))
    && (session.pc.Upgrading? ==> session.mode.WriteMode?)
    && (session.pc.Loaded? ==> session.query.Parsed? && !session.query.stmt.Delete?)
    && (session.pc.Projected? ==> IsSelect(session.query))
    && (Holds(session.pc) && !session.pc.Locked? ==> IsFinal(session, db))
  }

  predicate SessionsOk(s: Sys) {
    forall t :: 0 <= t < |s.sessions| ==> SessionOk(s.sessions[t], s.db)
  }

  /** The session has acquired the lock it runs under. */
  predicate IsLogged(session: Session, db: State) {
    && !session.pc.Waiting? && !session.pc.Upgrading? && (session.pc.Lexing? ==> session.pc.underLock)
    && (session.pc.Locked? ==> IsFinal(session, db))
  }

  predicate LogOk(s: Sys) {
    && (forall i, j :: 0 <= i < j < |s.log| ==> s.log[i] != s.log[j])
    && (forall i :: 0 <= i < |s.log| ==> s.log[i] < |s.sessions|)
    && forall t :: 0 <= t < |s.sessions| ==> (t in s.log <==> IsLogged(s.sessions[t], s.db))
  }

  /** The queries in log order. */
  function Order(s: Sys): (qs: seq<Query>)
    requires LogOk(s)
    ensures |qs| == |s.log|
  {
    seq(|s.log|, i requires 0 <= i < |s.log| => s.sessions[s.log[i]].query)
  }

  /** Nothing this session still does changes the shared state. */
  predicate Applied(session: Session) {
    session.mode.ReadMode? || session.pc.Projected? || session.pc.Answered? || session.pc.Done?
  }

  /** How far a logged session has come, against the state `before` it. */
  predicate EntryOk(q: Query, pc: Pc, before: State, db: State)
    requires RuntimeOk(before.runtime) && QueryFits(q)
  {
    match pc
    case Waiting => false
    case Upgrading => false
    case Lexing(_, underLock) => underLock && db == before
    case Locked => db == before
    case Ready => db == before
    case Loaded => Begin(before, q) == (db, Loaded)
    case Projected(columns) => Begin(before, q) == (db, Loaded) && columns == db.runtime.columns
    case Answered(result) => result == Perform(before, q).1
    case Done(result) => result == Perform(before, q).1
  }

  predicate EntryAt(s: Sys, init: State, i: nat)
    requires EngineOk(init) && LogOk(s) && AllQueriesFit(Order(s)) && i < |s.log|
  {
    EntryOk(Order(s)[i], s.sessions[s.log[i]].pc, After(init, Order(s)[..i]), s.db)
  }

  predicate EntriesOk(s: Sys, init: State)
    requires EngineOk(init) && LogOk(s) && AllQueriesFit(Order(s))
  {
    forall i :: 0 <= i < |s.log| ==> EntryAt(s, init, i)
  }

  /** Only the last logged session can be in the middle of changing the state. */
  predicate SettledOk(s: Sys, init: State)
    requires EngineOk(init) && LogOk(s) && AllQueriesFit(Order(s))
  {
    && (forall i :: 0 <= i < |s.log| - 1 ==> Applied(s.sessions[s.log[i]]))
    && (s.log == [] || Applied(s.sessions[s.log[|s.log| - 1]]) ==> s.db == After(init, Order(s)))
  }

  predicate Inv(policy: Policy, s: Sys, init: State) {
    && EngineOk(init) && EngineOk(s.db)
    && LocksOk(policy, s) && SessionsOk(s) && LogOk(s)
    && AllQueriesFit(Order(s)) && EntriesOk(s, init) && SettledOk(s, init)
  }

  // ---- one query, phase by phase -----------------------------------------------------

  /** A SELECT on the loaded table finds nothing to do: no step under the read lock
      changes the shared state. */
  lemma LoadedSelectIsReadOnly(db: State, q: Query)
    requires RuntimeOk(db.runtime) && QueryFits(q) && IsSelect(q) && IsLoadedFor(db.runtime, q.stmt.select.table)
    ensures Begin(db, q) == (db, Loaded) && Perform(db, q).0 == db
  {
  }

  lemma SharedSelectIsReadOnly(session: Session, db: State)
    requires EngineOk(db) && SessionOk(session, db) && session.mode.ReadMode? && session.pc.Ready?
    ensures Begin(db, session.query) == (db, Loaded) && Perform(db, session.query).0 == db
  {
    LoadedSelectIsReadOnly(db, session.query);
  }

  /** The phases of a session add up to one statement. */
  lemma PhasesArePerform(db: State, q: Query)
    requires EngineOk(db) && QueryFits(q)
    ensures var (db1, pc1) := Begin(db, q);
            && EngineOk(db1)
            && (pc1.Answered? ==> Perform(db, q) == (db1, pc1.result))
            && (pc1.Answered? || pc1.Loaded?)
            && (pc1.Loaded? ==>
                  && q.Parsed? && !q.stmt.Delete? && CanWork(db1, q)
                  && EngineOk(Work(db1, q).0)
                  && (q.stmt.Insert? ==>
                    Work(db1, q).1.Answered? && Perform(db, q) == (Work(db1, q).0, Work(db1, q).1.result))
                  && (q.stmt.Select? ==>
                        && Rectangular(db1.runtime.rows, |db1.runtime.columns|)
                          && Work(db1, q) == (db1, Projected(db1.runtime.columns))
                        && Perform(db, q) == (db1, SelectFrom(db1.runtime.columns, db1.runtime.rows, q.stmt.select))))
  {
    PerformKeepsOk(db, q);
    if q.Parsed? && !q.stmt.Delete? {
      LoadKeepsOk(db, TableOf(q.stmt));
    }
    hide InsertRow, SelectFrom, Rectangular, IdsOk, NextIdOf;
  }

  lemma AfterOneMore(init: State, qs: seq<Query>, q: Query)
    requires EngineOk(init) && AllQueriesFit(qs) && QueryFits(q)
    ensures AllQueriesFit(qs + [q])
    ensures After(init, qs + [q]) == Perform(After(init, qs), q).0
  {
    assert (qs + [q])[..|qs|] == qs;
  }

  // ---- one step -------------------------------------------------------------------------

  /** A lexing step moves its session along and touches nothing else but the cache. */
  lemma LexIs(policy: Policy, s: Sys, t: nat)
    requires t < |s.sessions| && s.sessions[t].pc.Lexing? && Lex(policy, s, t).Some?
    ensures var s', session := Lex(policy, s, t).value, s.sessions[t];
            && |s'.sessions| == |s.sessions|
            && s' == s.(cacheHolder := s'.cacheHolder, sessions := s.sessions[t := session.(pc := s'.sessions[t].pc)])
            && var pc := s'.sessions[t].pc;
               if session.pc.underLock then pc.Ready? || (pc.Lexing? && pc.underLock)
               else pc.Waiting? || (pc.Lexing? && !pc.underLock)
  {
  }

  lemma OnlyRunsChange(policy: Policy, s: Sys, t: nat)
    requires t < |s.sessions| && Advance(policy, s, t).Some? && !Runs(s.sessions[t].pc)
    ensures Advance(policy, s, t).value.db == s.db
  {
    if s.sessions[t].pc.Lexing? {
      LexIs(policy, s, t);
    }
    hide Lex, IsFinal, Shares;
  }

  /** A step is one session's own, and only a run under the lock touches the tables. */
  lemma StepsStayLocal(policy: Policy, s: Sys, t: nat)
    requires t < |s.sessions| && Advance(policy, s, t).Some?
    ensures var s', session := Advance(policy, s, t).value, s.sessions[t];
            && |s'.sessions| == |s.sessions|
            && (forall u :: 0 <= u < |s.sessions| && u != t ==> s'.sessions[u] == s.sessions[u])
            && s'.sessions[t].query == session.query
            && (Runs(session.pc) ==>
                  Run(s.db, session.query, session.pc).Some?
                  && s'.db == Run(s.db, session.query, session.pc).value.0)
  {
    hide Run, Lex, IsFinal, Shares;
    if s.sessions[t].pc.Lexing? {
      LexIs(policy, s, t);
    }
  }

  lemma ReaderChangesNothing(session: Session, db: State)
    requires EngineOk(db) && SessionOk(session, db) && session.mode.ReadMode?
    requires Runs(session.pc) && Run(db, session.query, session.pc).Some?
    ensures Run(db, session.query, session.pc).value.0 == db
  {
    hide Begin, SelectFrom, IdsOk;
    if session.pc.Ready? {
      LoadedSelectIsReadOnly(db, session.query);
    }
  }

  /** A step that changes the shared state is taken by the one holder of the lock. */
  lemma ChangesAreExclusive(policy: Policy, s: Sys, t: nat)
    requires EngineOk(s.db) && LocksOk(policy, s) && SessionsOk(s)
    requires t < |s.sessions| && Advance(policy, s, t).Some?
    ensures var s' := Advance(policy, s, t).value;
            && |s'.sessions| == |s.sessions|
            && (forall u :: 0 <= u < |s.sessions| && u != t ==> s'.sessions[u] == s.sessions[u])
            && s'.sessions[t].query == s.sessions[t].query
            && (s'.db == s.db || (s.sessions[t].mode.WriteMode? && forall u :: 0 <= u < |s.sessions| && u != t ==>
              !Holds(s.sessions[u].pc)))
  {
    hide Advance, Run, EngineOk, SessionOk;
    var session := s.sessions[t];
    StepsStayLocal(policy, s, t);
    if !Runs(session.pc) {
      OnlyRunsChange(policy, s, t);
    } else if session.mode.ReadMode? {
      ReaderChangesNothing(session, s.db);
    } else {
      assert LockOk(policy, s, t);
      forall u | 0 <= u < |s.sessions| && u != t ensures !Holds(s.sessions[u].pc) {
        assert LockOk(policy, s, u);
      }
    }
  }

  /** The session keeps or lacks the lock as before, and nobody else is concerned. */
  lemma SameHoldingKeepsLocks(policy: Policy, s: Sys, s': Sys, t: nat)
    requires LocksOk(policy, s) && t < |s.sessions| == |s'.sessions|
    requires s'.readers == s.readers && s'.writer == s.writer && s'.sessions == s.sessions[t := s'.sessions[t]]
    requires s'.sessions[t].mode == s.sessions[t].mode && Holds(s'.sessions[t].pc) == Holds(s.sessions[t].pc)
    ensures LocksOk(policy, s')
  {
    hide Shares, Holds;
    forall u | 0 <= u < |s'.sessions| ensures LockOk(policy, s', u) {
      assert LockOk(policy, s, u);
    }
  }

  lemma AcquiringKeepsLocks(policy: Policy, s: Sys, t: nat, session: Session)
    requires LocksOk(policy, s) && t < |s.sessions| && CanLock(policy, s, session.mode)
    requires !Holds(s.sessions[t].pc) && Holds(session.pc) && session.mode == s.sessions[t].mode
    ensures LocksOk(policy, Lock(policy, s, t).(sessions := s.sessions[t := session]))
  {
    hide Holds, IsFinal;
    var s' := Lock(policy, s, t).(sessions := s.sessions[t := session]);
    forall u | 0 <= u < |s'.sessions| ensures LockOk(policy, s', u) {
      assert LockOk(policy, s, u);
    }
  }

  lemma ReleasingKeepsLocks(policy: Policy, s: Sys, t: nat, session: Session)
    requires LocksOk(policy, s) && t < |s.sessions| && !Holds(session.pc)
    ensures LocksOk(policy, Unlock(s, t).(sessions := s.sessions[t := session]))
  {
    hide Holds, Shares;
    var s' := Unlock(s, t).(sessions := s.sessions[t := session]);
    forall u | 0 <= u < |s'.sessions| ensures LockOk(policy, s', u) {
      assert LockOk(policy, s, u);
    }
  }

  lemma RunKeepsHolding(db: State, q: Query, pc: Pc)
    requires Run(db, q, pc).Some?
    ensures Holds(pc) && Holds(Run(db, q, pc).value.1)
  {
    hide Prepare, InsertRow, SelectFrom, Rectangular;
  }

  lemma StepKeepsLocks(policy: Policy, s: Sys, t: nat)
    requires LocksOk(policy, s) && t < |s.sessions| && Advance(policy, s, t).Some?
    ensures LocksOk(policy, Advance(policy, s, t).value)
  {
    hide LocksOk, Lex, Run, Lock, Unlock, CanLock, IsFinal;
    var session, s' := s.sessions[t], Advance(policy, s, t).value;
    match session.pc
    case Lexing(_, _) =>
      LexIs(policy, s, t);
      SameHoldingKeepsLocks(policy, s, s', t);
    case Waiting => AcquiringKeepsLocks(policy, s, t, session.(pc := Locked));
    case Upgrading => AcquiringKeepsLocks(policy, s, t, session.(pc := FirstPc(session.query, true)));
    case Locked =>
      if IsFinal(session, s.db) {
        SameHoldingKeepsLocks(policy, s, s', t);
      } else {
        ReleasingKeepsLocks(policy, s, t, session.(mode := WriteMode, pc := Upgrading));
      }
    case Answered(result) => ReleasingKeepsLocks(policy, s, t, session.(pc := Done(result)));
    case _ =>
      RunKeepsHolding(s.db, session.query, session.pc);
      SameHoldingKeepsLocks(policy, s, s', t);
  }

  /** What a running session knows about the state `before` it ran. */
  predicate CameFrom(session: Session, before: State, db: State) {
    && EngineOk(before) && QueryFits(session.query)
    && EntryOk(session.query, session.pc, before, db)
  }

  lemma StepKeepsSessions(policy: Policy, s: Sys, t: nat, before: State)
    requires EngineOk(s.db) && LocksOk(policy, s) && SessionsOk(s)
    requires t < |s.sessions| && Advance(policy, s, t).Some?
    requires IsLogged(s.sessions[t], s.db) ==> CameFrom(s.sessions[t], before, s.db)
    ensures EngineOk(Advance(policy, s, t).value.db)
    ensures SessionsOk(Advance(policy, s, t).value)
  {
    hide Begin, Work, SelectFrom, Perform, EngineOk, QueryFits, Rectangular, Load, InsertRow, IsLoadedFor, Run, Lex,
      Lock, CanLock;
    ChangesAreExclusive(policy, s, t);
    var session := s.sessions[t];
    var s' := Advance(policy, s, t).value;
    assert SessionOk(session, s.db);
    if Runs(session.pc) {
      RunStepIsOk(session, s.db, before);
    } else {
      OnlyRunsChange(policy, s, t);
      if session.pc.Lexing? {
        LexIs(policy, s, t);
      }
    }
    forall u | 0 <= u < |s'.sessions| && u != t ensures SessionOk(s'.sessions[u], s'.db) {
      assert SessionOk(s.sessions[u], s.db);
    }
  }

  predicate Runs(pc: Pc) {
    pc.Ready? || pc.Loaded? || pc.Projected?
  }

  /** Where a session's step under its lock leads: on to the next phase, and to the
      state and the answer of the whole statement when it has made its changes. */
  lemma RunStepIsOk(session: Session, db: State, before: State)
    requires EngineOk(db) && SessionOk(session, db) && Runs(session.pc)
    requires CameFrom(session, before, db)
    ensures Run(db, session.query, session.pc).Some?
    ensures var (db', pc) := Run(db, session.query, session.pc).value;
            && EngineOk(db') && SessionOk(session.(pc := pc), db')
            && EntryOk(session.query, pc, before, db') && Holds(pc)
            && (!Applied(session) && Applied(session.(pc := pc)) ==> db' == Perform(before, session.query).0)
            && (Applied(session) ==> db' == db && Applied(session.(pc := pc)))
  {
    hide Begin, Work, Perform, EngineOk, QueryFits, SelectFrom, CanWork, Rectangular, IsLoadedFor;
    PhasesArePerform(before, session.query);
    if session.mode.ReadMode? && session.pc.Ready? {
      SharedSelectIsReadOnly(session, db);
    }
  }

  /** A lock acquisition that is final appends the session to the log; no other step
      touches the log, and no step changes a query. */
  lemma StepKeepsLog(policy: Policy, s: Sys, t: nat)
    requires EngineOk(s.db) && LocksOk(policy, s) && SessionsOk(s) && LogOk(s)
    requires t < |s.sessions| && Advance(policy, s, t).Some?
    ensures var s' := Advance(policy, s, t).value;
            && LogOk(s')
            && ((s'.log == s.log && Order(s') == Order(s))
                || (s'.log == s.log + [t] && t !in s.log && Order(s') == Order(s) + [s.sessions[t].query]))
  {
    hide Begin, Work, SelectFrom, EngineOk, QueryFits, IsLoadedFor, CanWork, Rectangular, SessionOk;
    ChangesAreExclusive(policy, s, t);
    var s' := Advance(policy, s, t).value;
    forall u | 0 <= u < |s'.sessions| && u != t
      ensures IsLogged(s'.sessions[u], s'.db) == IsLogged(s.sessions[u], s.db) {
    }
    StepLogsItself(policy, s, t);
  }

  lemma StepLogsItself(policy: Policy, s: Sys, t: nat)
    requires t < |s.sessions| && Advance(policy, s, t).Some? && SessionOk(s.sessions[t], s.db)
    ensures var s' := Advance(policy, s, t).value;
            || (s'.log == s.log && IsLogged(s'.sessions[t], s'.db) == IsLogged(s.sessions[t], s.db))
            || (s'.log == s.log + [t] && s'.db == s.db && IsLogged(s'.sessions[t], s'.db)
              && !IsLogged(s.sessions[t], s.db))
  {
    hide SelectFrom, QueryFits, IsLoadedFor, Rectangular, Run, Lex, InsertRow;
    var session := s.sessions[t];
    if session.pc.Lexing? {
      LexIs(policy, s, t);
    } else if Runs(session.pc) {
      RunKeepsHolding(s.db, session.query, session.pc);
      RunsGoOn(s.db, session.query, session.pc);
    }
  }

  lemma RunsGoOn(db: State, q: Query, pc: Pc)
    requires Run(db, q, pc).Some?
    ensures var pc' := Run(db, q, pc).value.1; pc'.Loaded? || pc'.Projected? || pc'.Answered?
  {
    hide Prepare, InsertRow, SelectFrom, Rectangular;
  }

  /** While no session holds the lock alone, the shared state is the serial one. */
  lemma QuietMeansSerial(policy: Policy, s: Sys, init: State)
    requires Inv(policy, s, init) && s.writer.None?
    ensures s.db == After(init, Order(s))
    ensures forall i :: 0 <= i < |s.log| ==> Applied(s.sessions[s.log[i]])
  {
    hide After, Perform, Order, EngineOk, EntryOk, IsFinal;
    if s.log != [] {
      var t := s.log[|s.log| - 1];
      assert LockOk(policy, s, t) && IsLogged(s.sessions[t], s.db);
    }
  }

  /** The acquisition of a final lock starts from the serial state. */
  lemma GrowingKeepsEntries(policy: Policy, s: Sys, init: State, t: nat)
    requires Inv(policy, s, init) && t < |s.sessions| && Advance(policy, s, t).Some?
    requires Grew(s, Advance(policy, s, t).value, t)
    ensures var s' := Advance(policy, s, t).value;
            AllQueriesFit(Order(s')) && EntriesOk(s', init) && SettledOk(s', init)
  {
    hide After, Perform, Order, EngineOk, EntryAt, EntryOk, Advance, QueryFits, LocksOk, IsFinal, QueryFits;
    var s', q := Advance(policy, s, t).value, s.sessions[t].query;
    assert SessionOk(s.sessions[t], s.db);
    AfterOneMore(init, Order(s), q);
    QuietMeansSerial(policy, s, init) by { GrownSessionIsReady(policy, s, t); }
    GrownSessionIsReady(policy, s, t);
    forall i | 0 <= i < |s'.log| ensures EntryAt(s', init, i) {
      GrownEntry(s, s', init, t, i);
    }
  }

  predicate Grew(s: Sys, s': Sys, t: nat)
    requires LogOk(s) && t < |s.sessions|
  {
    && LogOk(s') && s'.log == s.log + [t] && t !in s.log && Order(s') == Order(s) + [s.sessions[t].query]
  }

  lemma GrownEntry(s: Sys, s': Sys, init: State, t: nat, i: nat)
    requires EngineOk(init) && LogOk(s) && AllQueriesFit(Order(s)) && EntriesOk(s, init)
    requires t < |s.sessions| && Grew(s, s', t) && AllQueriesFit(Order(s')) && i < |s'.log|
    requires s'.db == s.db == After(init, Order(s)) && |s'.sessions| == |s.sessions|
    requires forall u :: 0 <= u < |s.sessions| && u != t ==> s'.sessions[u] == s.sessions[u]
    requires EngineOk(s.db) && QueryFits(s.sessions[t].query)
      && EntryOk(s.sessions[t].query, s'.sessions[t].pc, s.db, s.db)
    ensures EntryAt(s', init, i)
  {
    hide After, Perform, Begin, EngineOk, Order, EntryOk;
    var n := |s.log|;
    if i < n {
      assert EntryAt(s, init, i);
      assert Order(s')[..i] == Order(s)[..i];
    } else {
      assert Order(s')[..n] == Order(s);
    }
  }

  lemma FinalReaderIsReadOnly(session: Session, db: State)
    requires EngineOk(db) && SessionOk(session, db) && session.mode.ReadMode? && IsFinal(session, db)
    ensures Perform(db, session.query).0 == db
  {
    hide Begin, Perform;
    LoadedSelectIsReadOnly(db, session.query);
  }

  lemma GrownSessionIsReady(policy: Policy, s: Sys, t: nat)
    requires t < |s.sessions| && Advance(policy, s, t).Some? && EngineOk(s.db)
    requires SessionOk(s.sessions[t], s.db) && Advance(policy, s, t).value.log != s.log
    ensures var s', q := Advance(policy, s, t).value, s.sessions[t].query;
            && s.writer.None? && s'.db == s.db && s'.sessions == s.sessions[t := s'.sessions[t]]
            && EntryOk(q, s'.sessions[t].pc, s.db, s'.db)
            && (Applied(s'.sessions[t]) ==> Perform(s.db, q).0 == s.db)
  {
    hide Perform, Begin, Run, Lex, Shares, IsFinal, EngineOk, QueryFits, RuntimeOk;
    var session := s.sessions[t];
    if session.pc.Lexing? {
      LexIs(policy, s, t);
    }
    if session.mode.ReadMode? && IsFinal(session, s.db) {
      FinalReaderIsReadOnly(session, s.db);
    }
  }

  /** A logged session's own step keeps its entry right, and when it has made its
      changes the shared state is the one after its query. */
  lemma StepKeepsItsEntry(policy: Policy, s: Sys, t: nat, before: State)
    requires t < |s.sessions| && Advance(policy, s, t).Some? && EngineOk(s.db)
    requires SessionOk(s.sessions[t], s.db) && IsLogged(s.sessions[t], s.db)
    requires CameFrom(s.sessions[t], before, s.db)
    ensures var s', q := Advance(policy, s, t).value, s.sessions[t].query;
            && EntryOk(q, s'.sessions[t].pc, before, s'.db)
            && (Applied(s.sessions[t]) ==> s'.db == s.db && Applied(s'.sessions[t]))
            && (!Applied(s.sessions[t]) && Applied(s'.sessions[t]) ==> s'.db == Perform(before, q).0)
  {
    hide Run, Perform, Begin, EngineOk, QueryFits, IsFinal, SessionOk;
    var session := s.sessions[t];
    if Runs(session.pc) {
      RunStepIsOk(session, s.db, before);
    } else if session.pc.Lexing? {
      hide Lex;
      LexIs(policy, s, t);
    } else {
      hide Lock, CanLock;
      assert session.pc.Locked? || session.pc.Answered?;
    }
  }

  lemma StayingKeepsEntries(policy: Policy, s: Sys, init: State, t: nat)
    requires Inv(policy, s, init) && t < |s.sessions| && Advance(policy, s, t).Some?
    requires var s' := Advance(policy, s, t).value; LogOk(s') && s'.log == s.log && Order(s') == Order(s)
    ensures EntriesOk(Advance(policy, s, t).value, init)
  {
    hide After, Perform, Order, EngineOk, EntryOk, Advance, QueryFits, LocksOk, QueryFits, SettledOk, SessionOk;
    var s' := Advance(policy, s, t).value;
    ChangesAreExclusive(policy, s, t);
    forall i | 0 <= i < |s'.log| ensures EntryAt(s', init, i) {
      assert EntryAt(s, init, i) && IsLogged(s.sessions[s.log[i]], s.db);
      StayingEntry(policy, s, init, t, i);
    }
  }

  lemma StayingEntry(policy: Policy, s: Sys, init: State, t: nat, i: nat)
    requires Inv(policy, s, init) && t < |s.sessions| && Advance(policy, s, t).Some? && i < |s.log|
    requires var s' := Advance(policy, s, t).value; LogOk(s') && s'.log == s.log && Order(s') == Order(s)
    ensures EntryAt(Advance(policy, s, t).value, init, i)
    ensures s.log[i] == t ==> CameFrom(s.sessions[t], After(init, Order(s)[..i]), s.db)
  {
    hide After, Perform, Begin, Order, EngineOk, Advance, LocksOk, QueryFits, IsFinal;
    var u := s.log[i];
    assert EntryAt(s, init, i) && IsLogged(s.sessions[u], s.db) && SessionOk(s.sessions[u], s.db);
    assert Order(s)[i] == s.sessions[u].query by { QueryAt(s, i); }
    ChangesAreExclusive(policy, s, t);
    if u == t {
      StepKeepsItsEntry(policy, s, t, After(init, Order(s)[..i]));
    }
  }

  lemma QueryAt(s: Sys, i: nat)
    requires LogOk(s) && i < |s.log|
    ensures Order(s)[i] == s.sessions[s.log[i]].query
  {
  }

  lemma StayingKeepsSettled(policy: Policy, s: Sys, init: State, t: nat)
    requires Inv(policy, s, init) && t < |s.sessions| && Advance(policy, s, t).Some?
    requires var s' := Advance(policy, s, t).value; LogOk(s') && s'.log == s.log && Order(s') == Order(s)
    ensures SettledOk(Advance(policy, s, t).value, init)
  {
    hide After, Perform, Begin, Order, EngineOk, Advance, QueryFits, IsFinal, EntryOk, LocksOk, Holds;
    var s' := Advance(policy, s, t).value;
    ChangesAreExclusive(policy, s, t);
    var n := |s.log|;
    if t in s.log {
      var i :| 0 <= i < n && s.log[i] == t;
      StayingEntry(policy, s, init, t, i);
      assert IsLogged(s.sessions[t], s.db) && SessionOk(s.sessions[t], s.db);
      StepKeepsItsEntry(policy, s, t, After(init, Order(s)[..i]));
      if i == n - 1 {
        LastAfter(s, init);
      }
    } else {
      UnloggedChangesNothing(policy, s, t);
    }
  }

  lemma LastAfter(s: Sys, init: State)
    requires EngineOk(init) && LogOk(s) && AllQueriesFit(Order(s)) && s.log != []
    ensures var n := |s.log| - 1;
            After(init, Order(s)) == Perform(After(init, Order(s)[..n]), s.sessions[s.log[n]].query).0
  {
  }

  lemma UnloggedChangesNothing(policy: Policy, s: Sys, t: nat)
    requires t < |s.sessions| && Advance(policy, s, t).Some? && !IsLogged(s.sessions[t], s.db)
    ensures Advance(policy, s, t).value.db == s.db
  {
  }

  lemma MoveKeepsInv(policy: Policy, s: Sys, init: State, t: nat)
    requires Inv(policy, s, init) && t < |s.sessions| && Advance(policy, s, t).Some?
    ensures Inv(policy, Advance(policy, s, t).value, init)
  {
    hide After, Order, EngineOk, Advance, QueryFits, EntryAt, SessionOk, EntriesOk, SettledOk, LocksOk;
    var s' := Advance(policy, s, t).value;
    StepKeepsLocks(policy, s, t);
    StepKeepsLog(policy, s, t);
    var before := BeforeOf(s, init, t);
    StepKeepsSessions(policy, s, t, before);
    if s'.log == s.log {
      StayingKeepsEntries(policy, s, init, t);
      StayingKeepsSettled(policy, s, init, t);
    } else {
      GrowingKeepsEntries(policy, s, init, t);
    }
  }

  /** The serial state before a logged session's query. */
  lemma BeforeOf(s: Sys, init: State, t: nat) returns (before: State)
    requires EngineOk(init) && SessionsOk(s) && LogOk(s) && AllQueriesFit(Order(s))
      && EntriesOk(s, init)
    requires t < |s.sessions|
    ensures IsLogged(s.sessions[t], s.db) ==> CameFrom(s.sessions[t], before, s.db)
  {
    hide After, Order, EngineOk, EntryOk, IsLogged;
    before := init;
    if t in s.log {
      var i :| 0 <= i < |s.log| && s.log[i] == t;
      assert EntryAt(s, init, i) && SessionOk(s.sessions[t], s.db);
      QueryAt(s, i);
      before := After(init, Order(s)[..i]);
    }
  }

  lemma ArriveKeepsInv(policy: Policy, s: Sys, init: State, q: Query, missesFirst: bool, missesThen: bool)
    requires Inv(policy, s, init) && QueryFits(q)
    ensures Inv(policy, Arrive(s, q, missesFirst, missesThen), init)
  {
    hide After, EngineOk, QueryFits, EntryOk, Order, IsFinal;
    var s' := Arrive(s, q, missesFirst, missesThen);
    forall t | 0 <= t < |s'.sessions| ensures LockOk(policy, s', t) && SessionOk(s'.sessions[t], s'.db) {
      if t < |s.sessions| {
        assert LockOk(policy, s, t) && SessionOk(s.sessions[t], s.db);
      }
    }
    assert LogOk(s');
    SameOrder(s, s');
    forall i | 0 <= i < |s'.log| ensures EntryAt(s', init, i) {
      assert EntryAt(s, init, i);
    }
  }

  lemma SameOrder(s: Sys, s': Sys)
    requires LogOk(s) && LogOk(s') && s'.log == s.log && s.sessions <= s'.sessions
    ensures Order(s') == Order(s)
  {
  }

  /** Every reachable state satisfies the invariant. */
  lemma {:induction false} RunKeepsInv(policy: Policy, init: State, run: seq<Sys>, events: seq<Event>, n: nat)
    requires EngineOk(init) && IsRun(policy, init, run, events) && n < |run|
    ensures Inv(policy, run[n], init)
  {
    hide EngineOk, Advance, QueryFits, AllQueriesFit, SettledOk;
    if n == 0 {
      StartIsOk(policy, init);
    } else {
      RunKeepsInv(policy, init, run, events, n - 1);
      assert Next(policy, run[n - 1], events[n - 1], run[n - 1 + 1]);
      match events[n - 1]
      case Arrives(q, first, second) => ArriveKeepsInv(policy, run[n - 1], init, q, first, second);
      case Moves(t) => MoveKeepsInv(policy, run[n - 1], init, t);
    }
  }

  lemma StartIsOk(policy: Policy, init: State)
    requires EngineOk(init)
    ensures Inv(policy, Start(init), init)
  {
    hide EngineOk;
  }

  // ---- the theorems ---------------------------------------------------------------------

  /** Serializability: in every reachable state, each answered query stands in the log,
      and its answer is the one it gets when the logged queries run one at a time. */
  lemma AnswersAreSerial(policy: Policy, init: State, run: seq<Sys>, events: seq<Event>, n: nat, t: nat)
    requires EngineOk(init) && IsRun(policy, init, run, events) && n < |run|
    requires t < |run[n].sessions| && run[n].sessions[t].pc.Done?
    ensures LogOk(run[n]) && AllQueriesFit(Order(run[n]))
    ensures exists i :: 0 <= i < |run[n].log| && run[n].log[i] == t
                        && run[n].sessions[t].pc.result == AnswerOf(init, Order(run[n]), i)
  {
    hide EngineOk, Order, After, Perform, SettledOk, LocksOk, SessionOk;
    RunKeepsInv(policy, init, run, events, n);
    var s := run[n];
    assert IsLogged(s.sessions[t], s.db);
    var i :| 0 <= i < |s.log| && s.log[i] == t;
    assert EntryAt(s, init, i);
    QueryAt(s, i);
  }

  /** Whenever no session holds the lock alone, the tables in memory and on disk are
      exactly those of the serial run. */
  lemma StateIsSerial(policy: Policy, init: State, run: seq<Sys>, events: seq<Event>, n: nat)
    requires EngineOk(init) && IsRun(policy, init, run, events) && n < |run|
    requires run[n].writer.None?
    ensures LogOk(run[n]) && AllQueriesFit(Order(run[n]))
    ensures run[n].db == After(init, Order(run[n]))
  {
    RunKeepsInv(policy, init, run, events, n);
    hide EngineOk, Order, After, SettledOk, LocksOk, SessionOk;
    QuietMeansSerial(policy, run[n], init);
  }
}
