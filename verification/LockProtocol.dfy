/** Queries running concurrently under the database lock and the tokenizer cache's lock
    (src/concurrency/lock_manager.c and `execute_query_with_lock` in
    src/db/db_engine_facade.c). A session is one query on its way through the protocol;
    every lock, unlock, check and access to the shared table is a step of its own, and
    the steps of any number of sessions interleave freely. */
module LockProtocol {
  import opened Text
  import opened Statements
  import opened Storage
  import opened EngineModel
  import opened EngineInvariant
  import opened Queries

  datatype Policy = GlobalMutex | SplitRwlock

  datatype Mode = ReadMode | WriteMode

  /** Where a session is with the tokenizer cache: every lexing looks the text up, and
      stores its tokens when it was not there. */
  datatype CacheStep = WantLookup | InLookup | WantStore | InStore

  datatype Pc =
    | Lexing(at: CacheStep, underLock: bool) // before any database lock, or under it
    | Waiting                                // wants the first database lock
    | Locked                                 // holds it, about to check that the table is loaded
    | Upgrading                              // gave the read lock back, wants the write lock
    | Ready                                  // holds the lock it will keep, about to run
    | Loaded                                 // the table is active and loaded
    | Projected(columns: seq<string>)        // a SELECT has read the header
    | Answered(result: DbResult)             // about to unlock
    | Done(result: DbResult)

  /** `missesFirst` and `missesThen` say whether the lexing before the lock and the one
      under it miss the cache; they are free choices. */
  datatype Session = Session(query: Query, mode: Mode, pc: Pc, missesFirst: bool, missesThen: bool)

  /** The shared state. `acquired` records every database lock acquisition; `log`
      records a session when it acquires the lock it will run under. */
  datatype Sys = Sys(db: State, readers: set<nat>, writer: Option<nat>, cacheHolder: Option<nat>,
                     sessions: seq<Session>, acquired: seq<nat>, log: seq<nat>)

  function Start(db: State): (next: Sys) {
    Sys(db, {}, None, None, [], [], [])
  }

  predicate IsSelect(q: Query) {
    q.Parsed? && q.stmt.Select?
  }

  /** `db_engine_choose_initial_lock_mode`. */
  function InitialMode(q: Query): (mode: Mode) {
    if IsSelect(q) then ReadMode else WriteMode
  }

  /** `table_runtime_is_loaded_for`. */
  predicate IsLoadedFor(r: Runtime, name: string) {
    r.loaded && r.name != "" && SameName(r.name, name)
  }

  // ---- the lock manager ----------------------------------------------------------

  /** Only the read mode of the split policy shares the lock. */
  predicate Shares(policy: Policy, mode: Mode) {
    policy.SplitRwlock? && mode.ReadMode?
  }

  predicate CanLock(policy: Policy, s: Sys, mode: Mode) {
    s.writer.None? && (Shares(policy, mode) || s.readers == {})
  }

  /** The session would run under this lock: it will not give it back to upgrade. */
  predicate IsFinal(session: Session, db: State) {
    session.mode.ReadMode? && IsSelect(session.query) ==> IsLoadedFor(db.runtime, session.query.stmt.select.table)
  }

  /** `lock_db_for_query`, when it does not block. */
  function Lock(policy: Policy, s: Sys, t: nat): (next: Sys)
    requires t < |s.sessions|
  {
    var session := s.sessions[t];
    var s' := if Shares(policy, session.mode) then s.(readers := s.readers + {t}) else s.(writer := Some(t));
    s'.(acquired := s.acquired + [t], log := if IsFinal(session, s.db) then s.log + [t] else s.log)
  }

  /** `unlock_db_for_query` ignores the mode: it releases what the session holds. */
  function Unlock(s: Sys, t: nat): (next: Sys) {
    s.(readers := s.readers - {t}, writer := if s.writer == Some(t) then None else s.writer)
  }

  /** `tokenizer_cache_lock_enabled`: the global-mutex policy has no cache lock. */
  predicate CacheLockEnabled(policy: Policy) {
    policy.SplitRwlock?
  }

  /** `lock_tokenizer_cache`, when it does not block. */
  predicate CanEnterCache(policy: Policy, s: Sys) {
    CacheLockEnabled(policy) ==> s.cacheHolder.None?
  }

  function EnterCache(policy: Policy, s: Sys, t: nat): (s': Sys) {
    if CacheLockEnabled(policy) then s.(cacheHolder := Some(t)) else s
  }

  /** `unlock_tokenizer_cache`. */
  function LeaveCache(policy: Policy, s: Sys): (s': Sys) {
    if CacheLockEnabled(policy) then s.(cacheHolder := None) else s
  }

  /** Every text but an empty one is looked up in the cache. */
  predicate UsesCache(q: Query) {
    q != Rejected("SQL statement is empty.")
  }

  /** The first step with or without the database lock: lexing, if there is a text. */
  function FirstPc(q: Query, underLock: bool): (pc: Pc) {
    if UsesCache(q) then Lexing(WantLookup, underLock) else AfterLexing(underLock)
  }

  function AfterLexing(underLock: bool): (pc: Pc) {
    if underLock then Ready else Waiting
  }

  /** The pc after a cache step. */
  function NextLexing(session: Session, at: CacheStep, underLock: bool): (pc: Pc) {
    match at
    case WantLookup => Lexing(InLookup, underLock)
    case WantStore => Lexing(InStore, underLock)
    case InLookup =>
      if (if underLock then session.missesThen else session.missesFirst) then Lexing(WantStore, underLock)
      else AfterLexing(underLock)
    case InStore => AfterLexing(underLock)
  }

  /** One step into or out of the cache. */
  function Lex(policy: Policy, s: Sys, t: nat): (next: Option<Sys>)
    requires t < |s.sessions| && s.sessions[t].pc.Lexing?
  {
    var session := s.sessions[t];
    var at := session.pc.at;
    var next := s.(sessions := s.sessions[t := session.(pc := NextLexing(session, at, session.pc.underLock))]);
    if at.InLookup? || at.InStore? then Some(LeaveCache(policy, next))
    else if CanEnterCache(policy, s) then Some(EnterCache(policy, next, t))
    else None
  }

  // ---- running a query ---------------------------------------------------------------

  function Prepare(db: State, name: string): (outcome: (bool, State)) {
    var (ok, r) := Load(Activate(db.runtime, name), db.files, name);
    (ok, State(r, db.files))
  }

  /** The first step under the lock: make the table active and load it. */
  function Begin(db: State, q: Query): (outcome: (State, Pc)) {
    match q
    case Rejected(message) => (db, Answered(Failure(message)))
    case Parsed(Delete(_)) => (db, Answered(Failure("DELETE is not supported in memory runtime mode.")))
    case Parsed(Insert(stmt)) =>
      var (ok, db') := Prepare(db, stmt.table);
      (db', if ok then Loaded else Answered(Failure("Failed to load table from storage.")))
    case Parsed(Select(stmt)) =>
      var (ok, db') := Prepare(db, stmt.table);
      (db', if !ok then Answered(Failure("Failed to load table from storage."))
            else if !db'.runtime.loaded then Answered(NotFound(stmt.table))
            else Loaded)
  }

  predicate CanWork(db: State, q: Query) {
    q.Parsed? && q.stmt.Insert? ==> |q.stmt.insert.values| == |q.stmt.insert.columns| && db.runtime.nextId >= 0
  }

  /** The step on the loaded table: insert, or read the header. */
  function Work(db: State, q: Query): (outcome: (State, Pc))
    requires CanWork(db, q)
  {
    if q.Parsed? && q.stmt.Insert? then
      var stmt := q.stmt.insert;
      var (ok, db') := InsertRow(db.runtime, db.files, stmt);
      (db', Answered(if ok then Inserted(stmt.table) else Failure("Failed to insert row into " + stmt.table + ".")))
    else (db, Projected(db.runtime.columns))
  }

  /** The step of a query that runs under its lock. */
  function Run(db: State, q: Query, pc: Pc): (found: Option<(State, Pc)>) {
    match pc
    case Ready => Some(Begin(db, q))
    case Loaded => if CanWork(db, q) then Some(Work(db, q)) else None
    case Projected(columns) =>
      if IsSelect(q) && Rectangular(db.runtime.rows, |columns|) then
        Some((db, Answered(SelectFrom(columns, db.runtime.rows, q.stmt.select))))
      else None
    case _ => None
  }

  /** The step of one session, or None while it cannot move. */
  function Advance(policy: Policy, s: Sys, t: nat): (next: Option<Sys>)
    requires t < |s.sessions|
  {
    var session := s.sessions[t];
    match session.pc
    case Lexing(_, _) => Lex(policy, s, t)
    case Waiting =>
      if !CanLock(policy, s, session.mode) then None
      else Some(Lock(policy, s, t).(sessions := s.sessions[t := session.(pc := Locked)]))
    case Locked =>
      if IsFinal(session, s.db) then Some(s.(sessions := s.sessions[t := session.(pc := FirstPc(session.query, true))]))
      else Some(Unlock(s, t).(sessions := s.sessions[t := session.(mode := WriteMode, pc := Upgrading)]))
    case Upgrading =>
      if !CanLock(policy, s, session.mode) then None
      else Some(Lock(policy, s, t).(sessions := s.sessions[t := session.(pc := FirstPc(session.query, true))]))
    case Answered(result) => Some(Unlock(s, t).(sessions := s.sessions[t := session.(pc := Done(result))]))
    case Done(_) => None
    case _ =>
      var run := Run(s.db, session.query, session.pc);
      if run.None? then None
      else Some(s.(db := run.value.0, sessions := s.sessions[t := session.(pc := run.value.1)]))
  }

  /** A query arrives: it is lexed and parsed before any database lock is taken. */
  function Arrive(s: Sys, q: Query, missesFirst: bool, missesThen: bool): (s': Sys) {
    s.(sessions := s.sessions + [Session(q, InitialMode(q), FirstPc(q, false), missesFirst, missesThen)])
  }

  datatype Event = Arrives(query: Query, missesFirst: bool, missesThen: bool) | Moves(t: nat)

  predicate Next(policy: Policy, s: Sys, e: Event, s': Sys) {
    match e
    case Arrives(q, missesFirst, missesThen) => QueryFits(q) && s' == Arrive(s, q, missesFirst, missesThen)
    case Moves(t) => t < |s.sessions| && Advance(policy, s, t) == Some(s')
  }

  predicate IsRun(policy: Policy, db: State, run: seq<Sys>, events: seq<Event>) {
    && |run| == |events| + 1 && run[0] == Start(db)
    && forall i :: 0 <= i < |events| ==> Next(policy, run[i], events[i], run[i + 1])
  }

  // ---- running one at a time ---------------------------------------------------------------

  /** The state after running the queries one after another. */
  function After(db: State, qs: seq<Query>): (db': State)
    requires EngineOk(db) && AllQueriesFit(qs)
    ensures EngineOk(db')
  {
    if qs == [] then db
    else
      var n := |qs| - 1;
      var before := After(db, qs[..n]);
      PerformKeepsOk(before, qs[n]);
      Perform(before, qs[n]).0
  }

  /** The answer of query `i` when the queries run one after another. */
  function AnswerOf(db: State, qs: seq<Query>, i: nat): (result: DbResult)
    requires EngineOk(db) && AllQueriesFit(qs) && i < |qs|
  {
    Perform(After(db, qs[..i]), qs[i]).1
  }
}
